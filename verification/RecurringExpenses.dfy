/** Fixed monthly expenses: which months are visited, and one expense per template and month. */
module RecurringExpenses {
  import opened Options

  // ---- Dates ----

  datatype Date = Date(year: int, month: int, day: int)

  const MAX_YEAR := 9999

  predicate IsLeap(year: int) {
    year % 4 == 0 && (year % 100 != 0 || year % 400 == 0)
  }

  function LastDay(year: int, month: int): (d: int)
    ensures 28 <= d <= 31
  {
    if month == 2 then (if IsLeap(year) then 29 else 28)
    else if month in {4, 6, 9, 11} then 30 else 31
  }

  predicate ValidDate(d: Date) {
    1 <= d.year <= MAX_YEAR && 1 <= d.month <= 12 && 1 <= d.day <= LastDay(d.year, d.month)
  }

  /** Months counted from year 0, so that successive months are successive numbers. */
  function MonthNumber(d: Date): int {
    12 * d.year + d.month - 1
  }

  predicate OnOrBefore(a: Date, b: Date) {
    MonthNumber(a) < MonthNumber(b) || (MonthNumber(a) == MonthNumber(b) && a.day <= b.day)
  }

  function FirstOf(d: Date): Date { d.(day := 1) }

  function LastOf(d: Date): Date { d.(day := LastDay(d.year, d.month)) }

  function NextMonth(d: Date): Date {
    if d.month == 12 then d.(year := d.year + 1, month := 1) else d.(month := d.month + 1)
  }

  lemma SameMonthNumber(a: Date, b: Date)
    requires ValidDate(a) && ValidDate(b) && MonthNumber(a) == MonthNumber(b)
    ensures a.year == b.year && a.month == b.month && FirstOf(a) == FirstOf(b) && LastOf(a) == LastOf(b)
  {
  }

  lemma WithinMonth(d: Date, e: Date)
    requires ValidDate(d) && ValidDate(e)
    ensures OnOrBefore(FirstOf(d), e) && OnOrBefore(e, LastOf(d)) <==> FirstOf(e) == FirstOf(d)
  {
    if MonthNumber(d) == MonthNumber(e) {
      SameMonthNumber(d, e);
    }
  }

  // ---- Books ----

  datatype Branch = Own(id: nat) | Foreign | Unset

  datatype Template = Template(active: bool, start: Date, end: Option<Date>, dueDay: int, branch: Branch, amount: int)

  datatype Expense = Expense(template: Option<nat>, month: Option<Date>, date: Date, branch: nat, amount: int)

  /** Templates in the order of their keys, and the open branches in the order of theirs. */
  datatype Books = Books(templates: seq<Template>, branches: seq<nat>, expenses: seq<Expense>)

  /** The field validators and check constraints of a template. */
  predicate ValidTemplate(t: Template) {
    && ValidDate(t.start) && 1 <= t.dueDay <= 31
    && (t.end.Some? ==> ValidDate(t.end.value) && OnOrBefore(t.start, t.end.value))
  }

  predicate ValidBooks(b: Books) {
    forall t :: t in b.templates ==> ValidTemplate(t)
  }

  /** A legacy template without a branch uses the only open one. */
  function BranchFor(t: Template, branches: seq<nat>): Option<nat> {
    match t.branch
    case Own(id) => Some(id)
    case Foreign => None
    case Unset => if |branches| == 1 then Some(branches[0]) else None
  }

  predicate Applies(t: Template, first: Date, last: Date) {
    t.active && OnOrBefore(t.start, last) && (t.end.None? || OnOrBefore(first, t.end.value))
  }

  function Min(a: int, b: int): int { if a <= b then a else b }

  function DueDate(t: Template, first: Date): Date {
    first.(day := Min(t.dueDay, LastDay(first.year, first.month)))
  }

  predicate Has(expenses: seq<Expense>, template: nat, month: Date) {
    exists e :: e in expenses && IsFor(e, template, month)
  }

  predicate IsFor(e: Expense, template: nat, month: Date) {
    e.template == Some(template) && e.month == Some(month)
  }

  // ---- One month ----

  datatype Generation = Generated(expenses: seq<Expense>, created: nat, existing: nat) | NoBranch

  /** The first `n` templates, in order; any branch failure undoes the month. */
  function Generate(b: Books, n: nat, first: Date): Generation
    requires n <= |b.templates|
  {
    if n == 0 then Generated(b.expenses, 0, 0)
    else
      match Generate(b, n - 1, first)
      case NoBranch => NoBranch
      case Generated(expenses, created, existing) =>
        var t := b.templates[n - 1];
        if !Applies(t, first, LastOf(first)) then Generated(expenses, created, existing)
        else
          match BranchFor(t, b.branches)
          case None => NoBranch
          case Some(branch) =>
            if Has(expenses, n - 1, first) then Generated(expenses, created, existing + 1)
            else Generated(expenses + [Expense(Some(n - 1), Some(first), DueDate(t, first), branch, t.amount)], created + 1, existing)
  }

  function EnsureMonth(b: Books, target: Date): Generation {
    Generate(b, |b.templates|, FirstOf(target))
  }

  // ---- A range of months ----

  datatype Tally = Counted(created: nat, existing: nat) | TooLong | BranchMissing | YearOverflow

  function Plus(created: nat, existing: nat, rest: Tally): Tally {
    if rest.Counted? then Counted(created + rest.created, existing + rest.existing) else rest
  }

  /** Each month commits by itself, so the months before a failure stay. */
  function EnsureMonths(b: Books, current: Date, n: nat): (seq<Expense>, Tally)
    decreases n
  {
    if n == 0 then (b.expenses, Counted(0, 0))
    else
      match EnsureMonth(b, current)
      case NoBranch => (b.expenses, BranchMissing)
      case Generated(expenses, created, existing) =>
        if current.month == 12 && current.year == MAX_YEAR then (expenses, YearOverflow)
        else
          var (after, rest) := EnsureMonths(b.(expenses := expenses), NextMonth(current), n - 1);
          (after, Plus(created, existing, rest))
  }

  function MonthCount(start: Date, end: Date): int {
    (end.year - start.year) * 12 + end.month - start.month + 1
  }

  predicate AnyApplies(templates: seq<Template>, first: Date, last: Date) {
    exists t :: t in templates && Applies(t, first, last)
  }

  function StartOf(from: Option<Date>, today: Date): Date {
    if from.Some? then from.value else FirstOf(today)
  }

  function EndOf(start: Date, to: Option<Date>, today: Date): Date {
    if to.Some? then to.value else if OnOrBefore(start, today) then today else start
  }

  function EnsureRange(b: Books, from: Option<Date>, to: Option<Date>, today: Date, maxMonths: int): (seq<Expense>, Tally) {
    var start := StartOf(from, today);
    var end := EndOf(start, to, today);
    if !OnOrBefore(start, end) then (b.expenses, Counted(0, 0))
    else if MonthCount(start, end) > maxMonths then (b.expenses, TooLong)
    else if !AnyApplies(b.templates, FirstOf(start), LastOf(end)) then (b.expenses, Counted(0, 0))
    else EnsureMonths(b, FirstOf(start), MonthCount(start, end))
  }

  // ---- The tables ----

  class ExpenseTables {
    var templates: seq<Template>
    var branches: seq<nat>
    var expenses: seq<Expense>

    constructor (templates: seq<Template>, branches: seq<nat>)
      ensures State() == Books(templates, branches, [])
    {
      this.templates, this.branches, expenses := templates, branches, [];
    }

    function State(): Books
      reads this
    {
      Books(templates, branches, expenses)
    }

    method EnsureForMonth(target: Date) returns (outcome: Generation)
      modifies this`expenses
      ensures match EnsureMonth(old(State()), target)
              case Generated(es, created, existing) => outcome == Generated(es, created, existing) && expenses == es
              case NoBranch => outcome == NoBranch && expenses == old(expenses)
    {
      hide Applies, Has, DueDate, BranchFor;
      ghost var before := State();
      var saved, first := expenses, FirstOf(target);
      var created, existing, i := 0, 0, 0;
      while i < |templates|
        invariant 0 <= i <= |templates|
        invariant Generate(before, i, first) == Generated(expenses, created, existing)
      {
        var t := templates[i];
        if Applies(t, first, LastOf(first)) {
          var branch := BranchFor(t, branches);
          if branch.None? {
            FailureStands(before, i + 1, first);
            expenses := saved;
            return NoBranch;
          }
          if Has(expenses, i, first) {
            existing := existing + 1;
          } else {
            expenses := expenses + [Expense(Some(i), Some(first), DueDate(t, first), branch.value, t.amount)];
            created := created + 1;
          }
        }
        i := i + 1;
      }
      return Generated(expenses, created, existing);
    }

    method EnsureForRange(from: Option<Date>, to: Option<Date>, today: Date, maxMonths: int) returns (tally: Tally)
      modifies this`expenses
      ensures (expenses, tally) == EnsureRange(old(State()), from, to, today, maxMonths)
    {
      hide EnsureMonth, AnyApplies, OnOrBefore, MonthCount, LastDay;
      var start := if from.Some? then from.value else FirstOf(today);
      var end := if to.Some? then to.value else if OnOrBefore(start, today) then today else start;
      if !OnOrBefore(start, end) {
        return Counted(0, 0);
      }
      var count := MonthCount(start, end);
      if count > maxMonths {
        return TooLong;
      }
      if !AnyApplies(templates, FirstOf(start), LastOf(end)) {
        return Counted(0, 0);
      }
      AtLeastOneMonth(start, end);
      ghost var before := State();
      var created: nat, existing: nat, i, current := 0, 0, 0, FirstOf(start);
      while i < count
        invariant 0 <= i <= count
        invariant var (after, rest) := EnsureMonths(State(), current, count - i);
                  EnsureMonths(before, FirstOf(start), count) == (after, Plus(created, existing, rest))
      {
        var outcome := EnsureForMonth(current);
        if outcome.NoBranch? {
          return BranchMissing;
        }
        created, existing := created + outcome.created, existing + outcome.existing;
        if current.month == 12 && current.year == MAX_YEAR {
          return YearOverflow;
        }
        current := NextMonth(current);
        i := i + 1;
      }
      return Counted(created, existing);
    }
  }

  lemma AtLeastOneMonth(start: Date, end: Date)
    requires OnOrBefore(start, end)
    ensures MonthCount(start, end) >= 1
  {
  }

  lemma {:induction false} FailureStands(b: Books, n: nat, first: Date)
    requires n <= |b.templates| && Generate(b, n, first).NoBranch?
    ensures Generate(b, |b.templates|, first).NoBranch?
    decreases |b.templates| - n
  {
    if n < |b.templates| {
      FailureStands(b, n + 1, first);
    }
  }

  // ---- The months of a range ----

  /** The first of the month `i` months after `d`. */
  function MonthAfter(d: Date, i: nat): Date {
    if i == 0 then FirstOf(d) else NextMonth(MonthAfter(d, i - 1))
  }

  lemma {:induction false} MonthAfterCounts(d: Date, i: nat)
    requires ValidDate(d)
    ensures MonthNumber(MonthAfter(d, i)) == MonthNumber(d) + i
    ensures 1 <= MonthAfter(d, i).month <= 12 && MonthAfter(d, i).day == 1 && MonthAfter(d, i).year >= d.year
  {
    if i > 0 {
      MonthAfterCounts(d, i - 1);
    }
  }

  /** A day lies in one of the visited months exactly when it lies between the range's outer months. */
  lemma VisitsExactlyTheRange(start: Date, end: Date, e: Date)
    requires ValidDate(start) && ValidDate(end) && ValidDate(e) && OnOrBefore(start, end)
    ensures MonthCount(start, end) >= 1
    ensures OnOrBefore(FirstOf(start), e) && OnOrBefore(e, LastOf(end)) <==>
            exists i: nat :: i < MonthCount(start, end) && FirstOf(e) == MonthAfter(start, i)
  {
    hide LastDay;
    if OnOrBefore(FirstOf(start), e) && OnOrBefore(e, LastOf(end)) {
      var i: nat := MonthNumber(e) - MonthNumber(start);
      MonthAfterCounts(start, i);
      assert FirstOf(e) == MonthAfter(start, i);
    }
    forall i: nat | i < MonthCount(start, end) && FirstOf(e) == MonthAfter(start, i)
      ensures OnOrBefore(FirstOf(start), e) && OnOrBefore(e, LastOf(end))
    {
      MonthAfterCounts(start, i);
      WithinMonth(end, e);
    }
  }

  lemma {:induction false} MonthsAreDistinct(d: Date, i: nat, j: nat)
    requires ValidDate(d) && i < j
    ensures MonthAfter(d, i) != MonthAfter(d, j)
  {
    MonthAfterCounts(d, i);
    MonthAfterCounts(d, j);
  }

  /** The due date stays in its month, on the due day or the month's last day. */
  lemma DueDateIsInMonth(t: Template, d: Date)
    requires ValidTemplate(t) && ValidDate(d)
    ensures ValidDate(DueDate(t, FirstOf(d))) && FirstOf(DueDate(t, FirstOf(d))) == FirstOf(d)
    ensures var due := DueDate(t, FirstOf(d)).day;
            due <= t.dueDay && (due == t.dueDay || (due == LastDay(d.year, d.month) && t.dueDay > due))
  {
  }

  // ---- One expense per template and month ----

  function CountFor(expenses: seq<Expense>, template: nat, month: Date): nat {
    if expenses == [] then 0
    else CountFor(expenses[..|expenses| - 1], template, month) + if IsFor(expenses[|expenses| - 1], template, month) then 1 else 0
  }

  lemma {:induction false} CountAndHas(expenses: seq<Expense>, template: nat, month: Date)
    ensures Has(expenses, template, month) <==> CountFor(expenses, template, month) > 0
  {
    if expenses != [] {
      var n := |expenses| - 1;
      CountAndHas(expenses[..n], template, month);
      assert expenses == expenses[..n] + [expenses[n]];
    }
  }

  lemma CountAfterAppend(expenses: seq<Expense>, e: Expense, template: nat, month: Date)
    ensures CountFor(expenses + [e], template, month) == CountFor(expenses, template, month) + if IsFor(e, template, month) then 1 else 0
  {
    assert (expenses + [e])[..|expenses|] == expenses;
  }

  ghost predicate OnePerMonth(expenses: seq<Expense>) {
    forall template: nat, month: Date :: CountFor(expenses, template, month) <= 1
  }

  /** Templates below `n` that apply in the month. */
  function Applicable(templates: seq<Template>, n: nat, first: Date): nat
    requires n <= |templates|
  {
    if n == 0 then 0 else Applicable(templates, n - 1, first) + if Applies(templates[n - 1], first, LastOf(first)) then 1 else 0
  }

  /** What a month's generation did: what it appended, and how often each template now has the month. */
  ghost predicate MonthEffect(b: Books, n: nat, first: Date, expenses: seq<Expense>, created: nat, existing: nat)
    requires n <= |b.templates|
  {
    && b.expenses <= expenses && |expenses| == |b.expenses| + created
    && created + existing == Applicable(b.templates, n, first)
    && (forall i :: |b.expenses| <= i < |expenses| ==> IsGenerated(b, expenses[i], n, first))
    && (forall template: nat, month: Date ::
          CountFor(expenses, template, month) ==
          if month == first && template < n && Applies(b.templates[template], first, LastOf(first)) && CountFor(b.expenses, template, month) == 0
          then 1 else CountFor(b.expenses, template, month))
  }

  predicate IsGenerated(b: Books, e: Expense, n: nat, first: Date)
    requires n <= |b.templates|
  {
    && e.template.Some? && e.template.value < n && e.month == Some(first)
    && var t := b.templates[e.template.value];
    Applies(t, first, LastOf(first)) && e.date == DueDate(t, first) && Some(e.branch) == BranchFor(t, b.branches) && e.amount == t.amount
  }

  lemma {:induction false} GenerateEffect(b: Books, n: nat, first: Date)
    requires n <= |b.templates| && Generate(b, n, first).Generated?
    ensures var g := Generate(b, n, first); MonthEffect(b, n, first, g.expenses, g.created, g.existing)
  {
    hide Applies, DueDate, BranchFor;
    if n > 0 {
      GenerateEffect(b, n - 1, first);
      var before, after := Generate(b, n - 1, first), Generate(b, n, first);
      CountAndHas(before.expenses, n - 1, first);
      if after.created > before.created {
        var e := after.expenses[|before.expenses|];
        forall template: nat, month: Date
          ensures CountFor(after.expenses, template, month) == CountFor(before.expenses, template, month) + if IsFor(e, template, month) then 1 else 0
        {
          CountAfterAppend(before.expenses, e, template, month);
        }
      }
    }
  }

  /** A month gives each applicable template exactly one expense, and other pairs none. */
  lemma MonthKeepsOnePerMonth(b: Books, target: Date)
    requires OnePerMonth(b.expenses) && EnsureMonth(b, target).Generated?
    ensures OnePerMonth(EnsureMonth(b, target).expenses)
    ensures forall template: nat :: template < |b.templates| && Applies(b.templates[template], FirstOf(target), LastOf(target)) ==>
              CountFor(EnsureMonth(b, target).expenses, template, FirstOf(target)) == 1
  {
    GenerateEffect(b, |b.templates|, FirstOf(target));
  }

  /** Generation fails exactly when some applicable template has no branch to use. */
  lemma {:induction false} FailsExactlyWithoutBranch(b: Books, n: nat, first: Date)
    requires n <= |b.templates|
    ensures Generate(b, n, first).NoBranch? <==>
            exists i :: 0 <= i < n && Applies(b.templates[i], first, LastOf(first)) && BranchFor(b.templates[i], b.branches).None?
  {
    hide Applies, BranchFor, Has;
    if n > 0 {
      FailsExactlyWithoutBranch(b, n - 1, first);
    }
  }

  // ---- Ranges ----

  ghost predicate MonthCovered(templates: seq<Template>, expenses: seq<Expense>, first: Date) {
    forall i: nat :: i < |templates| && Applies(templates[i], first, LastOf(first)) ==> Has(expenses, i, first)
  }

  ghost predicate Covered(templates: seq<Template>, expenses: seq<Expense>, current: Date, n: nat)
    decreases n
  {
    n == 0 || (MonthCovered(templates, expenses, FirstOf(current)) && Covered(templates, expenses, NextMonth(current), n - 1))
  }

  function RangeApplicable(templates: seq<Template>, current: Date, n: nat): nat
    decreases n
  {
    if n == 0 then 0 else Applicable(templates, |templates|, FirstOf(current)) + RangeApplicable(templates, NextMonth(current), n - 1)
  }

  lemma MonthStaysCovered(templates: seq<Template>, expenses: seq<Expense>, more: seq<Expense>, first: Date)
    requires MonthCovered(templates, expenses, first) && expenses <= more
    ensures MonthCovered(templates, more, first)
  {
    hide Applies;
    forall i: nat | i < |templates| && Applies(templates[i], first, LastOf(first))
      ensures Has(more, i, first)
    {
      var e :| e in expenses && IsFor(e, i, first);
      assert e in more;
    }
  }

  lemma MonthIsCovered(b: Books, target: Date)
    requires EnsureMonth(b, target).Generated?
    ensures var g := EnsureMonth(b, target);
            && MonthCovered(b.templates, g.expenses, FirstOf(target)) && b.expenses <= g.expenses
            && g.created + g.existing == Applicable(b.templates, |b.templates|, FirstOf(target))
            && (OnePerMonth(b.expenses) ==> OnePerMonth(g.expenses))
  {
    var g, first := EnsureMonth(b, target), FirstOf(target);
    GenerateEffect(b, |b.templates|, first);
    forall i: nat | i < |b.templates| && Applies(b.templates[i], first, LastOf(first))
      ensures Has(g.expenses, i, first)
    {
      CountAndHas(g.expenses, i, first);
    }
  }

  lemma {:induction false} MonthsEffect(b: Books, current: Date, n: nat)
    ensures var (expenses, tally) := EnsureMonths(b, current, n);
            && b.expenses <= expenses && (OnePerMonth(b.expenses) ==> OnePerMonth(expenses))
            && (tally.Counted? ==>
                  && Covered(b.templates, expenses, current, n) && |expenses| == |b.expenses| + tally.created
                  && tally.created + tally.existing == RangeApplicable(b.templates, current, n))
    decreases n
  {
    hide EnsureMonth, OnePerMonth, MonthCovered, Applicable;
    if n > 0 && EnsureMonth(b, current).Generated? {
      var g := EnsureMonth(b, current);
      MonthIsCovered(b, current);
      MonthGrowth(b, current);
      var next := b.(expenses := g.expenses);
      MonthsEffect(next, NextMonth(current), n - 1);
      var expenses := EnsureMonths(next, NextMonth(current), n - 1).0;
      MonthStaysCovered(b.templates, g.expenses, expenses, FirstOf(current));
    }
  }

  lemma MonthGrowth(b: Books, target: Date)
    requires EnsureMonth(b, target).Generated?
    ensures |EnsureMonth(b, target).expenses| == |b.expenses| + EnsureMonth(b, target).created
  {
    GenerateEffect(b, |b.templates|, FirstOf(target));
  }

  lemma {:induction false} CoveredMonthCreatesNothing(b: Books, n: nat, first: Date)
    requires n <= |b.templates| && MonthCovered(b.templates, b.expenses, first) && !Generate(b, n, first).NoBranch?
    ensures Generate(b, n, first) == Generated(b.expenses, 0, Applicable(b.templates, n, first))
  {
    hide Applies, Has, BranchFor;
    if n > 0 {
      CoveredMonthCreatesNothing(b, n - 1, first);
    }
  }

  /** Whether a month fails depends on templates and branches only, not on what exists. */
  lemma SameBranches(b: Books, expenses: seq<Expense>, target: Date)
    ensures EnsureMonth(b.(expenses := expenses), target).NoBranch? == EnsureMonth(b, target).NoBranch?
  {
    FailsExactlyWithoutBranch(b, |b.templates|, FirstOf(target));
    FailsExactlyWithoutBranch(b.(expenses := expenses), |b.templates|, FirstOf(target));
  }

  lemma {:induction false} CoveredMonthsCreateNothing(b: Books, expenses: seq<Expense>, current: Date, n: nat)
    requires EnsureMonths(b, current, n).1.Counted? && Covered(b.templates, expenses, current, n)
    ensures EnsureMonths(b.(expenses := expenses), current, n) == (expenses, Counted(0, RangeApplicable(b.templates, current, n)))
    decreases n
  {
    hide Generate, MonthCovered, Applicable;
    if n > 0 {
      var again, g := b.(expenses := expenses), EnsureMonth(b, current);
      SameBranches(b, expenses, current);
      CoveredMonthCreatesNothing(again, |b.templates|, FirstOf(current));
      CoveredMonthsCreateNothing(b.(expenses := g.expenses), expenses, NextMonth(current), n - 1);
    }
  }

  /** Running a range again creates nothing and finds all that the first run created or found. */
  lemma SecondRunCreatesNothing(b: Books, from: Option<Date>, to: Option<Date>, today: Date, maxMonths: int)
    requires EnsureRange(b, from, to, today, maxMonths).1.Counted?
    ensures var (expenses, tally) := EnsureRange(b, from, to, today, maxMonths);
            EnsureRange(b.(expenses := expenses), from, to, today, maxMonths) == (expenses, Counted(0, tally.created + tally.existing))
  {
    var start := StartOf(from, today);
    var end := EndOf(start, to, today);
    if OnOrBefore(start, end) && AnyApplies(b.templates, FirstOf(start), LastOf(end)) {
      var n := MonthCount(start, end);
      hide Covered, AnyApplies, OnePerMonth;
      MonthsEffect(b, FirstOf(start), n);
      CoveredMonthsCreateNothing(b, EnsureMonths(b, FirstOf(start), n).0, FirstOf(start), n);
    }
  }

  lemma {:induction false} CoveredAt(templates: seq<Template>, expenses: seq<Expense>, current: Date, n: nat, i: nat)
    requires Covered(templates, expenses, current, n) && i < n
    ensures MonthCovered(templates, expenses, MonthAfter(current, i))
    decreases n
  {
    hide MonthCovered;
    if i > 0 {
      CoveredAt(templates, expenses, NextMonth(current), n - 1, i - 1);
      MonthAfterNext(current, i - 1);
    }
  }

  lemma {:induction false} MonthAfterNext(current: Date, i: nat)
    ensures MonthAfter(NextMonth(current), i) == MonthAfter(current, i + 1)
  {
    if i > 0 {
      MonthAfterNext(current, i - 1);
    }
  }

  lemma AppliesWithinRange(t: Template, start: Date, end: Date, i: nat)
    requires ValidDate(start) && ValidDate(end) && OnOrBefore(start, end) && i < MonthCount(start, end) && ValidTemplate(t)
    requires Applies(t, MonthAfter(start, i), LastOf(MonthAfter(start, i)))
    ensures Applies(t, FirstOf(start), LastOf(end))
  {
    var m := MonthAfter(start, i);
    MonthAfterCounts(start, i);
    if MonthNumber(m) == MonthNumber(end) {
      assert m.year == end.year && m.month == end.month;
    }
  }

  /** The early exit skips only ranges in which no month has anything to generate. */
  lemma EarlyExitSkipsNothing(templates: seq<Template>, start: Date, end: Date, i: nat, template: nat)
    requires ValidDate(start) && ValidDate(end) && OnOrBefore(start, end) && i < MonthCount(start, end) && template < |templates|
    requires forall t :: t in templates ==> ValidTemplate(t)
    requires !AnyApplies(templates, FirstOf(start), LastOf(end))
    ensures !Applies(templates[template], MonthAfter(start, i), LastOf(MonthAfter(start, i)))
  {
    assert templates[template] in templates;
    assert !Applies(templates[template], FirstOf(start), LastOf(end));
    if Applies(templates[template], MonthAfter(start, i), LastOf(MonthAfter(start, i))) {
      AppliesWithinRange(templates[template], start, end, i);
    }
  }

  /** A range that is counted leaves every applicable template with exactly one expense in each of its months. */
  lemma RangeCoversEveryMonth(b: Books, from: Option<Date>, to: Option<Date>, today: Date, maxMonths: int, i: nat, template: nat)
    requires ValidBooks(b) && OnePerMonth(b.expenses)
    requires ValidDate(StartOf(from, today)) && ValidDate(EndOf(StartOf(from, today), to, today))
    requires EnsureRange(b, from, to, today, maxMonths).1.Counted?
    requires OnOrBefore(StartOf(from, today), EndOf(StartOf(from, today), to, today))
    requires i < MonthCount(StartOf(from, today), EndOf(StartOf(from, today), to, today)) && template < |b.templates|
    ensures var m := MonthAfter(StartOf(from, today), i);
            Applies(b.templates[template], m, LastOf(m)) ==> CountFor(EnsureRange(b, from, to, today, maxMonths).0, template, m) == 1
  {
    var start := StartOf(from, today);
    var end := EndOf(start, to, today);
    var m, expenses := MonthAfter(start, i), EnsureRange(b, from, to, today, maxMonths).0;
    var n := MonthCount(start, end);
    hide Applies, EnsureMonths, AnyApplies;
    MonthsEffect(b, FirstOf(start), n);
    if AnyApplies(b.templates, FirstOf(start), LastOf(end)) {
      CoveredAt(b.templates, expenses, FirstOf(start), n, i);
      MonthAfterFirst(start, i);
    } else {
      EarlyExitSkipsNothing(b.templates, start, end, i, template);
    }
    CountAndHas(expenses, template, m);
    assert CountFor(expenses, template, m) <= 1;
  }

  lemma {:induction false} MonthAfterFirst(d: Date, i: nat)
    ensures MonthAfter(FirstOf(d), i) == MonthAfter(d, i)
  {
    if i > 0 {
      MonthAfterFirst(d, i - 1);
    }
  }

  /** The month after which the date type has no next one. */
  predicate IsLastMonth(d: Date) {
    d.year == MAX_YEAR && d.month == 12
  }

  lemma {:induction false} OverflowMeetsLastMonth(b: Books, current: Date, n: nat)
    ensures EnsureMonths(b, current, n).1.YearOverflow? ==> exists i: nat :: i < n && IsLastMonth(MonthAfter(current, i))
    ensures EnsureMonths(b, current, n).1.Counted? ==> forall i: nat :: i < n ==> !IsLastMonth(MonthAfter(current, i))
    decreases n
  {
    hide EnsureMonth, IsLastMonth;
    if n > 0 {
      assert MonthAfter(current, 0) == FirstOf(current);
      SameLastMonth(current);
      if EnsureMonth(b, current).Generated? && !IsLastMonth(current) {
        var next := b.(expenses := EnsureMonth(b, current).expenses);
        OverflowMeetsLastMonth(next, NextMonth(current), n - 1);
        forall i: nat
          ensures MonthAfter(NextMonth(current), i) == MonthAfter(current, i + 1)
        {
          MonthAfterNext(current, i);
        }
        assert forall i: nat :: 0 < i < n ==> MonthAfter(current, i) == MonthAfter(NextMonth(current), i - 1);
      }
    }
  }

  lemma SameLastMonth(d: Date)
    ensures IsLastMonth(FirstOf(d)) == IsLastMonth(d)
    ensures IsLastMonth(d) == (d.month == 12 && d.year == MAX_YEAR)
  {
  }

  /**
   A range that takes in December 9999 generates all its expenses and then raises, because the loop
   still steps to the month after; every other range with something to generate is counted, unless a
   template has no branch.
   */
  lemma RangeOverflowsExactly(b: Books, from: Option<Date>, to: Option<Date>, today: Date, maxMonths: int)
    requires ValidDate(StartOf(from, today)) && ValidDate(EndOf(StartOf(from, today), to, today))
    requires var start := StartOf(from, today);
             var end := EndOf(start, to, today);
             OnOrBefore(start, end) && MonthCount(start, end) <= maxMonths && AnyApplies(b.templates, FirstOf(start), LastOf(end))
    requires !EnsureRange(b, from, to, today, maxMonths).1.BranchMissing?
    ensures EnsureRange(b, from, to, today, maxMonths).1.YearOverflow? <==> IsLastMonth(EndOf(StartOf(from, today), to, today))
  {
    var start := StartOf(from, today);
    var end := EndOf(start, to, today);
    var n := MonthCount(start, end);
    hide EnsureMonths, AnyApplies, LastDay;
    OverflowMeetsLastMonth(b, FirstOf(start), n);
    NeverTooLong(b, FirstOf(start), n);
    MonthAfterFirst(start, n - 1);
    MonthAfterCounts(start, n - 1);
    forall i: nat | i < n && IsLastMonth(MonthAfter(FirstOf(start), i))
      ensures IsLastMonth(end)
    {
      MonthAfterFirst(start, i);
      MonthAfterCounts(start, i);
    }
  }

  lemma {:induction false} NeverTooLong(b: Books, current: Date, n: nat)
    ensures !EnsureMonths(b, current, n).1.TooLong?
    decreases n
  {
    hide EnsureMonth;
    if n > 0 && EnsureMonth(b, current).Generated? {
      NeverTooLong(b.(expenses := EnsureMonth(b, current).expenses), NextMonth(current), n - 1);
    }
  }

  // ---- Runs ----

  datatype Step =
    | RangeStep(from: Option<Date>, to: Option<Date>, today: Date, maxMonths: int)
    | MonthStep(target: Date)
      /** Expenses entered by hand carry no template. */
    | ManualExpense(date: Date, branch: nat, amount: int)
    | EditTemplates(templates: seq<Template>, branches: seq<nat>)

  function Apply(b: Books, step: Step): Books {
    match step
    case RangeStep(from, to, today, maxMonths) => b.(expenses := EnsureRange(b, from, to, today, maxMonths).0)
    case MonthStep(target) => (match EnsureMonth(b, target) case Generated(expenses, _, _) => b.(expenses := expenses) case NoBranch => b)
    case ManualExpense(date, branch, amount) => b.(expenses := b.expenses + [Expense(None, None, date, branch, amount)])
    case EditTemplates(templates, branches) => b.(templates := templates, branches := branches)
  }

  function Run(b: Books, steps: seq<Step>): Books {
    if steps == [] then b else Apply(Run(b, steps[..|steps| - 1]), steps[|steps| - 1])
  }

  /** Over every run no template has two expenses for one month, and no expense is ever removed. */
  lemma {:induction false} RunsKeepOnePerMonth(b: Books, steps: seq<Step>)
    requires OnePerMonth(b.expenses)
    ensures OnePerMonth(Run(b, steps).expenses) && b.expenses <= Run(b, steps).expenses
  {
    if steps != [] {
      hide EnsureMonths, EnsureMonth, AnyApplies;
      RunsKeepOnePerMonth(b, steps[..|steps| - 1]);
      var before := Run(b, steps[..|steps| - 1]);
      match steps[|steps| - 1]
      case RangeStep(from, to, today, maxMonths) =>
        var start := StartOf(from, today);
        var n := MonthCount(start, EndOf(start, to, today));
        if n >= 0 {
          MonthsEffect(before, FirstOf(start), n);
        }
      case MonthStep(target) =>
        if EnsureMonth(before, target).Generated? {
          MonthIsCovered(before, target);
        }
      case ManualExpense(date, branch, amount) => ManualKeepsOnePerMonth(before.expenses, Expense(None, None, date, branch, amount));
      case _ =>
    }
  }

  lemma ManualKeepsOnePerMonth(expenses: seq<Expense>, e: Expense)
    requires OnePerMonth(expenses) && e.template.None?
    ensures OnePerMonth(expenses + [e])
  {
    forall template: nat, month: Date
      ensures CountFor(expenses + [e], template, month) <= 1
    {
      CountAfterAppend(expenses, e, template, month);
    }
  }
}
