/** The calendar and the templates behind recurring expenses, day by day. */
module ExpenseRules {
  import opened Options
  import opened RecurringExpenses

  /** The order of dates is that of year, then month, then day. */
  lemma DatesAreOrdered(a: Date, b: Date)
    requires ValidDate(a) && ValidDate(b)
    ensures OnOrBefore(a, b) <==>
            a.year < b.year || (a.year == b.year && (a.month < b.month || (a.month == b.month && a.day <= b.day)))
  {
  }

  /** Thirty days has September; February has 28, and 29 every fourth year except three in four centuries. */
  lemma MonthLengths(year: int, month: int)
    requires 1 <= month <= 12
    ensures LastDay(year, month) ==
            if month == 4 || month == 6 || month == 9 || month == 11 then 30
            else if month != 2 then 31
            else if year % 400 == 0 || (year % 4 == 0 && year % 100 != 0) then 29 else 28
  {
    LeapYears(year);
    hide IsLeap;
  }

  lemma LeapYears(year: int)
    ensures IsLeap(year) <==> year % 400 == 0 || (year % 4 == 0 && year % 100 != 0)
  {
    if year % 400 == 0 {
      assert year == 4 * (100 * (year / 400));
    }
  }

  /** A template applies to a month exactly if it is active and runs on some day of that month. */
  lemma TemplatesApplyExactly(t: Template, month: Date)
    requires ValidTemplate(t) && ValidDate(month)
    ensures Applies(t, FirstOf(month), LastOf(month)) <==>
            && t.active
            && exists d :: ValidDate(d) && d.year == month.year && d.month == month.month
                           && OnOrBefore(t.start, d) && (t.end.Some? ==> OnOrBefore(d, t.end.value))
  {
    hide LastDay, IsLeap;
    var first := FirstOf(month);
    if Applies(t, first, LastOf(month)) {
      var d := if OnOrBefore(first, t.start) then t.start else first;
      assert ValidDate(d) && d.year == month.year && d.month == month.month && OnOrBefore(t.start, d);
    }
  }

  /** Branch `id` is the template's own, or the only open one of a template without a branch. */
  ghost predicate BooksTo(t: Template, branches: seq<nat>, id: nat) {
    t.branch == Own(id) || (t.branch == Unset && branches == [id])
  }

  /** The amount of a template that runs in the month, in a branch it books to, on its due day or else the last day of the month. */
  ghost predicate GeneratedFor(b: Books, target: Date, e: Expense) {
    && e.template.Some? && e.template.value < |b.templates| && e.month == Some(FirstOf(target))
    && var t := b.templates[e.template.value];
    && Applies(t, FirstOf(target), LastOf(target)) && e.amount == t.amount && BooksTo(t, b.branches, e.branch)
    && ValidDate(e.date) && e.date.year == target.year && e.date.month == target.month
    && (e.date.day == t.dueDay || (e.date.day == LastDay(target.year, target.month) && e.date.day < t.dueDay))
  }

  /**
   A generated month only appends such expenses. It fails exactly if a template that runs in it books
   to no branch.
   */
  lemma GeneratedMonthExactly(b: Books, target: Date)
    requires ValidBooks(b) && ValidDate(target)
    ensures var g := EnsureMonth(b, target);
            var first := FirstOf(target);
            && (g.NoBranch? <==> exists i :: 0 <= i < |b.templates| && Applies(b.templates[i], first, LastOf(target))
                                             && forall id: nat :: !BooksTo(b.templates[i], b.branches, id))
            && (g.Generated? ==>
                  && b.expenses <= g.expenses && |g.expenses| == |b.expenses| + g.created
                  && forall i :: |b.expenses| <= i < |g.expenses| ==> GeneratedFor(b, target, g.expenses[i]))
  {
    hide Applies, LastDay, Generate, DueDate, GeneratedFor;
    var first, n := FirstOf(target), |b.templates|;
    FailsExactlyWithoutBranch(b, n, first);
    forall t: Template
      ensures BranchFor(t, b.branches).None? <==> forall id: nat :: !BooksTo(t, b.branches, id)
    {
      BranchesAreBooked(t, b.branches);
    }
    hide BooksTo, BranchFor;
    if EnsureMonth(b, target).Generated? {
      GenerateEffect(b, n, first);
      forall i | |b.expenses| <= i < |EnsureMonth(b, target).expenses|
        ensures GeneratedFor(b, target, EnsureMonth(b, target).expenses[i])
      {
        RowIsGeneratedFor(b, target, EnsureMonth(b, target).expenses[i]);
      }
    }
  }

  lemma RowIsGeneratedFor(b: Books, target: Date, e: Expense)
    requires ValidBooks(b) && ValidDate(target) && IsGenerated(b, e, |b.templates|, FirstOf(target))
    ensures GeneratedFor(b, target, e)
  {
    hide Applies, LastDay, BooksTo, BranchFor;
    BranchesAreBooked(b.templates[e.template.value], b.branches);
    DueDateIsInMonth(b.templates[e.template.value], target);
  }

  lemma BranchesAreBooked(t: Template, branches: seq<nat>)
    ensures BranchFor(t, branches).None? <==> forall id: nat :: !BooksTo(t, branches, id)
    ensures forall id: nat :: BranchFor(t, branches) == Some(id) <==> BooksTo(t, branches, id)
  {
    if t.branch.Own? {
      assert BooksTo(t, branches, t.branch.id);
    } else if t.branch == Unset && |branches| == 1 {
      assert BooksTo(t, branches, branches[0]);
    }
  }

  /** Without dates the range is this month up to today; without an end it is up to today, or the single start day if that lies ahead. */
  lemma RangesExactly(from: Option<Date>, to: Option<Date>, today: Date)
    ensures from.Some? ==> StartOf(from, today) == from.value
    ensures from.None? ==> StartOf(from, today) == Date(today.year, today.month, 1)
    ensures var start := StartOf(from, today);
            && (to.Some? ==> EndOf(start, to, today) == to.value)
            && (to.None? && OnOrBefore(start, today) ==> EndOf(start, to, today) == today)
            && (to.None? && !OnOrBefore(start, today) ==> EndOf(start, to, today) == start)
  {
  }

  /** An expense is there for a template and month exactly if some row of the books names both. */
  lemma ExistingExactly(expenses: seq<Expense>, template: nat, month: Date)
    ensures Has(expenses, template, month) <==> exists i :: 0 <= i < |expenses| && expenses[i].template == Some(template) && expenses[i].month == Some(month)
  {
    if Has(expenses, template, month) {
      var e :| e in expenses && IsFor(e, template, month);
      var i :| 0 <= i < |expenses| && expenses[i] == e;
    }
    if i :| 0 <= i < |expenses| && expenses[i].template == Some(template) && expenses[i].month == Some(month) {
      assert IsFor(expenses[i], template, month);
    }
  }

  /** A range answers nothing when it is empty, refuses when it spans more months than allowed, and otherwise never refuses for its length. */
  lemma RangeAnswersExactly(b: Books, from: Option<Date>, to: Option<Date>, today: Date, maxMonths: int)
    ensures var start := StartOf(from, today);
            var end := EndOf(start, to, today);
            var answer := EnsureRange(b, from, to, today, maxMonths);
            && (!OnOrBefore(start, end) ==> answer == (b.expenses, Counted(0, 0)))
            && (OnOrBefore(start, end) && 12 * (end.year - start.year) + (end.month - start.month) + 1 > maxMonths ==>
                  answer == (b.expenses, TooLong))
            && (answer.1.TooLong? ==> OnOrBefore(start, end) && 12 * (end.year - start.year) + (end.month - start.month) + 1 > maxMonths)
  {
    var start := StartOf(from, today);
    var end := EndOf(start, to, today);
    MonthsCounted(start, end);
    hide *;
    if OnOrBefore(start, end) {
      AtLeastOneMonth(start, end);
      NeverTooLong(b, FirstOf(start), MonthCount(start, end));
    }
    RangeAnswers(b, from, to, today, maxMonths);
  }

  lemma MonthsCounted(start: Date, end: Date)
    ensures MonthCount(start, end) == 12 * (end.year - start.year) + (end.month - start.month) + 1
  {
  }

  lemma RangeAnswers(b: Books, from: Option<Date>, to: Option<Date>, today: Date, maxMonths: int)
    ensures var start := StartOf(from, today);
            var end := EndOf(start, to, today);
            var answer := EnsureRange(b, from, to, today, maxMonths);
            if !OnOrBefore(start, end) then answer == (b.expenses, Counted(0, 0))
            else if MonthCount(start, end) > maxMonths then answer == (b.expenses, TooLong)
            else answer == (b.expenses, Counted(0, 0)) || (MonthCount(start, end) >= 0 && answer == EnsureMonths(b, FirstOf(start), MonthCount(start, end)))
  {
    hide StartOf, EndOf, FirstOf, LastOf, AnyApplies, EnsureMonths;
  }
}
