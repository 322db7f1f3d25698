/**
 Bulk stock import. Cells arrive already read: what each identifier matches in the catalogue, and
 what each number says. Every change of stock goes through the ledger.
 */
module InventoryImport {
  import opened Options
  import opened AverageCost
  import opened StockLedger

  datatype Mode = AddMode | ReplaceMode | OpeningMode | MinimumMode | UnknownMode

  /** A numeric cell; `stored` is what the database would make of an amount with too many decimals. */
  datatype Cell = Blank | NotANumber | TooPrecise(stored: int) | Amount(amount: int)

  /** What one supplied identifier matches; variant identifiers never match a product. */
  datatype Lookup = Lookup(variant: Option<Item>, product: Option<nat>)

  /** `here` says that the row names the branch and warehouse chosen for the import. */
  datatype Row = Row(here: bool, identifiers: seq<Lookup>, quantity: Cell, minimum: Cell, unitCost: Cell)

  datatype Problem =
    | WrongContext | NoIdentifier | Unresolved | WrongVariant | VariantRequired | MinimumNotForMeter | MeterOpening | Duplicate
    | MinimumMissing | MinimumInvalid | MinimumNegative | QuantityMissing | QuantityInvalid | QuantityNegative
    | CostInvalid | CostNegative | NotStocked | Refusal(why: StockLedger.Refusal)

  datatype Error = Error(row: nat, problem: Problem)

  datatype Progress = Progress(
    ledger: Ledger,
    reorder: map<nat, int>,
    seen: set<Item>,
    imported: nat,
    updated: nat,
    failed: nat,
    errors: seq<Error>)

  // ---- Identifiers ----

  predicate Matches(l: Lookup) {
    l.variant.Some? != l.product.Some?
  }

  function ProductOf(l: Lookup): nat
    requires Matches(l)
  {
    if l.variant.Some? then l.variant.value.product else l.product.value
  }

  function VariantOf(l: Lookup): Option<nat> {
    if l.variant.Some? then l.variant.value.variant else None
  }

  /** Every identifier matches one thing, all name the product, and the variant is the one some of them name. */
  predicate Agree(lookups: seq<Lookup>, item: Item) {
    && lookups != []
    && (forall l :: l in lookups ==> Matches(l) && ProductOf(l) == item.product && (VariantOf(l).Some? ==> VariantOf(l) == item.variant))
    && (item.variant.Some? ==> exists l :: l in lookups && VariantOf(l) == item.variant)
  }

  lemma AgreementIsUnique(lookups: seq<Lookup>, a: Item, b: Item)
    requires Agree(lookups, a) && Agree(lookups, b)
    ensures a == b
  {
    assert lookups[0] in lookups;
  }

  ghost predicate Collected(lookups: seq<Lookup>, products: set<nat>, variants: set<nat>) {
    && (forall l :: l in lookups ==> Matches(l) && ProductOf(l) in products && (VariantOf(l).Some? ==> VariantOf(l).value in variants))
    && (forall p :: p in products ==> exists l :: l in lookups && ProductOf(l) == p)
    && (forall v :: v in variants ==> exists l :: l in lookups && VariantOf(l) == Some(v))
  }

  lemma CollectOne(lookups: seq<Lookup>, products: set<nat>, variants: set<nat>, l: Lookup)
    requires Collected(lookups, products, variants) && Matches(l)
    ensures Collected(lookups + [l], products + {ProductOf(l)}, variants + if VariantOf(l).Some? then {VariantOf(l).value} else {})
  {
    var all := lookups + [l];
    assert all[|lookups|] == l;
    assert forall x :: x in lookups ==> x in all;
  }

  /** Collects products and variants; stops at the first identifier that matches nothing, or two things. */
  method Resolve(lookups: seq<Lookup>) returns (item: Option<Item>)
    ensures item.Some? ==> Agree(lookups, item.value)
    ensures item.None? ==> forall i :: !Agree(lookups, i)
  {
    hide Agree, Collected;
    var products: set<nat>, variants: set<nat> := {}, {};
    var i := 0;
    assert Collected([], {}, {}) by {
      CollectedNone();
    }
    while i < |lookups|
      invariant 0 <= i <= |lookups|
      invariant Collected(lookups[..i], products, variants)
    {
      var l := lookups[i];
      if !Matches(l) {
        NoneAgreesWith(lookups, i);
        return None;
      }
      CollectOne(lookups[..i], products, variants, l);
      assert lookups[..i + 1] == lookups[..i] + [l];
      products := products + {ProductOf(l)};
      variants := variants + if VariantOf(l).Some? then {VariantOf(l).value} else {};
      i := i + 1;
    }
    assert lookups[..i] == lookups;
    if |products| != 1 || |variants| > 1 {
      forall a | Agree(lookups, a)
        ensures false
      {
        AgreedItemIsCollected(lookups, products, variants, a);
      }
      return None;
    }
    var p :| p in products;
    OnlyElement(products, p);
    assert lookups != [] by {
      NothingCollected(variants, p);
    }
    if variants == {} {
      CollectedItemAgrees(lookups, p, variants);
      return Some(Item(p, None));
    }
    var v :| v in variants;
    OnlyElement(variants, v);
    CollectedItemAgrees(lookups, p, variants);
    return Some(Item(p, Some(v)));
  }

  lemma NothingCollected(variants: set<nat>, p: nat)
    ensures !Collected([], {p}, variants)
  {
    assert p in {p};
  }

  lemma CollectedNone()
    ensures Collected([], {}, {})
  {
  }

  lemma NoneAgreesWith(lookups: seq<Lookup>, i: nat)
    requires i < |lookups| && !Matches(lookups[i])
    ensures forall a :: !Agree(lookups, a)
  {
    assert lookups[i] in lookups;
  }

  lemma OnlyElement(s: set<nat>, x: nat)
    requires x in s && |s| <= 1
    ensures s == {x}
  {
    assert |s - {x}| == 0;
  }

  lemma AgreedItemIsCollected(lookups: seq<Lookup>, products: set<nat>, variants: set<nat>, a: Item)
    requires Collected(lookups, products, variants) && Agree(lookups, a)
    ensures |products| == 1 && |variants| <= 1
  {
    assert lookups[0] in lookups;
    assert products == {a.product};
    if a.variant.Some? {
      SmallerSet(variants, a.variant.value);
    } else {
      assert variants == {};
    }
  }

  lemma CollectedItemAgrees(lookups: seq<Lookup>, p: nat, variants: set<nat>)
    requires Collected(lookups, {p}, variants) && lookups != []
    ensures variants == {} ==> Agree(lookups, Item(p, None))
    ensures forall v :: variants == {v} ==> Agree(lookups, Item(p, Some(v)))
  {
  }

  lemma SmallerSet(s: set<nat>, x: nat)
    requires s <= {x}
    ensures |s| <= 1
  {
    if x in s {
      assert s == {x};
    } else {
      assert s == {};
    }
  }

  // ---- Screening ----

  ghost function ItemOf(r: Row): Option<Item> {
    if i: Item :| Agree(r.identifiers, i) then Some(i) else None
  }

  /** Everything checked before the row takes its place in the file. */
  function ItemProblem(catalogue: map<nat, Product>, mode: Mode, r: Row, item: Option<Item>): Option<Problem> {
    if !r.here then Some(WrongContext)
    else if r.identifiers == [] then Some(NoIdentifier)
    else if item.None? || item.value.product !in catalogue then Some(Unresolved)
    else
      var p, i := catalogue[item.value.product], item.value;
      if i.variant.Some? && i.variant.value !in p.variants then Some(WrongVariant)
      else if IsMeterParent(p, i) then Some(VariantRequired)
      else if p.meterTailoring && !r.minimum.Blank? then Some(MinimumNotForMeter)
      else if p.meterTailoring && i.variant.None? && mode == OpeningMode then Some(MeterOpening)
      else None
  }

  function CellProblem(c: Cell, missing: Option<Problem>, invalid: Problem, negative: Problem): Option<Problem> {
    match c
    case Blank => missing
    case NotANumber => Some(invalid)
    case TooPrecise(_) => Some(invalid)
    case Amount(n) => if n < 0 then Some(negative) else None
  }

  /** What is checked once the row has taken its place. */
  function AmountProblem(p: Product, mode: Mode, r: Row): Option<Problem> {
    if mode == MinimumMode then CellProblem(r.minimum, Some(MinimumMissing), MinimumInvalid, MinimumNegative)
    else
      var quantity := CellProblem(r.quantity, Some(QuantityMissing), QuantityInvalid, QuantityNegative);
      var cost := CellProblem(r.unitCost, None, CostInvalid, CostNegative);
      if quantity.Some? then quantity
      else if cost.Some? then cost
      else if !p.stocked then Some(NotStocked)
      else None
  }

  // ---- One row ----

  /** Zero costs fall through to the average, and a zero average to the purchase price. */
  function CostFor(l: Ledger, r: Row, item: Item): int {
    if r.unitCost.Amount? && r.unitCost.amount != 0 then r.unitCost.amount
    else if AverageOf(l.averages, item) != 0 then AverageOf(l.averages, item)
    else if item in l.prices then l.prices[item] else 0
  }

  /** The movement of an accepted row, if it needs one. */
  function MovementFor(l: Ledger, mode: Mode, warehouse: nat, r: Row, item: Item): Option<Entry>
    requires r.quantity.Amount?
  {
    var key, q, cost := Key(warehouse, item), r.quantity.amount, CostFor(l, r, item) as real;
    match mode
    case AddMode => if q > 0 then Some(Entry(key, AdjustIn, q as real, cost, Direct, true)) else None
    case OpeningMode => if q > 0 then Some(Entry(key, Opening, q as real, cost, Direct, true)) else None
    case ReplaceMode =>
      var delta := q - Level(l.levels, key);
      if delta != 0 then Some(Entry(key, CountCorrection, delta as real, cost, Direct, false)) else None
    case _ => None
  }

  /** Beside a quantity the minimum is taken as it comes; text counts as zero. */
  function WithMinimum(reorder: map<nat, int>, product: nat, c: Cell): map<nat, int> {
    match c
    case Blank => reorder
    case NotANumber => reorder[product := 0]
    case TooPrecise(stored) => reorder[product := stored]
    case Amount(n) => reorder[product := n]
  }

  function Fail(p: Progress, row: nat, problem: Problem): Progress {
    p.(failed := p.failed + 1, errors := p.errors + [Error(row, problem)])
  }

  ghost function ApplyRow(p: Progress, mode: Mode, warehouse: nat, row: nat, r: Row, item: Item): Progress
    requires item.product in p.ledger.catalogue
  {
    var problem := AmountProblem(p.ledger.catalogue[item.product], mode, r);
    if problem.Some? then Fail(p, row, problem.value)
    else if mode == MinimumMode then p.(reorder := p.reorder[item.product := r.minimum.amount], updated := p.updated + 1)
    else
      var accepted := p.(reorder := WithMinimum(p.reorder, item.product, r.minimum), imported := p.imported + 1);
      match MovementFor(p.ledger, mode, warehouse, r, item)
      case None => accepted
      case Some(e) =>
        match RecordEntry(p.ledger, e)
        case Refused(why) => Fail(p, row, Refusal(why))
        case Recorded(l) => accepted.(ledger := l)
  }

  ghost function ImportRow(p: Progress, mode: Mode, warehouse: nat, row: nat, r: Row): Progress {
    var item := ItemOf(r);
    var problem := ItemProblem(p.ledger.catalogue, mode, r, item);
    if problem.Some? then Fail(p, row, problem.value)
    else if item.value in p.seen then Fail(p, row, Duplicate)
    else ApplyRow(p.(seen := p.seen + {item.value}), mode, warehouse, row, r, item.value)
  }

  /** Row numbers start at 2, below the heading. */
  ghost function ImportRows(p: Progress, mode: Mode, warehouse: nat, rows: seq<Row>): Progress {
    if rows == [] then p
    else ImportRow(ImportRows(p, mode, warehouse, rows[..|rows| - 1]), mode, warehouse, |rows| + 1, rows[|rows| - 1])
  }

  function Start(l: Ledger, reorder: map<nat, int>): Progress {
    Progress(l, reorder, {}, 0, 0, 0, [])
  }

  // ---- The tables ----

  datatype Summary = Summary(imported: nat, updated: nat, skipped: nat, failed: nat)

  class ImportTables {
    const stock: StockTables
    var reorder: map<nat, int>

    constructor (stock: StockTables)
      ensures this.stock == stock && reorder == map[]
    {
      this.stock := stock;
      reorder := map[];
    }

    /** One row, once its item is known and new in the file. */
    method ApplyImportRow(mode: Mode, warehouse: nat, r: Row, item: Item, ghost p: Progress, ghost row: nat) returns (problem: Option<Problem>)
      requires item.product in stock.catalogue && p.ledger == stock.State() && p.reorder == reorder
      modifies this, stock
      ensures RowOutcome(p, ApplyRow(p, mode, warehouse, row, r, item), mode, row, problem, stock.State(), reorder)
    {
      hide CostFor, Record;
      problem := AmountProblem(stock.catalogue[item.product], mode, r);
      if problem.Some? {
        return;
      }
      if mode == MinimumMode {
        reorder := reorder[item.product := r.minimum.amount];
        return;
      }
      var e := MovementFor(stock.State(), mode, warehouse, r, item);
      if e.Some? {
        var refusal := stock.RecordMovement(e.value.key, e.value.kind, e.value.quantity, e.value.unitCost, e.value.reference, e.value.enforce);
        if refusal.Some? {
          return Some(Refusal(refusal.value));
        }
      }
      reorder := WithMinimum(reorder, item.product, r.minimum);
    }

    /** Resolves, screens and applies one row; `seen` holds the items that have taken their place. */
    method ImportOneRow(mode: Mode, warehouse: nat, r: Row, seen: set<Item>, ghost p: Progress, ghost row: nat) returns (problem: Option<Problem>, seen': set<Item>)
      requires p.ledger == stock.State() && p.reorder == reorder && p.seen == seen
      modifies this, stock
      ensures RowOutcome(p.(seen := seen'), ImportRow(p, mode, warehouse, row, r), mode, row, problem, stock.State(), reorder)
    {
      hide ApplyRow, ItemProblem, Agree;
      seen' := seen;
      var item := Resolve(r.identifiers);
      assert item == ItemOf(r) by {
        ResolvedItem(r, item);
      }
      problem := ItemProblem(stock.catalogue, mode, r, item);
      if problem.None? {
        KnownItem(stock.catalogue, mode, r, item);
        if item.value in seen {
          problem := Some(Duplicate);
        } else {
          seen' := seen + {item.value};
          problem := ApplyImportRow(mode, warehouse, r, item.value, p.(seen := seen'), row);
        }
      }
    }

    method ImportInventory(mode: Mode, warehouse: nat, rows: seq<Row>) returns (result: Option<(Summary, seq<Error>)>)
      modifies this, stock
      ensures mode == UnknownMode ==> result.None? && stock.State() == old(stock.State()) && reorder == old(reorder)
      ensures mode != UnknownMode ==>
                var p := ImportRows(Start(old(stock.State()), old(reorder)), mode, warehouse, rows);
                && result == Some((Summary(p.imported, p.updated, 0, p.failed), p.errors))
                && stock.State() == p.ledger && reorder == p.reorder
    {
      if mode == UnknownMode {
        return None;
      }
      hide ImportRow;
      ghost var start := Start(stock.State(), reorder);
      var seen: set<Item> := {};
      var imported: nat, updated: nat, failed: nat, errors, i := 0, 0, 0, [], 0;
      while i < |rows|
        invariant 0 <= i <= |rows|
        invariant ImportRows(start, mode, warehouse, rows[..i]) == Progress(stock.State(), reorder, seen, imported, updated, failed, errors)
      {
        ghost var p := Progress(stock.State(), reorder, seen, imported, updated, failed, errors);
        assert rows[..i + 1][..i] == rows[..i];
        var problem;
        problem, seen := ImportOneRow(mode, warehouse, rows[i], seen, p, i + 2);
        if problem.Some? {
          errors := errors + [Error(i + 2, problem.value)];
          failed := failed + 1;
        } else if mode == MinimumMode {
          updated := updated + 1;
        } else {
          imported := imported + 1;
        }
        i := i + 1;
      }
      assert rows[..i] == rows;
      return Some((Summary(imported, updated, 0, failed), errors));
    }
  }

  ghost predicate RowOutcome(p: Progress, after: Progress, mode: Mode, row: nat, problem: Option<Problem>, ledger: Ledger, reorder: map<nat, int>) {
    && ledger == after.ledger && reorder == after.reorder
    && after == if problem.Some? then Fail(p, row, problem.value)
                else if mode == MinimumMode then p.(ledger := ledger, reorder := reorder, updated := p.updated + 1)
                else p.(ledger := ledger, reorder := reorder, imported := p.imported + 1)
  }

  lemma ResolvedItem(r: Row, item: Option<Item>)
    requires item.Some? ==> Agree(r.identifiers, item.value)
    requires item.None? ==> forall i :: !Agree(r.identifiers, i)
    ensures item == ItemOf(r)
  {
    if item.Some? {
      AgreementIsUnique(r.identifiers, item.value, ItemOf(r).value);
    }
  }

  lemma KnownItem(catalogue: map<nat, Product>, mode: Mode, r: Row, item: Option<Item>)
    requires ItemProblem(catalogue, mode, r, item).None?
    ensures item.Some? && item.value.product in catalogue
  {
  }
}
