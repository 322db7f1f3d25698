/** Which rows of an import are taken, what each writes to the ledger, and which minimum stock levels remain. */
module ImportRules {
  import opened Options
  import opened AverageCost
  import opened StockLedger
  import opened InventoryImport
  import opened ImportGuarantees

  /** The cell holds an amount of at most three decimals that is not negative. */
  predicate Proper(c: Cell) {
    c.Amount? && c.amount >= 0
  }

  /** A row takes its place exactly if it names the chosen warehouse and, unanimously, a known item allowed for the mode. */
  lemma ScreeningExactly(catalogue: map<nat, Product>, mode: Mode, r: Row)
    ensures Screened(catalogue, mode, r) <==>
            && r.here && r.identifiers != []
            && exists item :: Agree(r.identifiers, item) && item.product in catalogue
                 && (item.variant.Some? ==> item.variant.value in catalogue[item.product].variants)
                 && !(catalogue[item.product].meterTailoring && catalogue[item.product].hasVariants && item.variant.None?)
                 && (catalogue[item.product].meterTailoring ==> r.minimum == Blank)
                 && !(catalogue[item.product].meterTailoring && item.variant.None? && mode == OpeningMode)
  {
    hide Agree;
    if item :| Agree(r.identifiers, item) {
      forall other | Agree(r.identifiers, other)
        ensures other == item
      {
        AgreementIsUnique(r.identifiers, item, other);
      }
    }
  }

  /** The row is turned down for this reason and leaves everything else as it was. */
  ghost predicate TurnedDown(p: Progress, p': Progress, row: nat, problem: Problem) {
    p' == p.(failed := p.failed + 1, errors := p.errors + [Error(row, problem)])
  }

  /** Each reason to turn a row down before its amounts are looked at, tried in this order. */
  lemma ReasonsExactly(p: Progress, mode: Mode, warehouse: nat, row: nat, r: Row)
    ensures var p' := ImportRow(p, mode, warehouse, row, r);
            && (!r.here ==> TurnedDown(p, p', row, WrongContext))
            && (r.here && r.identifiers == [] ==> TurnedDown(p, p', row, NoIdentifier))
            && (r.here && r.identifiers != [] && (forall item :: Agree(r.identifiers, item) ==> item.product !in p.ledger.catalogue) ==>
                  TurnedDown(p, p', row, Unresolved))
  {
    hide Agree, ApplyRow;
  }

  /** The same for the reasons that depend on the item the identifiers agree on; an item comes once in a file. */
  lemma ItemReasonsExactly(p: Progress, mode: Mode, warehouse: nat, row: nat, r: Row, item: Item)
    requires r.here && r.identifiers != [] && Agree(r.identifiers, item) && item.product in p.ledger.catalogue
    ensures var p' := ImportRow(p, mode, warehouse, row, r);
            var product := p.ledger.catalogue[item.product];
            var meter := product.meterTailoring;
            var ownVariant := item.variant.Some? ==> item.variant.value in product.variants;
            var parent := meter && product.hasVariants && item.variant.None?;
            && (!ownVariant ==> TurnedDown(p, p', row, WrongVariant))
            && (parent ==> TurnedDown(p, p', row, VariantRequired))
            && (ownVariant && !parent && meter && r.minimum != Blank ==> TurnedDown(p, p', row, MinimumNotForMeter))
            && (ownVariant && !parent && meter && r.minimum == Blank && item.variant.None? && mode == OpeningMode ==> TurnedDown(p, p', row, MeterOpening))
            && (ownVariant && !parent && (meter ==> r.minimum == Blank && (item.variant.Some? || mode != OpeningMode)) && item in p.seen ==>
                  TurnedDown(p, p', row, Duplicate))
  {
    AgreedItem(r, item);
    hide Agree, ApplyRow, ItemOf;
  }

  lemma AgreedItem(r: Row, item: Item)
    requires Agree(r.identifiers, item)
    ensures ItemOf(r) == Some(item)
  {
    forall other | Agree(r.identifiers, other)
      ensures other == item
    {
      AgreementIsUnique(r.identifiers, item, other);
    }
  }

  /** Of the amounts the quantity is looked at first, then the cost, then whether the product is stocked; in minimum mode the minimum alone. */
  lemma AmountReasonsExactly(p: Progress, mode: Mode, warehouse: nat, row: nat, r: Row, item: Item)
    requires item.product in p.ledger.catalogue
    ensures var p' := ApplyRow(p, mode, warehouse, row, r, item);
            var unread := (c: Cell) => c.NotANumber? || c.TooPrecise?;
            var negative := (c: Cell) => c.Amount? && c.amount < 0;
            if mode == MinimumMode then
              && (r.minimum == Blank ==> TurnedDown(p, p', row, MinimumMissing))
              && (unread(r.minimum) ==> TurnedDown(p, p', row, MinimumInvalid))
              && (negative(r.minimum) ==> TurnedDown(p, p', row, MinimumNegative))
            else
              && (r.quantity == Blank ==> TurnedDown(p, p', row, QuantityMissing))
              && (unread(r.quantity) ==> TurnedDown(p, p', row, QuantityInvalid))
              && (negative(r.quantity) ==> TurnedDown(p, p', row, QuantityNegative))
              && (Proper(r.quantity) && unread(r.unitCost) ==> TurnedDown(p, p', row, CostInvalid))
              && (Proper(r.quantity) && negative(r.unitCost) ==> TurnedDown(p, p', row, CostNegative))
              && (Proper(r.quantity) && (r.unitCost == Blank || Proper(r.unitCost)) && !p.ledger.catalogue[item.product].stocked ==>
                    TurnedDown(p, p', row, NotStocked))
  {
  }

  /** Its amounts are accepted exactly if they are proper, an optional cost is blank or proper, and the product is stocked. */
  lemma AmountsExactly(p: Product, mode: Mode, r: Row)
    ensures AmountProblem(p, mode, r).None? <==>
            if mode == MinimumMode then Proper(r.minimum)
            else Proper(r.quantity) && (r.unitCost == Blank || Proper(r.unitCost)) && p.stocked
  {
  }

  /** How much an accepted row moves: what is missing to its goal. */
  function Change(mode: Mode, held: int, quantity: Cell): int {
    match mode
    case MinimumMode => 0
    case ReplaceMode => if quantity.Amount? then quantity.amount - held else 0
    case _ => if quantity.Amount? then quantity.amount else 0
  }

  predicate KindOf(mode: Mode, kind: Kind) {
    (mode == ReplaceMode && kind == CountCorrection) || (mode == OpeningMode && kind == Opening) || (mode == AddMode && kind == AdjustIn)
  }

  /** The cost given, else the average, else the purchase price; zero counts as not given. */
  predicate IsCost(l: Ledger, r: Row, item: Item, cost: int) {
    if r.unitCost.Amount? && r.unitCost.amount != 0 then cost == r.unitCost.amount
    else if item in l.averages && l.averages[item] != 0 then cost == l.averages[item]
    else cost == if item in l.prices then l.prices[item] else 0
  }

  /** An accepted row appends one movement of the mode's kind for what it changes, or none if it changes nothing. */
  lemma AcceptedRowMovesExactly(p: Progress, mode: Mode, warehouse: nat, row: nat, r: Row)
    requires mode != UnknownMode && RowAccepted(p, mode, r)
    ensures var p' := ImportRow(p, mode, warehouse, row, r);
            var item := ItemOf(r).value;
            var held := Level(p.ledger.levels, Key(warehouse, item));
            var change := Change(mode, held, r.quantity);
            if change == 0 then p'.ledger.movements == p.ledger.movements
            else
              && |p'.ledger.movements| == |p.ledger.movements| + 1 && p.ledger.movements <= p'.ledger.movements
              && var m := p'.ledger.movements[|p.ledger.movements|];
              && m.key == Key(warehouse, item) && m.quantity == change && m.balanceAfter == held + change && m.reference == Direct
              && KindOf(mode, m.kind) && IsCost(p.ledger, r, item, m.unitCost)
  {
    var item := ItemOf(r).value;
    ScreenedItem(p.ledger.catalogue, mode, r);
    if mode != MinimumMode {
      ScreenedMovementIsRecorded(p.ledger, mode, warehouse, r);
      hide ItemProblem, AmountProblem, Agree, TotalStock, NewAverage, Screen;
      RoundKeepsGrid(r.quantity.amount);
      RoundKeepsGrid(r.quantity.amount - Level(p.ledger.levels, Key(warehouse, item)));
      RoundKeepsGrid(CostFor(p.ledger, r, item));
      hide Round;
    } else {
      hide ItemProblem, AmountProblem, Agree;
    }
  }

  // ---- Minimum stock levels ----

  /** What a cell beside a quantity makes of the minimum: nothing if blank, zero if it is no number. */
  predicate Leaves(c: Cell, before: Option<int>, after: Option<int>) {
    match c
    case Blank => after == before
    case NotANumber => after == Some(0)
    case TooPrecise(stored) => after == Some(stored)
    case Amount(n) => after == Some(n)
  }

  function Minimum(reorder: map<nat, int>, product: nat): Option<int> {
    if product in reorder then Some(reorder[product]) else None
  }

  lemma AcceptedRowSetsMinimum(p: Progress, mode: Mode, warehouse: nat, row: nat, r: Row, product: nat)
    requires mode != UnknownMode && RowAccepted(p, mode, r)
    ensures var p' := ImportRow(p, mode, warehouse, row, r);
            if product == ItemOf(r).value.product then Leaves(r.minimum, Minimum(p.reorder, product), Minimum(p'.reorder, product))
            else Minimum(p'.reorder, product) == Minimum(p.reorder, product)
  {
    ScreenedItem(p.ledger.catalogue, mode, r);
    if mode != MinimumMode {
      ScreenedMovementIsRecorded(p.ledger, mode, warehouse, r);
      hide ItemProblem, AmountProblem, Agree, RecordEntry, MovementFor;
    } else {
      MinimumIsGiven(p.ledger.catalogue[ItemOf(r).value.product], r);
      hide ItemProblem, AmountProblem, Agree;
    }
  }

  /** Row `i` is the last accepted one of the file that says something about the product's minimum. */
  ghost predicate DecidesMinimum(catalogue: map<nat, Product>, mode: Mode, rows: seq<Row>, product: nat, i: nat) {
    && SaysMinimum(catalogue, mode, rows, product, i)
    && forall j: nat :: i < j < |rows| ==> !SaysMinimum(catalogue, mode, rows, product, j)
  }

  ghost predicate SaysMinimum(catalogue: map<nat, Product>, mode: Mode, rows: seq<Row>, product: nat, i: nat) {
    i < |rows| && Accepted(catalogue, mode, rows, i) && ItemOf(rows[i]).value.product == product && rows[i].minimum != Blank
  }

  ghost predicate MinimumReached(before: map<nat, int>, after: map<nat, int>, catalogue: map<nat, Product>, mode: Mode, rows: seq<Row>, product: nat) {
    && (forall i: nat :: DecidesMinimum(catalogue, mode, rows, product, i) ==> Leaves(rows[i].minimum, None, Minimum(after, product)))
    && ((forall i: nat :: !SaysMinimum(catalogue, mode, rows, product, i)) ==> Minimum(after, product) == Minimum(before, product))
  }

  lemma SaysEarlier(catalogue: map<nat, Product>, mode: Mode, rows: seq<Row>, product: nat, i: nat)
    requires rows != []
    ensures SaysMinimum(catalogue, mode, rows[..|rows| - 1], product, i) <==> i < |rows| - 1 && SaysMinimum(catalogue, mode, rows, product, i)
  {
    hide Accepted, ItemOf;
    if i < |rows| - 1 {
      EarlierRowsDecide(catalogue, mode, rows, |rows| - 1, i);
    }
  }

  lemma MinimumGrows(before: map<nat, int>, p: Progress, p': Progress, catalogue: map<nat, Product>, mode: Mode, rows: seq<Row>, product: nat)
    requires rows != [] && MinimumReached(before, p.reorder, catalogue, mode, rows[..|rows| - 1], product)
    requires if SaysMinimum(catalogue, mode, rows, product, |rows| - 1) then Leaves(rows[|rows| - 1].minimum, None, Minimum(p'.reorder, product))
             else Minimum(p'.reorder, product) == Minimum(p.reorder, product)
    ensures MinimumReached(before, p'.reorder, catalogue, mode, rows, product)
  {
    hide SaysMinimum, Leaves, Minimum;
    var n := |rows| - 1;
    forall i: nat
      ensures SaysMinimum(catalogue, mode, rows[..n], product, i) <==> i < n && SaysMinimum(catalogue, mode, rows, product, i)
      ensures SaysMinimum(catalogue, mode, rows, product, i) ==> i <= n
    {
      SaysEarlier(catalogue, mode, rows, product, i);
      SaysInFile(catalogue, mode, rows, product, i);
    }
    forall i: nat | DecidesMinimum(catalogue, mode, rows, product, i)
      ensures Leaves(rows[i].minimum, None, Minimum(p'.reorder, product))
    {
      if i < n {
        assert !SaysMinimum(catalogue, mode, rows, product, n);
        assert DecidesMinimum(catalogue, mode, rows[..n], product, i);
        assert rows[..n][i] == rows[i];
      }
    }
  }

  lemma SaysInFile(catalogue: map<nat, Product>, mode: Mode, rows: seq<Row>, product: nat, i: nat)
    ensures SaysMinimum(catalogue, mode, rows, product, i) ==> i < |rows|
  {
  }

  lemma LastRowSetsMinimum(p: Progress, mode: Mode, warehouse: nat, rows: seq<Row>, product: nat)
    requires mode != UnknownMode && rows != []
    requires RowAccepted(p, mode, rows[|rows| - 1]) == Accepted(p.ledger.catalogue, mode, rows, |rows| - 1)
    ensures var p' := ImportRow(p, mode, warehouse, |rows| + 1, rows[|rows| - 1]);
            if SaysMinimum(p.ledger.catalogue, mode, rows, product, |rows| - 1) then Leaves(rows[|rows| - 1].minimum, None, Minimum(p'.reorder, product))
            else Minimum(p'.reorder, product) == Minimum(p.reorder, product)
  {
    var r := rows[|rows| - 1];
    RowHasItsEffect(p, mode, warehouse, |rows| + 1, r);
    if RowAccepted(p, mode, r) {
      AcceptedRowSetsMinimum(p, mode, warehouse, |rows| + 1, r, product);
    }
    hide ImportRow, ItemOf, Screened, AmountProblem;
  }

  /** A product's minimum ends as the last accepted row that gives one says, and unchanged if none does. */
  lemma {:induction false} ImportSetsMinimumsExactly(l: Ledger, reorder: map<nat, int>, mode: Mode, warehouse: nat, rows: seq<Row>, product: nat)
    requires mode != UnknownMode
    ensures MinimumReached(reorder, ImportRows(Start(l, reorder), mode, warehouse, rows).reorder, l.catalogue, mode, rows, product)
  {
    if rows == [] {
    } else {
      var n := |rows| - 1;
      ImportSetsMinimumsExactly(l, reorder, mode, warehouse, rows[..n], product);
      ImportReachesEveryGoal(l, reorder, mode, warehouse, rows[..n]);
      hide ImportRow, SeenExactly, ErrorsExactly, LevelsReached, RowAccepted, Accepted, ItemOf, SaysMinimum, MinimumReached, Leaves, Minimum;
      var p, p' := ImportRows(Start(l, reorder), mode, warehouse, rows[..n]), ImportRows(Start(l, reorder), mode, warehouse, rows);
      LastRowAccepted(p, mode, rows);
      LastRowSetsMinimum(p, mode, warehouse, rows, product);
      MinimumGrows(reorder, p, p', l.catalogue, mode, rows, product);
    }
  }
}
