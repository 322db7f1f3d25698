/** What a bulk import promises about every row of the file. */
module ImportGuarantees {
  import opened Options
  import opened AverageCost
  import opened StockLedger
  import opened InventoryImport

  /** The row takes its place in the file: its item is found and allowed. */
  ghost predicate Screened(catalogue: map<nat, Product>, mode: Mode, r: Row) {
    ItemProblem(catalogue, mode, r, ItemOf(r)).None?
  }

  /** No earlier row took the same item, even one whose amounts were then rejected. */
  ghost predicate Takes(catalogue: map<nat, Product>, mode: Mode, rows: seq<Row>, i: nat)
    requires i < |rows|
  {
    && Screened(catalogue, mode, rows[i])
    && forall j :: 0 <= j < i && Screened(catalogue, mode, rows[j]) ==> ItemOf(rows[j]) != ItemOf(rows[i])
  }

  ghost predicate Accepted(catalogue: map<nat, Product>, mode: Mode, rows: seq<Row>, i: nat)
    requires i < |rows|
  {
    && Takes(catalogue, mode, rows, i)
    && ItemOf(rows[i]).Some? && ItemOf(rows[i]).value.product in catalogue
    && AmountProblem(catalogue[ItemOf(rows[i]).value.product], mode, rows[i]).None?
  }

  /** Where an accepted row leaves its level. */
  function Goal(mode: Mode, held: int, quantity: Cell): int {
    if mode == MinimumMode || !quantity.Amount? then held
    else if mode == ReplaceMode then quantity.amount
    else held + quantity.amount
  }

  /** The key of an accepted row. */
  ghost predicate Applied(catalogue: map<nat, Product>, mode: Mode, warehouse: nat, rows: seq<Row>, i: nat, k: Key) {
    i < |rows| && Accepted(catalogue, mode, rows, i) && k == Key(warehouse, ItemOf(rows[i]).value)
  }

  ghost predicate LevelsReached(l: Ledger, l': Ledger, mode: Mode, warehouse: nat, rows: seq<Row>) {
    && (forall i: nat, k: Key :: Applied(l.catalogue, mode, warehouse, rows, i, k) ==> Level(l'.levels, k) == Goal(mode, Level(l.levels, k), rows[i].quantity))
    && (forall k: Key :: (forall i: nat :: !Applied(l.catalogue, mode, warehouse, rows, i, k)) ==> Level(l'.levels, k) == Level(l.levels, k))
  }

  ghost predicate SeenExactly(seen: set<Item>, catalogue: map<nat, Product>, mode: Mode, rows: seq<Row>) {
    && (forall i :: 0 <= i < |rows| && Screened(catalogue, mode, rows[i]) ==> ItemOf(rows[i]).Some? && ItemOf(rows[i]).value in seen)
    && (forall x :: x in seen ==> exists i :: 0 <= i < |rows| && Screened(catalogue, mode, rows[i]) && ItemOf(rows[i]) == Some(x))
  }

  /** One error for each row that is not accepted, in file order. */
  ghost predicate ErrorsExactly(errors: seq<Error>, catalogue: map<nat, Product>, mode: Mode, rows: seq<Row>) {
    InFileOrder(errors) && OnlyRejected(errors, catalogue, mode, rows) && AllRejected(errors, catalogue, mode, rows)
  }

  predicate InFileOrder(errors: seq<Error>) {
    forall i, j :: 0 <= i < j < |errors| ==> errors[i].row < errors[j].row
  }

  ghost predicate OnlyRejected(errors: seq<Error>, catalogue: map<nat, Product>, mode: Mode, rows: seq<Row>) {
    forall i :: 0 <= i < |errors| ==> 2 <= errors[i].row < |rows| + 2 && !Accepted(catalogue, mode, rows, errors[i].row - 2)
  }

  ghost predicate AllRejected(errors: seq<Error>, catalogue: map<nat, Product>, mode: Mode, rows: seq<Row>) {
    forall i :: 0 <= i < |rows| && !Accepted(catalogue, mode, rows, i) ==> HasError(errors, i + 2)
  }

  predicate HasError(errors: seq<Error>, row: nat) {
    exists e :: 0 <= e < |errors| && errors[e].row == row
  }

  lemma ErrorsAreKept(errors: seq<Error>, more: seq<Error>)
    requires errors <= more
    ensures forall row :: HasError(errors, row) ==> HasError(more, row)
    ensures forall e :: 0 <= e < |more| ==> HasError(more, more[e].row)
  {
    forall row | HasError(errors, row)
      ensures HasError(more, row)
    {
      var e :| 0 <= e < |errors| && errors[e].row == row;
      assert more[e].row == row;
    }
  }

  // ---- One row ----

  /** The ledger never refuses what the screening let through. */
  lemma ScreenedMovementIsRecorded(l: Ledger, mode: Mode, warehouse: nat, r: Row)
    requires mode != MinimumMode && mode != UnknownMode
    requires Screened(l.catalogue, mode, r) && ItemOf(r).Some? && ItemOf(r).value.product in l.catalogue
    requires AmountProblem(l.catalogue[ItemOf(r).value.product], mode, r).None?
    ensures r.quantity.Amount? && r.quantity.amount >= 0
    ensures var key, e := Key(warehouse, ItemOf(r).value), MovementFor(l, mode, warehouse, r, ItemOf(r).value);
            if e.None? then Level(l.levels, key) == Goal(mode, Level(l.levels, key), r.quantity)
            else
              && RecordEntry(l, e.value).Recorded?
              && RecordEntry(l, e.value).ledger.levels == l.levels[key := Goal(mode, Level(l.levels, key), r.quantity)]
              && RecordEntry(l, e.value).ledger.catalogue == l.catalogue
  {
    hide CostFor, Agree, NewAverage, TotalStock;
    var key := Key(warehouse, ItemOf(r).value);
    RoundKeepsGrid(r.quantity.amount);
    RoundKeepsGrid(r.quantity.amount - Level(l.levels, key));
  }

  ghost predicate RowAccepted(p: Progress, mode: Mode, r: Row) {
    && Screened(p.ledger.catalogue, mode, r) && ItemOf(r).Some? && ItemOf(r).value.product in p.ledger.catalogue
    && ItemOf(r).value !in p.seen && AmountProblem(p.ledger.catalogue[ItemOf(r).value.product], mode, r).None?
  }

  lemma ScreenedItem(catalogue: map<nat, Product>, mode: Mode, r: Row)
    requires Screened(catalogue, mode, r)
    ensures ItemOf(r).Some? && ItemOf(r).value.product in catalogue
  {
  }

  ghost predicate RowEffect(p: Progress, p': Progress, mode: Mode, warehouse: nat, row: nat, r: Row) {
    && p'.ledger.catalogue == p.ledger.catalogue
    && p'.seen == p.seen + (if Screened(p.ledger.catalogue, mode, r) && ItemOf(r).Some? then {ItemOf(r).value} else {})
    && if RowAccepted(p, mode, r) then
         && p'.failed == p.failed && p'.errors == p.errors && p'.imported == p.imported + (if mode == MinimumMode then 0 else 1)
         && p'.updated == p.updated + (if mode == MinimumMode then 1 else 0)
         && forall k: Key :: Level(p'.ledger.levels, k) ==
              if k == Key(warehouse, ItemOf(r).value) then Goal(mode, Level(p.ledger.levels, k), r.quantity) else Level(p.ledger.levels, k)
       else
         && p'.ledger == p.ledger && p'.reorder == p.reorder && p'.failed == p.failed + 1
         && p'.imported == p.imported && p'.updated == p.updated
         && |p'.errors| == |p.errors| + 1 && p.errors <= p'.errors && p'.errors[|p.errors|].row == row
  }

  lemma RowHasItsEffect(p: Progress, mode: Mode, warehouse: nat, row: nat, r: Row)
    requires mode != UnknownMode
    ensures RowEffect(p, ImportRow(p, mode, warehouse, row, r), mode, warehouse, row, r)
  {
    hide ItemProblem, AmountProblem, MovementFor, RecordEntry, Agree, Level;
    var item, c := ItemOf(r), p.ledger.catalogue;
    if Screened(c, mode, r) {
      ScreenedItem(c, mode, r);
      if item.value !in p.seen && AmountProblem(c[item.value.product], mode, r).None? {
        if mode == MinimumMode {
          MinimumIsGiven(c[item.value.product], r);
        } else {
          ScreenedMovementIsRecorded(p.ledger, mode, warehouse, r);
          LevelsAfterWrite(p.ledger.levels, Key(warehouse, item.value), Goal(mode, Level(p.ledger.levels, Key(warehouse, item.value)), r.quantity));
        }
      }
    }
  }

  lemma LevelsAfterWrite(levels: map<Key, int>, key: Key, quantity: int)
    ensures forall k: Key :: Level(levels[key := quantity], k) == if k == key then quantity else Level(levels, k)
  {
    forall k: Key
      ensures Level(levels[key := quantity], k) == if k == key then quantity else Level(levels, k)
    {
    }
  }

  lemma MinimumIsGiven(p: Product, r: Row)
    requires AmountProblem(p, MinimumMode, r).None?
    ensures r.minimum.Amount? && r.minimum.amount >= 0
  {
  }

  // ---- The file ----

  lemma EarlierRowsDecide(catalogue: map<nat, Product>, mode: Mode, rows: seq<Row>, n: nat, i: nat)
    requires i < n <= |rows|
    ensures Accepted(catalogue, mode, rows[..n], i) == Accepted(catalogue, mode, rows, i)
  {
    hide Screened, ItemOf, AmountProblem;
    assert forall j :: 0 <= j < n ==> rows[..n][j] == rows[j];
  }

  /** With the places taken so far, the last row is accepted exactly when the file says so. */
  lemma LastRowAccepted(p: Progress, mode: Mode, rows: seq<Row>)
    requires rows != [] && SeenExactly(p.seen, p.ledger.catalogue, mode, rows[..|rows| - 1])
    ensures RowAccepted(p, mode, rows[|rows| - 1]) == Accepted(p.ledger.catalogue, mode, rows, |rows| - 1)
  {
    hide AmountProblem, Screened, ItemOf;
    var n := |rows| - 1;
    assert forall j :: 0 <= j < n ==> rows[..n][j] == rows[j];
  }

  lemma SeenGrows(p: Progress, p': Progress, mode: Mode, warehouse: nat, rows: seq<Row>)
    requires rows != [] && SeenExactly(p.seen, p.ledger.catalogue, mode, rows[..|rows| - 1])
    requires RowEffect(p, p', mode, warehouse, |rows| + 1, rows[|rows| - 1])
    ensures SeenExactly(p'.seen, p.ledger.catalogue, mode, rows)
  {
    hide ItemOf, RowAccepted, Goal, Level;
    var n := |rows| - 1;
    assert forall j :: 0 <= j < n ==> rows[..n][j] == rows[j];
    if Screened(p.ledger.catalogue, mode, rows[n]) {
      ScreenedItem(p.ledger.catalogue, mode, rows[n]);
    }
    hide Screened;
  }

  /** `errors'` adds an error for the last row if that row is rejected, and nothing otherwise. */
  ghost predicate Reports(errors: seq<Error>, errors': seq<Error>, catalogue: map<nat, Product>, mode: Mode, rows: seq<Row>)
    requires rows != []
  {
    if Accepted(catalogue, mode, rows, |rows| - 1) then errors' == errors
    else |errors'| == |errors| + 1 && errors <= errors' && errors'[|errors|].row == |rows| + 1
  }

  lemma OnlyRejectedGrows(errors: seq<Error>, errors': seq<Error>, catalogue: map<nat, Product>, mode: Mode, rows: seq<Row>)
    requires rows != [] && Reports(errors, errors', catalogue, mode, rows)
    requires InFileOrder(errors) && OnlyRejected(errors, catalogue, mode, rows[..|rows| - 1])
    ensures InFileOrder(errors') && OnlyRejected(errors', catalogue, mode, rows)
  {
    hide Accepted;
    forall i | 0 <= i < |errors'|
      ensures 2 <= errors'[i].row < |rows| + 2 && !Accepted(catalogue, mode, rows, errors'[i].row - 2)
    {
      if i < |errors| {
        assert errors'[i] == errors[i];
        EarlierRowsDecide(catalogue, mode, rows, |rows| - 1, errors[i].row - 2);
      }
    }
  }

  lemma AllRejectedGrows(errors: seq<Error>, errors': seq<Error>, catalogue: map<nat, Product>, mode: Mode, rows: seq<Row>)
    requires rows != [] && Reports(errors, errors', catalogue, mode, rows)
    requires AllRejected(errors, catalogue, mode, rows[..|rows| - 1])
    ensures AllRejected(errors', catalogue, mode, rows)
  {
    hide Accepted, HasError;
    ErrorsAreKept(errors, errors');
    var n := |rows| - 1;
    forall i | 0 <= i < |rows| && !Accepted(catalogue, mode, rows, i)
      ensures HasError(errors', i + 2)
    {
      if i == n {
        assert HasError(errors', errors'[|errors|].row);
      } else {
        EarlierRowsDecide(catalogue, mode, rows, n, i);
      }
    }
  }

  lemma TallyGrows(p: Progress, p': Progress, mode: Mode, warehouse: nat, row: nat, r: Row)
    requires RowEffect(p, p', mode, warehouse, row, r)
    ensures p'.ledger.catalogue == p.ledger.catalogue
    ensures p'.imported + p'.updated + p'.failed == p.imported + p.updated + p.failed + 1
    ensures |p'.errors| - |p.errors| == p'.failed - p.failed
    ensures mode == MinimumMode ==> p'.imported == p.imported
    ensures mode != MinimumMode ==> p'.updated == p.updated
    ensures if RowAccepted(p, mode, r) then p'.errors == p.errors
            else |p'.errors| == |p.errors| + 1 && p.errors <= p'.errors && p'.errors[|p.errors|].row == row
  {
    hide RowAccepted, Screened, ItemOf, Goal, Level;
  }

  lemma LevelsGrow(l: Ledger, p: Progress, p': Progress, mode: Mode, warehouse: nat, rows: seq<Row>)
    requires rows != [] && p.ledger.catalogue == l.catalogue
    requires LevelsReached(l, p.ledger, mode, warehouse, rows[..|rows| - 1])
    requires RowEffect(p, p', mode, warehouse, |rows| + 1, rows[|rows| - 1])
    requires RowAccepted(p, mode, rows[|rows| - 1]) == Accepted(l.catalogue, mode, rows, |rows| - 1)
    ensures LevelsReached(l, p'.ledger, mode, warehouse, rows)
  {
    hide RowEffect, Accepted, RowAccepted, Goal, Level, Applied;
    forall k: Key
      ensures forall i: nat :: Applied(l.catalogue, mode, warehouse, rows, i, k) ==>
                i < |rows| && Level(p'.ledger.levels, k) == Goal(mode, Level(l.levels, k), rows[i].quantity)
      ensures (forall i: nat :: !Applied(l.catalogue, mode, warehouse, rows, i, k)) ==> Level(p'.ledger.levels, k) == Level(l.levels, k)
    {
      KeyReached(l, p, p', mode, warehouse, rows, k);
    }
  }

  /** The rows before the last one that apply to `k`, seen from the whole file. */
  lemma EarlierApplied(catalogue: map<nat, Product>, mode: Mode, warehouse: nat, rows: seq<Row>, k: Key, i: nat)
    requires rows != []
    ensures Applied(catalogue, mode, warehouse, rows[..|rows| - 1], i, k) <==> i < |rows| - 1 && Applied(catalogue, mode, warehouse, rows, i, k)
  {
    hide Accepted, ItemOf;
    if i < |rows| - 1 {
      EarlierRowsDecide(catalogue, mode, rows, |rows| - 1, i);
    }
  }

  lemma KeyReached(l: Ledger, p: Progress, p': Progress, mode: Mode, warehouse: nat, rows: seq<Row>, k: Key)
    requires rows != [] && p.ledger.catalogue == l.catalogue
    requires LevelsReached(l, p.ledger, mode, warehouse, rows[..|rows| - 1])
    requires RowEffect(p, p', mode, warehouse, |rows| + 1, rows[|rows| - 1])
    requires RowAccepted(p, mode, rows[|rows| - 1]) == Accepted(l.catalogue, mode, rows, |rows| - 1)
    ensures forall i: nat :: Applied(l.catalogue, mode, warehouse, rows, i, k) ==>
              i < |rows| && Level(p'.ledger.levels, k) == Goal(mode, Level(l.levels, k), rows[i].quantity)
    ensures (forall i: nat :: !Applied(l.catalogue, mode, warehouse, rows, i, k)) ==> Level(p'.ledger.levels, k) == Level(l.levels, k)
  {
    var n, c := |rows| - 1, l.catalogue;
    var before, after, held := Level(p.ledger.levels, k), Level(p'.ledger.levels, k), Level(l.levels, k);
    assert after == if Applied(c, mode, warehouse, rows, n, k) then Goal(mode, before, rows[n].quantity) else before by {
      hide ItemOf, Screened, Takes, AmountProblem, Goal, Level, LevelsReached;
    }
    hide RowEffect, RowAccepted, Accepted, Goal, Level;
    if Applied(c, mode, warehouse, rows, n, k) {
      forall i: nat
        ensures !Applied(c, mode, warehouse, rows[..n], i, k)
        ensures Applied(c, mode, warehouse, rows, i, k) ==> i == n
      {
        EarlierApplied(c, mode, warehouse, rows, k, i);
        if Applied(c, mode, warehouse, rows, i, k) {
          KeyAppliedOnce(c, mode, warehouse, rows, i, n, k);
        }
      }
      assert before == held;
    } else {
      forall i: nat
        ensures Applied(c, mode, warehouse, rows[..n], i, k) == Applied(c, mode, warehouse, rows, i, k)
        ensures Applied(c, mode, warehouse, rows, i, k) ==> i < n && rows[..n][i] == rows[i]
      {
        EarlierApplied(c, mode, warehouse, rows, k, i);
        AppliedIsInFile(c, mode, warehouse, rows, i, k);
      }
    }
  }

  lemma AppliedIsInFile(catalogue: map<nat, Product>, mode: Mode, warehouse: nat, rows: seq<Row>, i: nat, k: Key)
    ensures Applied(catalogue, mode, warehouse, rows, i, k) ==> i < |rows|
  {
  }

  /** No key is applied by two rows. */
  lemma KeyAppliedOnce(catalogue: map<nat, Product>, mode: Mode, warehouse: nat, rows: seq<Row>, i: nat, j: nat, k: Key)
    requires Applied(catalogue, mode, warehouse, rows, i, k) && Applied(catalogue, mode, warehouse, rows, j, k)
    ensures i == j
  {
  }

  lemma EmptyFile(l: Ledger, reorder: map<nat, int>, mode: Mode, warehouse: nat)
    ensures SeenExactly({}, l.catalogue, mode, []) && ErrorsExactly([], l.catalogue, mode, []) && LevelsReached(l, l, mode, warehouse, [])
  {
  }

  /**
   An import ends with every accepted row's level exactly at its goal and every other level as it was;
   each row is either counted as done or has its one error.
   */
  lemma {:induction false} ImportReachesEveryGoal(l: Ledger, reorder: map<nat, int>, mode: Mode, warehouse: nat, rows: seq<Row>)
    requires mode != UnknownMode
    ensures var p := ImportRows(Start(l, reorder), mode, warehouse, rows);
            && p.ledger.catalogue == l.catalogue
            && p.imported + p.updated + p.failed == |rows| && |p.errors| == p.failed
            && (mode == MinimumMode ==> p.imported == 0) && (mode != MinimumMode ==> p.updated == 0)
            && SeenExactly(p.seen, l.catalogue, mode, rows)
            && ErrorsExactly(p.errors, l.catalogue, mode, rows)
            && LevelsReached(l, p.ledger, mode, warehouse, rows)
  {
    hide ImportRow, SeenExactly, InFileOrder, OnlyRejected, AllRejected, LevelsReached, RowAccepted, Accepted, RowEffect, ItemOf;
    if rows == [] {
      EmptyFile(l, reorder, mode, warehouse);
    } else {
      var n := |rows| - 1;
      ImportReachesEveryGoal(l, reorder, mode, warehouse, rows[..n]);
      var p, p' := ImportRows(Start(l, reorder), mode, warehouse, rows[..n]), ImportRows(Start(l, reorder), mode, warehouse, rows);
      RowHasItsEffect(p, mode, warehouse, |rows| + 1, rows[n]);
      LastRowAccepted(p, mode, rows);
      SeenGrows(p, p', mode, warehouse, rows);
      TallyGrows(p, p', mode, warehouse, |rows| + 1, rows[n]);
      OnlyRejectedGrows(p.errors, p'.errors, l.catalogue, mode, rows);
      AllRejectedGrows(p.errors, p'.errors, l.catalogue, mode, rows);
      LevelsGrow(l, p, p', mode, warehouse, rows);
    }
  }

  /** Every change an import makes goes through the ledger. */
  lemma {:induction false} ImportKeepsLedgerConsistent(l: Ledger, reorder: map<nat, int>, mode: Mode, warehouse: nat, rows: seq<Row>)
    requires Consistent(l)
    ensures Consistent(ImportRows(Start(l, reorder), mode, warehouse, rows).ledger)
  {
    if rows != [] {
      hide Consistent, Record, AmountProblem, ItemProblem, MovementFor, Agree;
      var n := |rows| - 1;
      ImportKeepsLedgerConsistent(l, reorder, mode, warehouse, rows[..n]);
      var p, r := ImportRows(Start(l, reorder), mode, warehouse, rows[..n]), rows[n];
      if ItemOf(r).Some? && r.quantity.Amount? {
        var e := MovementFor(p.ledger, mode, warehouse, r, ItemOf(r).value);
        if e.Some? && RecordEntry(p.ledger, e.value).Recorded? {
          RecordKeepsConsistent(p.ledger, e.value.key, e.value.kind, e.value.quantity, e.value.unitCost, e.value.reference, e.value.enforce);
        }
      }
      ScreenedRowKeepsConsistent(p, mode, warehouse, |rows| + 1, r);
    }
  }

  lemma ScreenedRowKeepsConsistent(p: Progress, mode: Mode, warehouse: nat, row: nat, r: Row)
    requires Consistent(p.ledger)
    requires ItemOf(r).Some? && r.quantity.Amount? ==>
               var e := MovementFor(p.ledger, mode, warehouse, r, ItemOf(r).value);
               e.Some? && RecordEntry(p.ledger, e.value).Recorded? ==> Consistent(RecordEntry(p.ledger, e.value).ledger)
    ensures Consistent(ImportRow(p, mode, warehouse, row, r).ledger)
  {
    hide Consistent, RecordEntry, MovementFor, Agree;
  }
}
