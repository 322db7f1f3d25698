/** What each stock operation asks for, and what a request made of it finally does to the levels. */
module StockRules {
  import opened Options
  import opened AverageCost
  import opened StockLedger
  import opened StockWorkflows
  import opened StockRuns
  import opened StockGuarantees

  // ---- Rows of a request ----

  /** What the rows of a request ask for of an item, however many of them name it. */
  function RowTotal(rows: seq<Row>, item: Item): int {
    if rows == [] then 0
    else RowTotal(rows[..|rows| - 1], item) + if rows[|rows| - 1].item == item then rows[|rows| - 1].quantity else 0
  }

  ghost predicate IsKnown(catalogue: map<nat, Product>, item: Item) {
    && item.product in catalogue
    && (item.variant.Some? ==> item.variant.value in catalogue[item.product].variants)
  }

  ghost predicate NeedsVariant(catalogue: map<nat, Product>, item: Item) {
    && item.product in catalogue && item.variant.None?
    && catalogue[item.product].meterTailoring && catalogue[item.product].hasVariants
  }

  /** A known item outside the meter-parent rule. */
  ghost predicate IsPlain(catalogue: map<nat, Product>, item: Item) {
    IsKnown(catalogue, item) && !NeedsVariant(catalogue, item)
  }

  lemma {:induction false} RowsAreChecked(catalogue: map<nat, Product>, rows: seq<Row>, allowParent: bool)
    ensures CheckItems(catalogue, rows, allowParent).None? <==>
            forall i :: 0 <= i < |rows| ==> IsKnown(catalogue, rows[i].item) && (allowParent || !NeedsVariant(catalogue, rows[i].item))
  {
    if rows != [] {
      RowsAreChecked(catalogue, rows[..|rows| - 1], allowParent);
    }
  }

  /** Row `i` fails as said, and no earlier row fails. */
  ghost predicate FailsFirst(catalogue: map<nat, Product>, rows: seq<Row>, allowParent: bool, i: nat, failure: Failure) {
    && i < |rows|
    && (forall k :: 0 <= k < i ==> IsKnown(catalogue, rows[k].item) && (allowParent || !NeedsVariant(catalogue, rows[k].item)))
    && if IsKnown(catalogue, rows[i].item) then failure == VariantMissing && !allowParent && NeedsVariant(catalogue, rows[i].item)
       else failure == UnknownItem
  }

  /** The first row that fails decides how the request fails. */
  lemma {:induction false} FirstRowDecides(catalogue: map<nat, Product>, rows: seq<Row>, allowParent: bool, failure: Failure)
    ensures CheckItems(catalogue, rows, allowParent) == Some(failure) <==> exists i: nat :: FailsFirst(catalogue, rows, allowParent, i, failure)
  {
    if rows != [] {
      var n := |rows| - 1;
      var earlier := rows[..n];
      FirstRowDecides(catalogue, earlier, allowParent, failure);
      RowsAreChecked(catalogue, earlier, allowParent);
      hide CheckItems;
      if CheckItems(catalogue, rows, allowParent) == Some(failure) {
        if CheckItems(catalogue, earlier, allowParent).None? {
          assert FailsFirst(catalogue, rows, allowParent, n, failure) by { LastRowDecides(catalogue, rows, allowParent); }
        } else {
          LastRowDecides(catalogue, rows, allowParent);
          var i: nat :| FailsFirst(catalogue, earlier, allowParent, i, failure);
          assert FailsFirst(catalogue, rows, allowParent, i, failure);
        }
      }
      if i: nat :| FailsFirst(catalogue, rows, allowParent, i, failure) {
        LastRowDecides(catalogue, rows, allowParent);
        if i < n {
          assert FailsFirst(catalogue, earlier, allowParent, i, failure);
        }
      }
    }
  }

  lemma LastRowDecides(catalogue: map<nat, Product>, rows: seq<Row>, allowParent: bool)
    requires rows != []
    ensures var n := |rows| - 1;
            var earlier := CheckItems(catalogue, rows[..n], allowParent);
            CheckItems(catalogue, rows, allowParent) == if earlier.Some? then earlier else CheckItem(catalogue, rows[n].item, allowParent)
  {
  }

  lemma {:induction false} LinesTotalRows(l: Ledger, rows: seq<Row>, item: Item)
    ensures LineTotal(LinesOf(l, rows), item) == RowTotal(rows, item)
  {
    if rows != [] {
      var n := |rows| - 1;
      LinesTotalRows(l, rows[..n], item);
      assert LinesOf(l, rows)[..n] == LinesOf(l, rows[..n]);
    }
  }

  /** One line for each row, in order, at the average cost or else the purchase price. */
  ghost predicate LinesFor(l: Ledger, rows: seq<Row>, lines: seq<Line>) {
    && |lines| == |rows|
    && forall i :: 0 <= i < |rows| ==>
         && lines[i].item == rows[i].item && lines[i].quantity == rows[i].quantity
         && var average := AverageOf(l.averages, rows[i].item);
         lines[i].unitCost == if average != 0 then average else if rows[i].item in l.prices then l.prices[rows[i].item] else 0
  }

  // ---- Transfers ----

  /** A transfer is created exactly between two different open warehouses, for at least one row, each of a positive amount of a plain item. */
  lemma TransfersAreCreatedExactly(s: Stock, source: nat, destination: nat, rows: seq<Row>)
    ensures CreateTransfer(s, source, destination, rows).Done? <==>
            && source in s.active && destination in s.active && source != destination && rows != []
            && forall i :: 0 <= i < |rows| ==> IsPlain(s.ledger.catalogue, rows[i].item) && rows[i].quantity > 0
  {
    RowsAreChecked(s.ledger.catalogue, rows, false);
    hide CheckItems;
  }

  /** Why a transfer is not created: the warehouses are looked at first, then the rows in order, then their amounts. */
  lemma TransferFailuresExactly(s: Stock, source: nat, destination: nat, rows: seq<Row>)
    ensures var answer := CreateTransfer(s, source, destination, rows);
            var open := source in s.active && destination in s.active;
            var plain := forall i :: 0 <= i < |rows| ==> IsPlain(s.ledger.catalogue, rows[i].item);
            && (answer == Failed(InactiveWarehouse) <==> !open)
            && (answer == Failed(SameWarehouse) <==> open && source == destination)
            && (answer == Failed(NoRows) <==> open && source != destination && rows == [])
            && (forall failure :: failure == UnknownItem || failure == VariantMissing ==>
                  (answer == Failed(failure) <==> open && source != destination && exists i: nat :: FailsFirst(s.ledger.catalogue, rows, false, i, failure)))
            && (answer == Failed(NotPositive) <==> open && source != destination && rows != [] && plain && exists i :: 0 <= i < |rows| && rows[i].quantity <= 0)
  {
    var catalogue := s.ledger.catalogue;
    RowsAreChecked(catalogue, rows, false);
    ItemFailures(catalogue, rows, false);
    FirstRowDecides(catalogue, rows, false, UnknownItem);
    FirstRowDecides(catalogue, rows, false, VariantMissing);
    hide CheckItems, FailsFirst;
  }

  lemma {:induction false} ItemFailures(catalogue: map<nat, Product>, rows: seq<Row>, allowParent: bool)
    ensures var failure := CheckItems(catalogue, rows, allowParent);
            failure.Some? ==> rows != [] && (failure.value == UnknownItem || failure.value == VariantMissing)
  {
    if rows != [] {
      ItemFailures(catalogue, rows[..|rows| - 1], allowParent);
    }
  }

  /** The created row is a draft from the requested source to the requested destination, line by line as requested; nothing else changes. */
  lemma CreatedTransferRow(s: Stock, source: nat, destination: nat, rows: seq<Row>)
    requires CreateTransfer(s, source, destination, rows).Done?
    ensures var s' := CreateTransfer(s, source, destination, rows).stock;
            && |s'.transfers| == |s.transfers| + 1 && s.transfers <= s'.transfers && s' == s.(transfers := s'.transfers)
            && var t := s'.transfers[|s.transfers|];
            t.source == source && t.destination == destination && t.status == Draft && LinesFor(s.ledger, rows, t.lines)
            && forall item: Item :: LineTotal(t.lines, item) == RowTotal(rows, item)
  {
    hide CheckRows, LineTotal, RowTotal;
    forall item: Item
      ensures LineTotal(LinesOf(s.ledger, rows), item) == RowTotal(rows, item)
    {
      LinesTotalRows(s.ledger, rows, item);
    }
  }

  /**
   Whatever happens after its creation, a transfer that was received has taken exactly the requested
   amounts out of the requested source and put them into the requested destination; on the way it has
   only taken them out; otherwise, and everywhere else, it has moved nothing.
   */
  lemma RequestedTransferMovesRows(s: Stock, source: nat, destination: nat, rows: seq<Row>, steps: seq<Step>, key: Key)
    requires Sound(s) && CreateTransfer(s, source, destination, rows).Done?
    ensures var after := Run(CreateTransfer(s, source, destination, rows).stock, steps);
            var id := |s.transfers|;
            && id < |after.transfers|
            && var status := after.transfers[id].status;
            var total := RowTotal(rows, key.item);
            var out := if key.warehouse == source && (status == Dispatched || status == Received) then total else 0;
            var in_ := if key.warehouse == destination && status == Received then total else 0;
            Net(after.ledger.movements, OfDocument(TransferDocument(id), key)) == in_ - out
  {
    CreatedTransferRow(s, source, destination, rows);
    CreateTransferKeepsSound(s, source, destination, rows);
    hide CreateTransfer, LineTotal, RowTotal, Run;
    var created := CreateTransfer(s, source, destination, rows).stock;
    var id := |s.transfers|;
    RunsAreSound(created, steps);
    RunProgresses(created, steps);
    var after := Run(created, steps);
    assert TransferProgress(created.transfers[id], after.transfers[id]);
    DocumentNet(after, id, key);
  }

  lemma DocumentNet(s: Stock, id: nat, key: Key)
    requires Sound(s) && id < |s.transfers|
    ensures var t := s.transfers[id];
            t.source != t.destination
            && Net(s.ledger.movements, OfDocument(TransferDocument(id), key)) ==
               (if key.warehouse == t.destination && t.status == Received then LineTotal(t.lines, key.item) else 0)
               - (if key.warehouse == t.source && (t.status == Dispatched || t.status == Received) then LineTotal(t.lines, key.item) else 0)
  {
    hide Consistent, Balanced, LineTotal;
    assert s.transfers[id] in s.transfers;
    assert Net(s.ledger.movements, OfDocument(TransferDocument(id), key)) == Expected(s, TransferDocument(id), key);
  }

  lemma BatchMovesLevels(s: Stock, id: nat, entries: seq<Entry>, to: TransferStatus, key: Key)
    requires Consistent(s.ledger) && id < |s.transfers| && MoveTransfer(s, id, entries, to).Done?
    ensures var s' := MoveTransfer(s, id, entries, to).stock;
            Consistent(s'.ledger) && Level(s'.ledger.levels, key) == Level(s.ledger.levels, key) + Moved(entries, OnKey(key))
  {
    hide Net, TotalStock, BalancesMatch;
    BatchKeepsConsistent(s.ledger, entries);
  }

  /** Created, dispatched and received in a row, a transfer lowers the source and raises the destination by the rows' amounts, and moves no other level. */
  lemma TransferEndToEnd(s: Stock, source: nat, destination: nat, rows: seq<Row>, key: Key)
    requires Consistent(s.ledger) && CreateTransfer(s, source, destination, rows).Done?
    requires var created := CreateTransfer(s, source, destination, rows).stock;
             && DispatchTransfer(created, |s.transfers|).Done?
             && ReceiveTransfer(DispatchTransfer(created, |s.transfers|).stock, |s.transfers|).Done?
    ensures var created := CreateTransfer(s, source, destination, rows).stock;
            var received := ReceiveTransfer(DispatchTransfer(created, |s.transfers|).stock, |s.transfers|).stock;
            Level(received.ledger.levels, key) == Level(s.ledger.levels, key)
              - (if key.warehouse == source then RowTotal(rows, key.item) else 0)
              + (if key.warehouse == destination then RowTotal(rows, key.item) else 0)
  {
    CreatedTransferRow(s, source, destination, rows);
    var created, id := CreateTransfer(s, source, destination, rows).stock, |s.transfers|;
    var t := created.transfers[id];
    hide CreateTransfer, Consistent, LineTotal, RowTotal, Moved, RecordAll, Level;
    var dispatched := DispatchTransfer(created, id).stock;
    BatchMovesLevels(created, id, OutEntries(t, id), Dispatched, key);
    LinesMoved(t.lines, t.source, TransferOut, -1, OfTransfer(id), key);
    var u := dispatched.transfers[id];
    assert u == t.(status := Dispatched);
    BatchMovesLevels(dispatched, id, InEntries(u, id), Received, key);
    LinesMoved(u.lines, u.destination, TransferIn, 1, OfTransfer(id), key);
  }

  // ---- When goods can move ----

  /** Every line asks for a positive amount of a plain item. */
  ghost predicate PlainLines(l: Ledger, lines: seq<Line>) {
    forall i :: 0 <= i < |lines| ==> IsPlain(l.catalogue, lines[i].item) && lines[i].quantity > 0
  }

  /** The warehouse holds what the lines ask for together, item by item. */
  ghost predicate Holds(l: Ledger, warehouse: nat, lines: seq<Line>) {
    forall i :: 0 <= i < |lines| ==> LineTotal(lines, lines[i].item) <= Level(l.levels, Key(warehouse, lines[i].item))
  }

  lemma EntryRecorded(l: Ledger, e: Entry, quantity: int)
    requires IsPlain(l.catalogue, e.key.item) && quantity != 0 && e.quantity == quantity as real && e.enforce && e.kind != CountCorrection
    ensures RecordEntry(l, e).Recorded? <==> quantity > 0 || !l.blocksNegative || Level(l.levels, e.key) + quantity >= 0
  {
    RoundKeepsGrid(quantity);
    hide Round, Post;
  }

  lemma {:induction false} LinesArePositive(lines: seq<Line>, item: Item)
    requires forall i :: 0 <= i < |lines| ==> lines[i].quantity > 0
    ensures LineTotal(lines, item) >= 0
    ensures LineTotal(lines, item) > 0 <==> exists i :: 0 <= i < |lines| && lines[i].item == item
  {
    if lines != [] {
      var n := |lines| - 1;
      LinesArePositive(lines[..n], item);
      assert lines == lines[..n] + [lines[n]];
    }
  }

  lemma HoldsGrows(l: Ledger, warehouse: nat, lines: seq<Line>)
    requires lines != [] && forall i :: 0 <= i < |lines| ==> lines[i].quantity > 0
    ensures var n := |lines| - 1;
            Holds(l, warehouse, lines) <==>
            Holds(l, warehouse, lines[..n]) && LineTotal(lines, lines[n].item) <= Level(l.levels, Key(warehouse, lines[n].item))
  {
    var n := |lines| - 1;
    hide Level;
    forall i | 0 <= i < n
      ensures lines[..n][i] == lines[i]
      ensures LineTotal(lines, lines[i].item) == LineTotal(lines[..n], lines[i].item) + if lines[i].item == lines[n].item then lines[n].quantity else 0
    {
    }
  }

  /** Goods leave exactly if the policy does not block, or the warehouse holds all that is asked for. */
  lemma {:induction false} OutgoingExactly(l: Ledger, warehouse: nat, lines: seq<Line>, reference: Reference)
    requires Consistent(l) && PlainLines(l, lines)
    ensures RecordAll(l, Entries(lines, warehouse, TransferOut, -1, reference)).Recorded? <==> !l.blocksNegative || Holds(l, warehouse, lines)
  {
    var entries := Entries(lines, warehouse, TransferOut, -1, reference);
    if lines != [] {
      var n := |lines| - 1;
      var earlier := Entries(lines[..n], warehouse, TransferOut, -1, reference);
      assert entries[..n] == earlier;
      OutgoingExactly(l, warehouse, lines[..n], reference);
      HoldsGrows(l, warehouse, lines);
      hide Holds, Consistent, Level, Moved, RecordEntry;
      if RecordAll(l, earlier).Recorded? {
        LastLineLeaves(l, warehouse, lines, reference);
      }
    }
  }

  /** Once the earlier lines have left, the last one can leave exactly if it does not reach below what was held for all of them. */
  lemma LastLineLeaves(l: Ledger, warehouse: nat, lines: seq<Line>, reference: Reference)
    requires Consistent(l) && PlainLines(l, lines) && lines != []
    requires RecordAll(l, Entries(lines[..|lines| - 1], warehouse, TransferOut, -1, reference)).Recorded?
    ensures var n := |lines| - 1;
            var before := RecordAll(l, Entries(lines[..n], warehouse, TransferOut, -1, reference)).ledger;
            RecordEntry(before, Entries(lines, warehouse, TransferOut, -1, reference)[n]).Recorded? <==>
            !l.blocksNegative || LineTotal(lines, lines[n].item) <= Level(l.levels, Key(warehouse, lines[n].item))
  {
    hide Holds, Consistent, Level, Moved, RecordEntry, RecordAll;
    var n := |lines| - 1;
    var earlier := Entries(lines[..n], warehouse, TransferOut, -1, reference);
    BatchKeepsConsistent(l, earlier);
    LevelsAfterBatch(l, earlier, Key(warehouse, lines[n].item));
    LinesMoved(lines[..n], warehouse, TransferOut, -1, reference, Key(warehouse, lines[n].item));
    EntryRecorded(RecordAll(l, earlier).ledger, Entries(lines, warehouse, TransferOut, -1, reference)[n], -lines[n].quantity);
  }

  lemma LevelsAfterBatch(l: Ledger, entries: seq<Entry>, key: Key)
    requires Consistent(l) && RecordAll(l, entries).Recorded?
    ensures Level(RecordAll(l, entries).ledger.levels, key) == Level(l.levels, key) + Moved(entries, OnKey(key))
  {
    hide Net, TotalStock, BalancesMatch;
    BatchKeepsConsistent(l, entries);
  }

  /** Goods can always come in. */
  lemma {:induction false} IncomingAlways(l: Ledger, warehouse: nat, lines: seq<Line>, reference: Reference)
    requires Consistent(l) && PlainLines(l, lines)
    ensures RecordAll(l, Entries(lines, warehouse, TransferIn, 1, reference)).Recorded?
  {
    var entries := Entries(lines, warehouse, TransferIn, 1, reference);
    if lines != [] {
      var n := |lines| - 1;
      assert entries[..n] == Entries(lines[..n], warehouse, TransferIn, 1, reference);
      IncomingAlways(l, warehouse, lines[..n], reference);
      hide Consistent, RecordEntry;
      BatchKeepsConsistent(l, entries[..n]);
      EntryRecorded(RecordAll(l, entries[..n]).ledger, entries[n], lines[n].quantity);
    }
  }

  /** When each step of a transfer of plain items is accepted. */
  lemma TransferStepsExactly(s: Stock, id: nat)
    requires Consistent(s.ledger) && id < |s.transfers| && PlainLines(s.ledger, s.transfers[id].lines)
    ensures var t := s.transfers[id];
            && (DispatchTransfer(s, id).Done? <==> (t.status == Draft || t.status == Approved) && (!s.ledger.blocksNegative || Holds(s.ledger, t.source, t.lines)))
            && (ReceiveTransfer(s, id).Done? <==> t.status == Dispatched)
            && (CancelTransfer(s, id).Done? <==> t.status == Draft || t.status == Approved || t.status == Dispatched)
  {
    var t := s.transfers[id];
    OutgoingExactly(s.ledger, t.source, t.lines, OfTransfer(id));
    IncomingAlways(s.ledger, t.destination, t.lines, OfTransfer(id));
    IncomingAlways(s.ledger, t.source, t.lines, OfCancelledTransfer(id));
    EmptyBatch(s.ledger);
    hide RecordAll, Consistent, Holds, PlainLines;
  }

  /** Each step of a transfer leaves its own status, and only ever together with its movements. */
  lemma TransferStatusExactly(s: Stock, id: nat)
    ensures DispatchTransfer(s, id).Done? ==> id < |s.transfers| && DispatchTransfer(s, id).stock.transfers == s.transfers[id := s.transfers[id].(status := Dispatched)]
    ensures ReceiveTransfer(s, id).Done? ==> id < |s.transfers| && ReceiveTransfer(s, id).stock.transfers == s.transfers[id := s.transfers[id].(status := Received)]
    ensures CancelTransfer(s, id).Done? ==> id < |s.transfers| && CancelTransfer(s, id).stock.transfers == s.transfers[id := s.transfers[id].(status := Cancelled)]
  {
    hide RecordAll, OutEntries, InEntries, BackEntries;
  }

  // ---- Adjustments ----

  /** The parents of meter variants among the rows are corrected exactly to zero. */
  ghost predicate ClearsParents(s: Stock, warehouse: nat, rows: seq<Row>) {
    forall i :: 0 <= i < |rows| && NeedsVariant(s.ledger.catalogue, rows[i].item) ==>
      Level(s.ledger.levels, Key(warehouse, rows[i].item)) != 0
      && rows[i].quantity == -Level(s.ledger.levels, Key(warehouse, rows[i].item))
  }

  /** The conditions on the request itself; an adjustment applied at once must also be accepted by the ledger. */
  ghost predicate AdjustmentIsSound(s: Stock, warehouse: nat, rows: seq<Row>) {
    && warehouse in s.active && rows != []
    && (forall i :: 0 <= i < |rows| ==> IsKnown(s.ledger.catalogue, rows[i].item))
    && ClearsParents(s, warehouse, rows)
  }

  /** A pending adjustment is created exactly for a sound request, with its rows as requested, and moves nothing. */
  lemma PendingAdjustmentsExactly(s: Stock, warehouse: nat, reason: Reason, rows: seq<Row>)
    ensures var a := CreateAdjustment(s, warehouse, reason, rows, true);
            && (a.Done? <==> AdjustmentIsSound(s, warehouse, rows))
            && (a.Done? ==>
                  && a.stock == s.(adjustments := a.stock.adjustments) && |a.stock.adjustments| == |s.adjustments| + 1 && s.adjustments <= a.stock.adjustments
                  && var row := a.stock.adjustments[|s.adjustments|];
                  row.warehouse == warehouse && row.reason == reason && row.status == Pending && LinesFor(s.ledger, rows, row.lines))
  {
    RowsAreChecked(s.ledger.catalogue, rows, true);
    hide CheckItems;
  }

  lemma AppliedLevels(s: Stock, id: nat, key: Key)
    requires Consistent(s.ledger) && id < |s.adjustments| && ApplyAdjustment(s, id).Done?
    ensures var a := s.adjustments[id];
            Level(ApplyAdjustment(s, id).stock.ledger.levels, key)
            == Level(s.ledger.levels, key) + if key.warehouse == a.warehouse then LineTotal(a.lines, key.item) else 0
  {
    var a := s.adjustments[id];
    hide Consistent, AdjustmentEntries, Moved, LineTotal;
    LevelsAfterBatch(s.ledger, AdjustmentEntries(s.ledger, a, id, a.lines), key);
    AdjustmentMoved(s.ledger, a, id, a.lines, key);
  }

  /** An adjustment applied at once changes each level of its warehouse by what its rows ask for, and no other. */
  lemma AppliedAdjustmentMovesRows(s: Stock, warehouse: nat, reason: Reason, rows: seq<Row>, key: Key)
    requires Consistent(s.ledger) && CreateAdjustment(s, warehouse, reason, rows, false).Done?
    ensures var s' := CreateAdjustment(s, warehouse, reason, rows, false).stock;
            && AdjustmentIsSound(s, warehouse, rows)
            && |s'.adjustments| == |s.adjustments| + 1 && s'.adjustments[|s.adjustments|].status == Applied
            && s'.adjustments[|s.adjustments|].warehouse == warehouse && s'.adjustments[|s.adjustments|].reason == reason
            && Level(s'.ledger.levels, key) == Level(s.ledger.levels, key) + if key.warehouse == warehouse then RowTotal(rows, key.item) else 0
  {
    RowsAreChecked(s.ledger.catalogue, rows, true);
    LinesTotalRows(s.ledger, rows, key.item);
    hide CheckItems, LineTotal, RowTotal, Consistent, RecordAll, Level, AdjustmentEntries, LinesOf;
    var a := Adjustment(warehouse, reason, Applied, LinesOf(s.ledger, rows));
    AppliedLevels(s.(adjustments := s.adjustments + [a]), |s.adjustments|, key);
  }

  /** A pending adjustment is decided once: approval applies its lines, rejection does not. */
  lemma DecisionsExactly(s: Stock, id: nat, key: Key)
    requires Consistent(s.ledger)
    ensures ApproveAdjustment(s, id).Done? ==>
              && id < |s.adjustments| && s.adjustments[id].status == Pending
              && ApproveAdjustment(s, id).stock.adjustments == s.adjustments[id := s.adjustments[id].(status := Applied)]
              && Level(ApproveAdjustment(s, id).stock.ledger.levels, key) == Level(s.ledger.levels, key)
                 + if key.warehouse == s.adjustments[id].warehouse then LineTotal(s.adjustments[id].lines, key.item) else 0
    ensures RejectAdjustment(s, id).Done? <==> id < |s.adjustments| && s.adjustments[id].status == Pending
    ensures RejectAdjustment(s, id).Done? ==>
              RejectAdjustment(s, id).stock == s.(adjustments := s.adjustments[id := s.adjustments[id].(status := Declined)])
  {
    hide LineTotal, Consistent, RecordAll, Level, AdjustmentEntries;
    if ApproveAdjustment(s, id).Done? {
      AppliedLevels(s.(adjustments := s.adjustments[id := s.adjustments[id].(status := Applied)]), id, key);
    }
  }

  /** The kind under which a line of an adjustment is recorded. */
  predicate RecordedAs(reason: Reason, change: int, kind: Kind) {
    if change > 0 then kind == AdjustIn
    else if reason == DamageReason then kind == Damage
    else if reason == Expiry || reason == WastageReason then kind == Wastage
    else if reason == InternalReason || reason == Sample then kind == Internal
    else if reason == CountReason then kind == CountCorrection
    else kind == AdjustOut
  }

  /** The lines that change something are recorded in order, each as its reason says, at the average cost and under the policy. */
  lemma {:induction false} AdjustmentKinds(l: Ledger, a: Adjustment, id: nat, lines: seq<Line>)
    ensures forall e :: e in AdjustmentEntries(l, a, id, lines) ==>
              && e.key.warehouse == a.warehouse && e.reference == OfAdjustment(id) && e.enforce
              && e.unitCost == AverageOf(l.averages, e.key.item) as real
              && exists line :: line in lines && line.item == e.key.item && line.quantity != 0
                                && e.quantity == line.quantity as real && RecordedAs(a.reason, line.quantity, e.kind)
  {
    if lines != [] {
      hide AverageOf;
      var n := |lines| - 1;
      AdjustmentKinds(l, a, id, lines[..n]);
      assert lines == lines[..n] + [lines[n]];
      assert forall line :: line in lines[..n] ==> line in lines;
      forall e | e in ChangeEntries(l, a, id, lines[n])
        ensures lines[n] in lines && lines[n].item == e.key.item && lines[n].quantity != 0 && e.quantity == lines[n].quantity as real
                && RecordedAs(a.reason, lines[n].quantity, e.kind)
      {
      }
    }
  }

  // ---- Counts ----

  /** A snapshot has exactly one uncounted line, expecting the level, for each level of the warehouse that the count covers. */
  lemma SnapshotsExactly(l: Ledger, warehouse: nat, tailoring: bool, lines: seq<CountLine>)
    requires IsSnapshot(l, warehouse, tailoring, lines)
    ensures forall i, j :: 0 <= i < j < |lines| ==> lines[i].item != lines[j].item
    ensures forall item: Item :: (exists i :: 0 <= i < |lines| && lines[i].item == item) <==>
              && Key(warehouse, item) in l.levels
              && (tailoring || item.product !in l.catalogue || !l.catalogue[item.product].tailoring)
    ensures forall i :: 0 <= i < |lines| ==>
              Key(warehouse, lines[i].item) in l.levels && lines[i].expected == l.levels[Key(warehouse, lines[i].item)] && lines[i].counted == None
  {
    forall item: Item
      ensures (exists i :: 0 <= i < |lines| && lines[i].item == item) <==> Key(warehouse, item) in CountedKeys(l, warehouse, tailoring)
    {
      if Key(warehouse, item) in CountedKeys(l, warehouse, tailoring) {
        var i :| 0 <= i < |lines| && lines[i].item == Key(warehouse, item).item;
      }
    }
  }

  /** A figure is stored exactly on an existing line of a count still open or in review, and changes nothing else. */
  lemma FiguresExactly(s: Stock, id: nat, line: nat, counted: int)
    ensures var a := EnterCounted(s, id, line, counted);
            && (a.Done? <==> id < |s.counts| && line < |s.counts[id].lines| && (s.counts[id].status == Open || s.counts[id].status == Review))
            && (a.Done? ==>
                  && |a.stock.counts| == |s.counts| && a.stock == s.(counts := a.stock.counts)
                  && (forall k :: 0 <= k < |s.counts| && k != id ==> a.stock.counts[k] == s.counts[k])
                  && var c, c' := s.counts[id], a.stock.counts[id];
                  && c' == c.(lines := c'.lines) && |c'.lines| == |c.lines|
                  && c'.lines[line] == c.lines[line].(counted := Some(counted))
                  && forall k :: 0 <= k < |c.lines| && k != line ==> c'.lines[k] == c.lines[k])
  {
  }

  lemma {:induction false} CorrectionsAlways(l: Ledger, before: Ledger, c: StockCount, id: nat, lines: seq<CountLine>)
    requires forall i :: 0 <= i < |lines| ==> IsPlain(l.catalogue, lines[i].item)
    requires l.catalogue == before.catalogue
    ensures RecordAll(before, CountEntries(l, c, id, lines)).Recorded?
    ensures RecordAll(before, CountEntries(l, c, id, lines)).ledger.catalogue == l.catalogue
  {
    if lines != [] {
      hide LineEntries, RecordEntry, IsPlain;
      var n := |lines| - 1;
      CorrectionsAlways(l, before, c, id, lines[..n]);
      OneCorrection(l, before, c, id, CountEntries(l, c, id, lines[..n]), lines[n]);
    }
  }

  lemma OneCorrection(l: Ledger, before: Ledger, c: StockCount, id: nat, earlier: seq<Entry>, line: CountLine)
    requires IsPlain(l.catalogue, line.item) && RecordAll(before, earlier).Recorded? && RecordAll(before, earlier).ledger.catalogue == l.catalogue
    ensures var outcome := RecordAll(before, earlier + LineEntries(l, c, id, line));
            outcome.Recorded? && outcome.ledger.catalogue == l.catalogue
  {
    hide RecordEntry, IsPlain;
    var more := LineEntries(l, c, id, line);
    if more == [] {
      assert earlier + more == earlier;
    } else {
      assert (earlier + more)[..|earlier|] == earlier && (earlier + more)[|earlier|] == more[0];
      CorrectionRecorded(RecordAll(before, earlier).ledger, more[0], line.counted.value - line.expected);
    }
  }

  lemma CorrectionRecorded(l: Ledger, e: Entry, quantity: int)
    requires IsPlain(l.catalogue, e.key.item) && quantity != 0 && e.quantity == quantity as real && !e.enforce
    ensures RecordEntry(l, e).Recorded? && RecordEntry(l, e).ledger.catalogue == l.catalogue
  {
    RoundKeepsGrid(quantity);
    hide Round;
  }

  /** A count of plain items is approved exactly while open or in review, whatever the variances and the policy, and is settled by it. */
  lemma ApprovalsExactly(s: Stock, id: nat)
    requires id < |s.counts| && forall i :: 0 <= i < |s.counts[id].lines| ==> IsPlain(s.ledger.catalogue, s.counts[id].lines[i].item)
    ensures ApproveCount(s, id).Done? <==> s.counts[id].status == Open || s.counts[id].status == Review
    ensures ApproveCount(s, id).Done? ==> ApproveCount(s, id).stock.counts == s.counts[id := s.counts[id].(status := Settled)]
  {
    CorrectionsAlways(s.ledger, s.ledger, s.counts[id], id, s.counts[id].lines);
    hide RecordAll, CountEntries, IsPlain;
  }
}
