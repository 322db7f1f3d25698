/** What every run of stock operations keeps: ledger and documents agree, and transfers conserve goods. */
module StockRuns {
  import opened Options
  import opened AverageCost
  import opened StockLedger
  import opened StockWorkflows

  // ---- What a document should have moved ----

  function LineTotal(lines: seq<Line>, item: Item): int {
    if lines == [] then 0
    else LineTotal(lines[..|lines| - 1], item) + if lines[|lines| - 1].item == item then lines[|lines| - 1].quantity else 0
  }

  function VarianceTotal(lines: seq<CountLine>, item: Item): int {
    if lines == [] then 0
    else
      var line := lines[|lines| - 1];
      VarianceTotal(lines[..|lines| - 1], item) + if line.item == item && line.counted.Some? then line.counted.value - line.expected else 0
  }

  function TransferNet(t: Transfer, key: Key): int {
    var moved := LineTotal(t.lines, key.item);
    var out := if key.warehouse == t.source then -moved else 0;
    match t.status
    case Dispatched => out
    case Received => out + if key.warehouse == t.destination then moved else 0
    case _ => 0
  }

  function AdjustmentNet(a: Adjustment, key: Key): int {
    if a.status == Applied && key.warehouse == a.warehouse then LineTotal(a.lines, key.item) else 0
  }

  function CountNet(c: StockCount, key: Key): int {
    if c.status == Settled && key.warehouse == c.warehouse then VarianceTotal(c.lines, key.item) else 0
  }

  function Expected(s: Stock, d: Document, key: Key): int {
    match d
    case NoDocument => 0
    case TransferDocument(id) => if id < |s.transfers| then TransferNet(s.transfers[id], key) else 0
    case AdjustmentDocument(id) => if id < |s.adjustments| then AdjustmentNet(s.adjustments[id], key) else 0
    case CountDocument(id) => if id < |s.counts| then CountNet(s.counts[id], key) else 0
  }

  /** The quantity of an item that has left one warehouse and not reached another. */
  function InTransit(transfers: seq<Transfer>, item: Item): int {
    if transfers == [] then 0
    else InTransit(transfers[..|transfers| - 1], item) + OnTheWay(transfers[|transfers| - 1], item)
  }

  function OnTheWay(t: Transfer, item: Item): int {
    if t.status == Dispatched then LineTotal(t.lines, item) else 0
  }

  // ---- The invariant ----

  ghost predicate Documented(s: Stock) {
    forall d: Document, key: Key :: d != NoDocument ==> Net(s.ledger.movements, OfDocument(d, key)) == Expected(s, d, key)
  }

  ghost predicate Balanced(s: Stock) {
    forall item: Item :: Net(s.ledger.movements, TransfersOn(item)) == -InTransit(s.transfers, item)
  }

  predicate WarehousesDiffer(transfers: seq<Transfer>) {
    forall t :: t in transfers ==> t.source != t.destination
  }

  ghost predicate Sound(s: Stock) {
    Consistent(s.ledger) && Documented(s) && Balanced(s) && WarehousesDiffer(s.transfers)
  }

  // ---- Entries built from a document ----

  lemma {:induction false} DocumentMoved(entries: seq<Entry>, own: Document, d: Document, key: Key)
    requires forall e :: e in entries ==> DocumentOf(e.reference) == own
    ensures Moved(entries, OfDocument(d, key)) == if d == own then Moved(entries, OnKey(key)) else 0
  {
    if entries != [] {
      DocumentMoved(entries[..|entries| - 1], own, d, key);
    }
  }

  lemma {:induction false} NoTransferMoved(entries: seq<Entry>, item: Item)
    requires forall e :: e in entries ==> e.kind !in TRANSFER_KINDS
    ensures Moved(entries, TransfersOn(item)) == 0
  {
    if entries != [] {
      NoTransferMoved(entries[..|entries| - 1], item);
    }
  }

  lemma MovedByOneMore(entries: seq<Entry>, e: Entry, s: Selection)
    ensures Moved(entries + [e], s) == Moved(entries, s) + if Picks(s, e.key, e.kind, e.reference) then Round(e.quantity) else 0
  {
    assert (entries + [e])[..|entries|] == entries;
  }

  lemma OutKindMovesNoTransfer(reason: Reason)
    ensures OutKind(reason) !in TRANSFER_KINDS
  {
  }

  lemma {:induction false} LinesMoved(lines: seq<Line>, warehouse: nat, kind: Kind, sign: int, reference: Reference, key: Key)
    requires sign == 1 || sign == -1
    requires kind in TRANSFER_KINDS
    ensures var entries := Entries(lines, warehouse, kind, sign, reference);
            && Moved(entries, OnKey(key)) == (if key.warehouse == warehouse then sign * LineTotal(lines, key.item) else 0)
            && Moved(entries, TransfersOn(key.item)) == sign * LineTotal(lines, key.item)
  {
    if lines != [] {
      var n := |lines| - 1;
      LinesMoved(lines[..n], warehouse, kind, sign, reference, key);
      assert Entries(lines, warehouse, kind, sign, reference)[..n] == Entries(lines[..n], warehouse, kind, sign, reference);
      RoundKeepsGrid(sign * lines[n].quantity);
    }
  }

  lemma {:induction false} AdjustmentEntriesAreCorrections(l: Ledger, a: Adjustment, id: nat, lines: seq<Line>)
    ensures forall e :: e in AdjustmentEntries(l, a, id, lines) ==> e.reference == OfAdjustment(id) && e.kind !in TRANSFER_KINDS
  {
    if lines != [] {
      AdjustmentEntriesAreCorrections(l, a, id, lines[..|lines| - 1]);
      hide OutKind;
      OutKindMovesNoTransfer(a.reason);
    }
  }

  lemma ChangeMoved(earlier: seq<Entry>, l: Ledger, a: Adjustment, id: nat, line: Line, key: Key)
    ensures Moved(earlier + ChangeEntries(l, a, id, line), OnKey(key)) == Moved(earlier, OnKey(key)) +
            if key == Key(a.warehouse, line.item) then line.quantity else 0
  {
    hide Moved, Round, OutKind;
    if line.quantity != 0 {
      RoundKeepsGrid(line.quantity);
      MovedByOneMore(earlier, ChangeEntries(l, a, id, line)[0], OnKey(key));
    } else {
      assert earlier + [] == earlier;
    }
  }

  lemma {:induction false} AdjustmentMoved(l: Ledger, a: Adjustment, id: nat, lines: seq<Line>, key: Key)
    ensures Moved(AdjustmentEntries(l, a, id, lines), OnKey(key)) == if key.warehouse == a.warehouse then LineTotal(lines, key.item) else 0
  {
    hide Moved, ChangeEntries;
    if lines != [] {
      var n := |lines| - 1;
      AdjustmentMoved(l, a, id, lines[..n], key);
      ChangeMoved(AdjustmentEntries(l, a, id, lines[..n]), l, a, id, lines[n], key);
    } else {
      MovedByNone(OnKey(key));
    }
  }

  lemma {:induction false} CountEntriesAreCorrections(l: Ledger, c: StockCount, id: nat, lines: seq<CountLine>)
    ensures forall e :: e in CountEntries(l, c, id, lines) ==> e.reference == OfCount(id) && e.kind !in TRANSFER_KINDS
  {
    if lines != [] {
      CountEntriesAreCorrections(l, c, id, lines[..|lines| - 1]);
    }
  }

  lemma LineMoved(earlier: seq<Entry>, l: Ledger, c: StockCount, id: nat, line: CountLine, key: Key)
    ensures Moved(earlier + LineEntries(l, c, id, line), OnKey(key)) == Moved(earlier, OnKey(key)) +
            if key == Key(c.warehouse, line.item) && line.counted.Some? then line.counted.value - line.expected else 0
  {
    hide Moved, Round;
    if line.counted.Some? && line.counted.value != line.expected {
      RoundKeepsGrid(line.counted.value - line.expected);
      MovedByOneMore(earlier, LineEntries(l, c, id, line)[0], OnKey(key));
    } else {
      assert earlier + [] == earlier;
    }
  }

  lemma {:induction false} CountMoved(l: Ledger, c: StockCount, id: nat, lines: seq<CountLine>, key: Key)
    ensures Moved(CountEntries(l, c, id, lines), OnKey(key)) == if key.warehouse == c.warehouse then VarianceTotal(lines, key.item) else 0
  {
    hide Moved, LineEntries;
    if lines != [] {
      var n := |lines| - 1;
      CountMoved(l, c, id, lines[..n], key);
      LineMoved(CountEntries(l, c, id, lines[..n]), l, c, id, lines[n], key);
    } else {
      MovedByNone(OnKey(key));
    }
  }

  lemma MovedByNone(s: Selection)
    ensures Moved([], s) == 0
  {
  }

  lemma {:induction false} InTransitAfterChange(transfers: seq<Transfer>, id: nat, t: Transfer, item: Item)
    requires id < |transfers|
    ensures InTransit(transfers[id := t], item) == InTransit(transfers, item) - OnTheWay(transfers[id], item) + OnTheWay(t, item)
  {
    var n := |transfers| - 1;
    if id < n {
      InTransitAfterChange(transfers[..n], id, t, item);
      assert transfers[id := t][..n] == transfers[..n][id := t];
    } else {
      assert transfers[id := t][..n] == transfers[..n];
    }
  }

  // ---- Recording for one document ----

  /** The entries all belong to `own`, and `s'` expects of it exactly what they add. */
  ghost predicate Matches(s: Stock, s': Stock, entries: seq<Entry>, own: Document) {
    && (forall e :: e in entries ==> DocumentOf(e.reference) == own)
    && (forall d: Document, key: Key :: d != NoDocument ==>
          Expected(s', d, key) == Expected(s, d, key) + if d == own then Moved(entries, OnKey(key)) else 0)
    && (forall item: Item :: InTransit(s'.transfers, item) == InTransit(s.transfers, item) - Moved(entries, TransfersOn(item)))
    && WarehousesDiffer(s'.transfers)
  }

  lemma BatchKeepsSound(s: Stock, s': Stock, entries: seq<Entry>, own: Document)
    requires Sound(s) && Matches(s, s', entries, own)
    requires RecordAll(s.ledger, entries) == Recorded(s'.ledger)
    ensures Sound(s') && s.ledger.movements <= s'.ledger.movements
  {
    BatchKeepsConsistent(s.ledger, entries);
    forall d: Document, key: Key | d != NoDocument
      ensures Net(s'.ledger.movements, OfDocument(d, key)) == Expected(s', d, key)
    {
      hide Expected;
      DocumentMoved(entries, own, d, key);
    }
    assert Balanced(s') by {
      hide InTransit;
    }
  }

  lemma TransferMatches(s: Stock, s': Stock, id: nat, status: TransferStatus, entries: seq<Entry>)
    requires id < |s.transfers| && WarehousesDiffer(s.transfers)
    requires s'.transfers == s.transfers[id := s.transfers[id].(status := status)] && s'.adjustments == s.adjustments && s'.counts == s.counts
    requires forall e :: e in entries ==> DocumentOf(e.reference) == TransferDocument(id)
    requires var t := s.transfers[id];
             && (forall key :: TransferNet(t.(status := status), key) == TransferNet(t, key) + Moved(entries, OnKey(key)))
             && (forall item :: OnTheWay(t.(status := status), item) == OnTheWay(t, item) - Moved(entries, TransfersOn(item)))
    ensures Matches(s, s', entries, TransferDocument(id))
  {
    hide TransferNet, AdjustmentNet, CountNet, OnTheWay, Moved;
    forall item: Item
      ensures InTransit(s'.transfers, item) == InTransit(s.transfers, item) - Moved(entries, TransfersOn(item))
    {
      InTransitAfterChange(s.transfers, id, s.transfers[id].(status := status), item);
    }
  }

  lemma DispatchMoves(t: Transfer, id: nat)
    requires t.status in {Draft, Approved}
    ensures forall key :: TransferNet(t.(status := Dispatched), key) == TransferNet(t, key) + Moved(OutEntries(t, id), OnKey(key))
    ensures forall item :: OnTheWay(t.(status := Dispatched), item) == OnTheWay(t, item) - Moved(OutEntries(t, id), TransfersOn(item))
  {
    forall key: Key
      ensures TransferNet(t.(status := Dispatched), key) == TransferNet(t, key) + Moved(OutEntries(t, id), OnKey(key))
    {
      LinesMoved(t.lines, t.source, TransferOut, -1, OfTransfer(id), key);
    }
    forall item: Item
      ensures OnTheWay(t.(status := Dispatched), item) == OnTheWay(t, item) - Moved(OutEntries(t, id), TransfersOn(item))
    {
      LinesMoved(t.lines, t.source, TransferOut, -1, OfTransfer(id), Key(0, item));
    }
  }

  lemma ReceiveMoves(t: Transfer, id: nat)
    requires t.status == Dispatched
    ensures forall key :: TransferNet(t.(status := Received), key) == TransferNet(t, key) + Moved(InEntries(t, id), OnKey(key))
    ensures forall item :: OnTheWay(t.(status := Received), item) == OnTheWay(t, item) - Moved(InEntries(t, id), TransfersOn(item))
  {
    forall key: Key
      ensures TransferNet(t.(status := Received), key) == TransferNet(t, key) + Moved(InEntries(t, id), OnKey(key))
    {
      LinesMoved(t.lines, t.destination, TransferIn, 1, OfTransfer(id), key);
    }
    forall item: Item
      ensures OnTheWay(t.(status := Received), item) == OnTheWay(t, item) - Moved(InEntries(t, id), TransfersOn(item))
    {
      LinesMoved(t.lines, t.destination, TransferIn, 1, OfTransfer(id), Key(0, item));
    }
  }

  lemma CancelMoves(t: Transfer, id: nat)
    requires t.status == Dispatched
    ensures forall key :: TransferNet(t.(status := Cancelled), key) == TransferNet(t, key) + Moved(BackEntries(t, id), OnKey(key))
    ensures forall item :: OnTheWay(t.(status := Cancelled), item) == OnTheWay(t, item) - Moved(BackEntries(t, id), TransfersOn(item))
  {
    forall key: Key
      ensures TransferNet(t.(status := Cancelled), key) == TransferNet(t, key) + Moved(BackEntries(t, id), OnKey(key))
    {
      LinesMoved(t.lines, t.source, TransferIn, 1, OfCancelledTransfer(id), key);
    }
    forall item: Item
      ensures OnTheWay(t.(status := Cancelled), item) == OnTheWay(t, item) - Moved(BackEntries(t, id), TransfersOn(item))
    {
      LinesMoved(t.lines, t.source, TransferIn, 1, OfCancelledTransfer(id), Key(0, item));
    }
  }

  lemma TransferStepsKeepSound(s: Stock, id: nat)
    requires Sound(s)
    ensures var a := DispatchTransfer(s, id); a.Done? ==> Sound(a.stock) && s.ledger.movements <= a.stock.ledger.movements
    ensures var a := ReceiveTransfer(s, id); a.Done? ==> Sound(a.stock) && s.ledger.movements <= a.stock.ledger.movements
    ensures var a := CancelTransfer(s, id); a.Done? ==> Sound(a.stock) && s.ledger.movements <= a.stock.ledger.movements
  {
    hide Sound, TransferNet, OnTheWay, Moved, RecordAll, Matches;
    assert WarehousesDiffer(s.transfers) by {
      SoundWarehouses(s);
    }
    if id < |s.transfers| {
      var t := s.transfers[id];
      if DispatchTransfer(s, id).Done? {
        var s' := DispatchTransfer(s, id).stock;
        DispatchMoves(t, id);
        TransferMatches(s, s', id, Dispatched, OutEntries(t, id));
        BatchKeepsSound(s, s', OutEntries(t, id), TransferDocument(id));
      }
      if ReceiveTransfer(s, id).Done? {
        var s' := ReceiveTransfer(s, id).stock;
        ReceiveMoves(t, id);
        TransferMatches(s, s', id, Received, InEntries(t, id));
        BatchKeepsSound(s, s', InEntries(t, id), TransferDocument(id));
      }
      if CancelTransfer(s, id).Done? {
        var s' := CancelTransfer(s, id).stock;
        if t.status == Dispatched {
          CancelMoves(t, id);
          TransferMatches(s, s', id, Cancelled, BackEntries(t, id));
          BatchKeepsSound(s, s', BackEntries(t, id), TransferDocument(id));
        } else {
          NothingMoves(t);
          TransferMatches(s, s', id, Cancelled, []);
          BatchKeepsSound(s, s', [], TransferDocument(id));
        }
      }
    }
  }

  lemma SoundWarehouses(s: Stock)
    requires Sound(s)
    ensures WarehousesDiffer(s.transfers)
  {
  }

  lemma NothingMoves(t: Transfer)
    requires t.status in {Draft, Approved}
    ensures forall key :: TransferNet(t.(status := Cancelled), key) == TransferNet(t, key) + Moved([], OnKey(key))
    ensures forall item :: OnTheWay(t.(status := Cancelled), item) == OnTheWay(t, item) - Moved([], TransfersOn(item))
  {
  }

  // ---- Adjustments and counts ----

  function Put<T>(rows: seq<T>, id: nat, row: T): seq<T>
    requires id <= |rows|
  {
    if id == |rows| then rows + [row] else rows[id := row]
  }

  lemma AdjustmentMatches(s: Stock, s': Stock, id: nat, a: Adjustment, entries: seq<Entry>)
    requires WarehousesDiffer(s.transfers) && id <= |s.adjustments|
    requires s'.adjustments == Put(s.adjustments, id, a) && s'.transfers == s.transfers && s'.counts == s.counts
    requires forall e :: e in entries ==> e.reference == OfAdjustment(id) && e.kind !in TRANSFER_KINDS
    requires forall key :: AdjustmentNet(a, key) == Expected(s, AdjustmentDocument(id), key) + Moved(entries, OnKey(key))
    ensures Matches(s, s', entries, AdjustmentDocument(id))
  {
    hide TransferNet, AdjustmentNet, CountNet, InTransit, Moved;
    forall item: Item
      ensures Moved(entries, TransfersOn(item)) == 0
    {
      NoTransferMoved(entries, item);
    }
  }

  lemma CountMatches(s: Stock, s': Stock, id: nat, c: StockCount, entries: seq<Entry>)
    requires WarehousesDiffer(s.transfers) && id <= |s.counts|
    requires s'.counts == Put(s.counts, id, c) && s'.transfers == s.transfers && s'.adjustments == s.adjustments
    requires forall e :: e in entries ==> e.reference == OfCount(id) && e.kind !in TRANSFER_KINDS
    requires forall key :: CountNet(c, key) == Expected(s, CountDocument(id), key) + Moved(entries, OnKey(key))
    ensures Matches(s, s', entries, CountDocument(id))
  {
    hide TransferNet, AdjustmentNet, CountNet, InTransit, Moved;
    forall item: Item
      ensures Moved(entries, TransfersOn(item)) == 0
    {
      NoTransferMoved(entries, item);
    }
  }

  /** Applying an adjustment that has not been applied before. */
  lemma ApplyKeepsSound(s: Stock, with: Stock, id: nat, a: Adjustment)
    requires Sound(s) && id <= |s.adjustments| && a.status == Applied
    requires with == s.(adjustments := Put(s.adjustments, id, a))
    requires forall key :: Expected(s, AdjustmentDocument(id), key) == 0
    requires ApplyAdjustment(with, id).Done?
    ensures Sound(ApplyAdjustment(with, id).stock) && s.ledger.movements <= ApplyAdjustment(with, id).stock.ledger.movements
  {
    var entries, s' := AdjustmentEntries(s.ledger, a, id, a.lines), ApplyAdjustment(with, id).stock;
    hide Sound, Expected, AdjustmentEntries, Moved, RecordAll, Matches, LineTotal;
    SoundWarehouses(s);
    forall key: Key
      ensures AdjustmentNet(a, key) == Expected(s, AdjustmentDocument(id), key) + Moved(entries, OnKey(key))
    {
      AdjustmentMoved(s.ledger, a, id, a.lines, key);
    }
    AdjustmentEntriesAreCorrections(s.ledger, a, id, a.lines);
    AdjustmentMatches(s, s', id, a, entries);
    BatchKeepsSound(s, s', entries, AdjustmentDocument(id));
  }

  /** Writing an adjustment row that is not applied, over one that is not applied either. */
  lemma IdleAdjustmentKeepsSound(s: Stock, id: nat, a: Adjustment)
    requires Sound(s) && id <= |s.adjustments| && a.status != Applied
    requires forall key :: Expected(s, AdjustmentDocument(id), key) == 0
    ensures Sound(s.(adjustments := Put(s.adjustments, id, a)))
  {
    hide Sound, Expected, Matches;
    SoundWarehouses(s);
    AdjustmentMatches(s, s.(adjustments := Put(s.adjustments, id, a)), id, a, []);
    BatchKeepsSound(s, s.(adjustments := Put(s.adjustments, id, a)), [], AdjustmentDocument(id));
  }

  lemma AdjustmentStepsKeepSound(s: Stock, id: nat)
    requires Sound(s)
    ensures var a := ApproveAdjustment(s, id); a.Done? ==> Sound(a.stock) && s.ledger.movements <= a.stock.ledger.movements
    ensures var a := RejectAdjustment(s, id); a.Done? ==> Sound(a.stock) && s.ledger.movements <= a.stock.ledger.movements
  {
    hide Sound, ApplyAdjustment, LineTotal;
    if id < |s.adjustments| && s.adjustments[id].status == Pending {
      var a := s.adjustments[id];
      IdleAdjustmentKeepsSound(s, id, a.(status := Declined));
      var with := s.(adjustments := s.adjustments[id := a.(status := Applied)]);
      if ApplyAdjustment(with, id).Done? {
        ApplyKeepsSound(s, with, id, a.(status := Applied));
      }
    }
  }

  lemma CreateAdjustmentKeepsSound(s: Stock, warehouse: nat, reason: Reason, rows: seq<Row>, requiresApproval: bool)
    requires Sound(s)
    ensures var a := CreateAdjustment(s, warehouse, reason, rows, requiresApproval);
            a.Done? ==> Sound(a.stock) && s.ledger.movements <= a.stock.ledger.movements
  {
    hide Sound, ApplyAdjustment, LineTotal, CheckRows, ParentsToZero, LinesOf;
    var a := Adjustment(warehouse, reason, if requiresApproval then Pending else Applied, LinesOf(s.ledger, rows));
    var with := s.(adjustments := s.adjustments + [a]);
    if requiresApproval {
      IdleAdjustmentKeepsSound(s, |s.adjustments|, a);
    } else if ApplyAdjustment(with, |s.adjustments|).Done? {
      ApplyKeepsSound(s, with, |s.adjustments|, a);
    }
  }

  lemma CountStepsKeepSound(s: Stock, id: nat, line: nat, counted: int)
    requires Sound(s)
    ensures var a := EnterCounted(s, id, line, counted); a.Done? ==> Sound(a.stock) && s.ledger.movements <= a.stock.ledger.movements
    ensures var a := ApproveCount(s, id); a.Done? ==> Sound(a.stock) && s.ledger.movements <= a.stock.ledger.movements
  {
    hide Sound, Matches, RecordAll, CountEntries, Moved, VarianceTotal;
    SoundWarehouses(s);
    if EnterCounted(s, id, line, counted).Done? {
      var s' := EnterCounted(s, id, line, counted).stock;
      forall key: Key
        ensures CountNet(s'.counts[id], key) == Expected(s, CountDocument(id), key) + Moved([], OnKey(key))
      {
        MovedByNone(OnKey(key));
      }
      CountMatches(s, s', id, s'.counts[id], []);
      assert RecordAll(s.ledger, []) == Recorded(s.ledger) by {
        EmptyBatch(s.ledger);
      }
      BatchKeepsSound(s, s', [], CountDocument(id));
    }
    if ApproveCount(s, id).Done? {
      var c, s' := s.counts[id], ApproveCount(s, id).stock;
      var entries := CountEntries(s.ledger, c, id, c.lines);
      forall key: Key
        ensures CountNet(s'.counts[id], key) == Expected(s, CountDocument(id), key) + Moved(entries, OnKey(key))
      {
        CountMoved(s.ledger, c, id, c.lines, key);
      }
      CountEntriesAreCorrections(s.ledger, c, id, c.lines);
      CountMatches(s, s', id, s'.counts[id], entries);
      BatchKeepsSound(s, s', entries, CountDocument(id));
    }
  }

  lemma EmptyBatch(l: Ledger)
    ensures RecordAll(l, []) == Recorded(l)
  {
  }

  lemma OpenCountKeepsSound(s: Stock, warehouse: nat, lines: seq<CountLine>)
    requires Sound(s)
    ensures Sound(OpenCount(s, warehouse, lines))
  {
    hide Sound, Matches, VarianceTotal;
    SoundWarehouses(s);
    CountMatches(s, OpenCount(s, warehouse, lines), |s.counts|, StockCount(warehouse, Open, lines), []);
    BatchKeepsSound(s, OpenCount(s, warehouse, lines), [], CountDocument(|s.counts|));
  }

  lemma CreateTransferKeepsSound(s: Stock, source: nat, destination: nat, rows: seq<Row>)
    requires Sound(s)
    ensures var a := CreateTransfer(s, source, destination, rows);
            a.Done? ==> Sound(a.stock) && s.ledger.movements <= a.stock.ledger.movements
  {
    var a := CreateTransfer(s, source, destination, rows);
    if a.Done? {
      hide Sound, LineTotal, LinesOf, CheckRows, Consistent;
      SoundWarehouses(s);
      assert a.stock.transfers[..|s.transfers|] == s.transfers;
      assert Matches(s, a.stock, [], TransferDocument(|s.transfers|));
      BatchKeepsSound(s, a.stock, [], TransferDocument(|s.transfers|));
    }
  }

  // ---- Steps ----

  datatype Step =
      /** Sales, purchases, returns, opening stock and imports. */
    | DirectMovement(at: Key, kind: Kind, quantity: real, unitCost: real, enforce: bool)
    | NewTransfer(source: nat, destination: nat, rows: seq<Row>)
    | DispatchIt(transfer: nat)
    | ReceiveIt(transfer: nat)
    | CancelIt(transfer: nat)
    | NewAdjustment(warehouse: nat, reason: Reason, changes: seq<Row>, requiresApproval: bool)
    | ApproveIt(adjustment: nat)
    | RejectIt(adjustment: nat)
    | NewCount(where: nat, tailoring: bool, lines: seq<CountLine>)
    | Enter(count: nat, line: nat, counted: int)
    | Settle(count: nat)
      /** Product shapes, prices, the stock policy and the open warehouses may change at any time. */
    | Configure(catalogue: map<nat, Product>, prices: map<Item, int>, blocksNegative: bool, active: set<nat>)

  function Keep(s: Stock, a: Attempt): Stock {
    match a
    case Done(s') => s'
    case Failed(_) => s
  }

  ghost function PostDirect(s: Stock, e: Entry): Stock {
    match RecordEntry(s.ledger, e)
    case Recorded(l) => s.(ledger := l)
    case Refused(_) => s
  }

  ghost function Apply(s: Stock, step: Step): Stock {
    match step
    case DirectMovement(k, kind, quantity, cost, enforce) =>
      if kind in TRANSFER_KINDS then s else PostDirect(s, Entry(k, kind, quantity, cost, Direct, enforce))
    case NewTransfer(source, destination, rows) => Keep(s, CreateTransfer(s, source, destination, rows))
    case DispatchIt(id) => Keep(s, DispatchTransfer(s, id))
    case ReceiveIt(id) => Keep(s, ReceiveTransfer(s, id))
    case CancelIt(id) => Keep(s, CancelTransfer(s, id))
    case NewAdjustment(w, reason, rows, approval) => Keep(s, CreateAdjustment(s, w, reason, rows, approval))
    case ApproveIt(id) => Keep(s, ApproveAdjustment(s, id))
    case RejectIt(id) => Keep(s, RejectAdjustment(s, id))
    case NewCount(w, tailoring, lines) => if w in s.active && IsSnapshot(s.ledger, w, tailoring, lines) then OpenCount(s, w, lines) else s
    case Enter(id, line, counted) => Keep(s, EnterCounted(s, id, line, counted))
    case Settle(id) => Keep(s, ApproveCount(s, id))
    case Configure(catalogue, prices, blocks, active) =>
      s.(ledger := s.ledger.(catalogue := catalogue, prices := prices, blocksNegative := blocks), active := active)
  }

  ghost function Run(s: Stock, steps: seq<Step>): Stock {
    if steps == [] then s else Apply(Run(s, steps[..|steps| - 1]), steps[|steps| - 1])
  }

  lemma DirectKeepsSound(s: Stock, e: Entry)
    requires Sound(s) && e.kind !in TRANSFER_KINDS && e.reference == Direct
    ensures Sound(PostDirect(s, e)) && s.ledger.movements <= PostDirect(s, e).ledger.movements
  {
    if RecordEntry(s.ledger, e).Recorded? {
      hide Sound, RecordEntry, TransferNet, AdjustmentNet, CountNet, InTransit;
      SoundWarehouses(s);
      var s' := PostDirect(s, e);
      forall item: Item
        ensures Moved([e], TransfersOn(item)) == 0
      {
        NoTransferMoved([e], item);
      }
      assert [e][..0] == [];
      assert Matches(s, s', [e], NoDocument);
      BatchKeepsSound(s, s', [e], NoDocument);
    }
  }

  lemma ConfigureKeepsSound(s: Stock, catalogue: map<nat, Product>, prices: map<Item, int>, blocks: bool, active: set<nat>)
    requires Sound(s)
    ensures Sound(s.(ledger := s.ledger.(catalogue := catalogue, prices := prices, blocksNegative := blocks), active := active))
  {
    hide TransferNet, AdjustmentNet, CountNet, Net, TotalStock;
  }

  lemma StepKeepsSound(s: Stock, step: Step)
    requires Sound(s)
    ensures Sound(Apply(s, step)) && s.ledger.movements <= Apply(s, step).ledger.movements
  {
    hide Sound, CreateTransfer, DispatchTransfer, ReceiveTransfer, CancelTransfer, CreateAdjustment, ApproveAdjustment, RejectAdjustment;
    hide EnterCounted, ApproveCount, IsSnapshot, PostDirect;
    match step
    case DirectMovement(k, kind, quantity, cost, enforce) =>
      if kind !in TRANSFER_KINDS {
        DirectKeepsSound(s, Entry(k, kind, quantity, cost, Direct, enforce));
      }
    case NewTransfer(source, destination, rows) => CreateTransferKeepsSound(s, source, destination, rows);
    case DispatchIt(id) => TransferStepsKeepSound(s, id);
    case ReceiveIt(id) => TransferStepsKeepSound(s, id);
    case CancelIt(id) => TransferStepsKeepSound(s, id);
    case NewAdjustment(w, reason, rows, approval) => CreateAdjustmentKeepsSound(s, w, reason, rows, approval);
    case ApproveIt(id) => AdjustmentStepsKeepSound(s, id);
    case RejectIt(id) => AdjustmentStepsKeepSound(s, id);
    case NewCount(w, tailoring, lines) => OpenCountKeepsSound(s, w, lines);
    case Enter(id, line, counted) => CountStepsKeepSound(s, id, line, counted);
    case Settle(id) => CountStepsKeepSound(s, id, 0, 0);
    case Configure(catalogue, prices, blocks, active) => ConfigureKeepsSound(s, catalogue, prices, blocks, active);
  }

  /** From empty tables, whatever is done and in whatever order, documents and ledger agree. */
  lemma {:induction false} RunsAreSound(s: Stock, steps: seq<Step>)
    requires Sound(s)
    ensures Sound(Run(s, steps)) && s.ledger.movements <= Run(s, steps).ledger.movements
  {
    hide Sound, Apply;
    if steps != [] {
      RunsAreSound(s, steps[..|steps| - 1]);
      StepKeepsSound(Run(s, steps[..|steps| - 1]), steps[|steps| - 1]);
    }
  }

  lemma EmptyTablesAreSound(catalogue: map<nat, Product>, prices: map<Item, int>, blocks: bool, active: set<nat>)
    ensures Sound(Stock(Ledger(catalogue, prices, blocks, map[], [], map[]), active, [], [], []))
  {
  }

  // ---- What soundness means ----

  lemma {:induction false} TransfersAndOthers(movements: seq<Movement>, item: Item)
    ensures Net(movements, OnItem(item)) == Net(movements, TransfersOn(item)) + Net(movements, OthersOn(item))
  {
    if movements != [] {
      TransfersAndOthers(movements[..|movements| - 1], item);
    }
  }

  /** What lies in the warehouses plus what is on the way is what came in other than by transfer. */
  lemma TransfersConserveGoods(s: Stock, item: Item)
    requires Sound(s)
    ensures TotalStock(s.ledger.levels, item) + InTransit(s.transfers, item) == Net(s.ledger.movements, OthersOn(item))
  {
    TransfersAndOthers(s.ledger.movements, item);
  }

  /** A received transfer has moved its lines exactly once; one not dispatched, or cancelled, has moved nothing. */
  lemma TransferMovesLinesOnce(s: Stock, id: nat, item: Item)
    requires Sound(s) && id < |s.transfers|
    ensures var t := s.transfers[id];
            var moved := LineTotal(t.lines, item);
            var left := Net(s.ledger.movements, OfDocument(TransferDocument(id), Key(t.source, item)));
            var arrived := Net(s.ledger.movements, OfDocument(TransferDocument(id), Key(t.destination, item)));
            match t.status
            case Received => left == -moved && arrived == moved
            case Dispatched => left == -moved && arrived == 0
            case _ => left == 0 && arrived == 0
  {
    var t := s.transfers[id];
    assert t in s.transfers && t.source != t.destination;
    assert Net(s.ledger.movements, OfDocument(TransferDocument(id), Key(t.source, item))) == TransferNet(t, Key(t.source, item));
    assert Net(s.ledger.movements, OfDocument(TransferDocument(id), Key(t.destination, item))) == TransferNet(t, Key(t.destination, item));
  }

  /** An adjustment has moved its lines exactly once if it was applied, and nothing otherwise. */
  lemma AdjustmentMovesLinesOnce(s: Stock, id: nat, item: Item)
    requires Sound(s) && id < |s.adjustments|
    ensures var a := s.adjustments[id];
            Net(s.ledger.movements, OfDocument(AdjustmentDocument(id), Key(a.warehouse, item)))
            == if a.status == Applied then LineTotal(a.lines, item) else 0
  {
    var a := s.adjustments[id];
    assert Expected(s, AdjustmentDocument(id), Key(a.warehouse, item)) == AdjustmentNet(a, Key(a.warehouse, item));
  }
}
