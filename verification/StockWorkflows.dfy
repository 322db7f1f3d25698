/** Transfers, adjustments and physical counts: documents whose steps record movements in the ledger. */
module StockWorkflows {
  import opened Options
  import opened AverageCost
  import opened StockLedger

  datatype TransferStatus = Draft | Approved | Dispatched | Received | Rejected | Cancelled

  /** `quantity` is a transferred amount, or the signed change of an adjustment. */
  datatype Line = Line(item: Item, quantity: int, unitCost: int)

  datatype Transfer = Transfer(source: nat, destination: nat, status: TransferStatus, lines: seq<Line>)

  datatype Reason = DamageReason | Expiry | Loss | Theft | WastageReason | InternalReason | Sample | CountReason | DataReason | OtherReason

  datatype AdjustmentStatus = Pending | Applied | Declined

  datatype Adjustment = Adjustment(warehouse: nat, reason: Reason, status: AdjustmentStatus, lines: seq<Line>)

  datatype CountStatus = Open | Review | Settled | Abandoned

  datatype CountLine = CountLine(item: Item, expected: int, counted: Option<int>)

  datatype StockCount = StockCount(warehouse: nat, status: CountStatus, lines: seq<CountLine>)

  /** `active` holds the warehouses that are open. */
  datatype Stock = Stock(ledger: Ledger, active: set<nat>, transfers: seq<Transfer>, adjustments: seq<Adjustment>, counts: seq<StockCount>)

  datatype Row = Row(item: Item, quantity: int)

  datatype Failure =
    | InactiveWarehouse | SameWarehouse | NoRows | UnknownItem | VariantMissing | NotPositive
    | NotExactlyToZero | NotFound | WrongStatus | MovementRefused(why: Refusal)

  datatype Attempt = Done(stock: Stock) | Failed(failure: Failure)

  // ---- Rows ----

  function CheckItem(catalogue: map<nat, Product>, item: Item, allowParent: bool): Option<Failure> {
    if item.product !in catalogue then Some(UnknownItem)
    else if item.variant.Some? && item.variant.value !in catalogue[item.product].variants then Some(UnknownItem)
    else if IsMeterParent(catalogue[item.product], item) && !allowParent then Some(VariantMissing)
    else None
  }

  /** The first failure among the rows, in order. */
  function CheckItems(catalogue: map<nat, Product>, rows: seq<Row>, allowParent: bool): Option<Failure> {
    if rows == [] then None
    else
      var earlier := CheckItems(catalogue, rows[..|rows| - 1], allowParent);
      if earlier.Some? then earlier else CheckItem(catalogue, rows[|rows| - 1].item, allowParent)
  }

  function CheckRows(catalogue: map<nat, Product>, rows: seq<Row>, allowParent: bool): Option<Failure> {
    if rows == [] then Some(NoRows) else CheckItems(catalogue, rows, allowParent)
  }

  function CostOf(l: Ledger, item: Item): int {
    if AverageOf(l.averages, item) != 0 then AverageOf(l.averages, item)
    else if item in l.prices then l.prices[item] else 0
  }

  function LinesOf(l: Ledger, rows: seq<Row>): seq<Line> {
    seq(|rows|, i requires 0 <= i < |rows| => Line(rows[i].item, rows[i].quantity, CostOf(l, rows[i].item)))
  }

  // ---- Transfers ----

  function Entries(lines: seq<Line>, warehouse: nat, kind: Kind, sign: int, reference: Reference): seq<Entry> {
    seq(|lines|, i requires 0 <= i < |lines| =>
      Entry(Key(warehouse, lines[i].item), kind, (sign * lines[i].quantity) as real, lines[i].unitCost as real, reference, true))
  }

  function OutEntries(t: Transfer, id: nat): seq<Entry> {
    Entries(t.lines, t.source, TransferOut, -1, OfTransfer(id))
  }

  function InEntries(t: Transfer, id: nat): seq<Entry> {
    Entries(t.lines, t.destination, TransferIn, 1, OfTransfer(id))
  }

  function BackEntries(t: Transfer, id: nat): seq<Entry> {
    Entries(t.lines, t.source, TransferIn, 1, OfCancelledTransfer(id))
  }

  function CreateTransfer(s: Stock, source: nat, destination: nat, rows: seq<Row>): Attempt {
    if source !in s.active || destination !in s.active then Failed(InactiveWarehouse)
    else if source == destination then Failed(SameWarehouse)
    else
      match CheckRows(s.ledger.catalogue, rows, false)
      case Some(failure) => Failed(failure)
      case None =>
        if exists i :: 0 <= i < |rows| && rows[i].quantity <= 0 then Failed(NotPositive)
        else Done(s.(transfers := s.transfers + [Transfer(source, destination, Draft, LinesOf(s.ledger, rows))]))
  }

  /** A transfer changes status together with its movements, or neither happens. */
  ghost function MoveTransfer(s: Stock, id: nat, entries: seq<Entry>, to: TransferStatus): Attempt
    requires id < |s.transfers|
  {
    match RecordAll(s.ledger, entries)
    case Refused(why) => Failed(MovementRefused(why))
    case Recorded(l) => Done(s.(ledger := l, transfers := s.transfers[id := s.transfers[id].(status := to)]))
  }

  ghost function DispatchTransfer(s: Stock, id: nat): Attempt {
    if id >= |s.transfers| then Failed(NotFound)
    else if s.transfers[id].status !in {Draft, Approved} then Failed(WrongStatus)
    else MoveTransfer(s, id, OutEntries(s.transfers[id], id), Dispatched)
  }

  ghost function ReceiveTransfer(s: Stock, id: nat): Attempt {
    if id >= |s.transfers| then Failed(NotFound)
    else if s.transfers[id].status != Dispatched then Failed(WrongStatus)
    else MoveTransfer(s, id, InEntries(s.transfers[id], id), Received)
  }

  ghost function CancelTransfer(s: Stock, id: nat): Attempt {
    if id >= |s.transfers| then Failed(NotFound)
    else
      match s.transfers[id].status
      case Dispatched => MoveTransfer(s, id, BackEntries(s.transfers[id], id), Cancelled)
      case Draft => MoveTransfer(s, id, [], Cancelled)
      case Approved => MoveTransfer(s, id, [], Cancelled)
      case _ => Failed(WrongStatus)
  }

  // ---- Adjustments ----

  function OutKind(reason: Reason): Kind {
    match reason
    case DamageReason => Damage
    case Expiry => Wastage
    case WastageReason => Wastage
    case InternalReason => Internal
    case Sample => Internal
    case CountReason => CountCorrection
    case _ => AdjustOut
  }

  /** A line that changes nothing is skipped. */
  function ChangeEntries(l: Ledger, a: Adjustment, id: nat, line: Line): seq<Entry> {
    if line.quantity == 0 then []
    else
      [Entry(Key(a.warehouse, line.item), if line.quantity > 0 then AdjustIn else OutKind(a.reason), line.quantity as real,
             AverageOf(l.averages, line.item) as real, OfAdjustment(id), true)]
  }

  function AdjustmentEntries(l: Ledger, a: Adjustment, id: nat, lines: seq<Line>): seq<Entry> {
    if lines == [] then []
    else AdjustmentEntries(l, a, id, lines[..|lines| - 1]) + ChangeEntries(l, a, id, lines[|lines| - 1])
  }

  predicate ParentsToZero(l: Ledger, warehouse: nat, rows: seq<Row>) {
    forall i :: 0 <= i < |rows| && rows[i].item.product in l.catalogue && IsMeterParent(l.catalogue[rows[i].item.product], rows[i].item) ==>
      var held := Level(l.levels, Key(warehouse, rows[i].item));
      held != 0 && rows[i].quantity == -held
  }

  /** Applies adjustment `id`, whose row `s` already holds. */
  ghost function ApplyAdjustment(s: Stock, id: nat): Attempt
    requires id < |s.adjustments|
  {
    var a := s.adjustments[id];
    match RecordAll(s.ledger, AdjustmentEntries(s.ledger, a, id, a.lines))
    case Refused(why) => Failed(MovementRefused(why))
    case Recorded(l) => Done(s.(ledger := l))
  }

  ghost function CreateAdjustment(s: Stock, warehouse: nat, reason: Reason, rows: seq<Row>, requiresApproval: bool): Attempt {
    if warehouse !in s.active then Failed(InactiveWarehouse)
    else
      match CheckRows(s.ledger.catalogue, rows, true)
      case Some(failure) => Failed(failure)
      case None =>
        if !ParentsToZero(s.ledger, warehouse, rows) then Failed(NotExactlyToZero)
        else
          var a := Adjustment(warehouse, reason, if requiresApproval then Pending else Applied, LinesOf(s.ledger, rows));
          var s' := s.(adjustments := s.adjustments + [a]);
          if requiresApproval then Done(s') else ApplyAdjustment(s', |s.adjustments|)
  }

  ghost function ApproveAdjustment(s: Stock, id: nat): Attempt {
    if id >= |s.adjustments| then Failed(NotFound)
    else if s.adjustments[id].status != Pending then Failed(WrongStatus)
    else ApplyAdjustment(s.(adjustments := s.adjustments[id := s.adjustments[id].(status := Applied)]), id)
  }

  function RejectAdjustment(s: Stock, id: nat): Attempt {
    if id >= |s.adjustments| then Failed(NotFound)
    else if s.adjustments[id].status != Pending then Failed(WrongStatus)
    else Done(s.(adjustments := s.adjustments[id := s.adjustments[id].(status := Declined)]))
  }

  // ---- Counts ----

  predicate Included(l: Ledger, item: Item, tailoring: bool) {
    tailoring || !(item.product in l.catalogue && l.catalogue[item.product].tailoring)
  }

  function CountedKeys(l: Ledger, warehouse: nat, tailoring: bool): set<Key> {
    set k | k in l.levels && k.warehouse == warehouse && Included(l, k.item, tailoring)
  }

  /** One uncounted line for each of the levels `keys`, in any order, expecting the level's quantity. */
  ghost predicate Snapshots(l: Ledger, warehouse: nat, keys: set<Key>, lines: seq<CountLine>) {
    && (forall i, j :: 0 <= i < j < |lines| ==> lines[i].item != lines[j].item)
    && (forall i :: 0 <= i < |lines| ==>
          Key(warehouse, lines[i].item) in keys && lines[i] == CountLine(lines[i].item, Level(l.levels, Key(warehouse, lines[i].item)), None))
    && (forall k :: k in keys ==> exists i :: 0 <= i < |lines| && lines[i].item == k.item)
  }

  ghost predicate IsSnapshot(l: Ledger, warehouse: nat, tailoring: bool, lines: seq<CountLine>) {
    Snapshots(l, warehouse, CountedKeys(l, warehouse, tailoring), lines)
  }

  lemma EmptySnapshot(l: Ledger, warehouse: nat)
    ensures Snapshots(l, warehouse, {}, [])
  {
  }

  lemma SnapshotExtends(l: Ledger, warehouse: nat, keys: set<Key>, lines: seq<CountLine>, k: Key)
    requires Snapshots(l, warehouse, keys, lines) && k.warehouse == warehouse && k !in keys
    ensures Snapshots(l, warehouse, keys + {k}, lines + [CountLine(k.item, Level(l.levels, k), None)])
  {
    var after := lines + [CountLine(k.item, Level(l.levels, k), None)];
    assert Key(warehouse, k.item) == k && after[|lines|].item == k.item;
    forall x | x in keys
      ensures exists i :: 0 <= i < |after| && after[i].item == x.item
    {
      var i :| 0 <= i < |lines| && lines[i].item == x.item;
      assert after[i].item == x.item;
    }
  }

  function OpenCount(s: Stock, warehouse: nat, lines: seq<CountLine>): Stock {
    s.(counts := s.counts + [StockCount(warehouse, Open, lines)])
  }

  /** The count page accepts figures only while the count is open. */
  function EnterCounted(s: Stock, id: nat, line: nat, counted: int): Attempt {
    if id >= |s.counts| || line >= |s.counts[id].lines| then Failed(NotFound)
    else if s.counts[id].status !in {Open, Review} then Failed(WrongStatus)
    else
      var c := s.counts[id];
      Done(s.(counts := s.counts[id := c.(lines := c.lines[line := c.lines[line].(counted := Some(counted))])]))
  }

  /** An uncounted line, or one without variance, is skipped. */
  function LineEntries(l: Ledger, c: StockCount, id: nat, line: CountLine): seq<Entry> {
    if line.counted.None? || line.counted.value == line.expected then []
    else
      [Entry(Key(c.warehouse, line.item), CountCorrection, (line.counted.value - line.expected) as real,
             AverageOf(l.averages, line.item) as real, OfCount(id), false)]
  }

  function CountEntries(l: Ledger, c: StockCount, id: nat, lines: seq<CountLine>): seq<Entry> {
    if lines == [] then []
    else CountEntries(l, c, id, lines[..|lines| - 1]) + LineEntries(l, c, id, lines[|lines| - 1])
  }

  ghost function ApproveCount(s: Stock, id: nat): Attempt {
    if id >= |s.counts| then Failed(NotFound)
    else if s.counts[id].status !in {Open, Review} then Failed(WrongStatus)
    else
      var c := s.counts[id];
      match RecordAll(s.ledger, CountEntries(s.ledger, c, id, c.lines))
      case Refused(why) => Failed(MovementRefused(why))
      case Recorded(l) => Done(s.(ledger := l, counts := s.counts[id := c.(status := Settled)]))
  }

  // ---- The tables ----

  class WorkflowTables {
    const stock: StockTables
    var active: set<nat>
    var transfers: seq<Transfer>
    var adjustments: seq<Adjustment>
    var counts: seq<StockCount>

    constructor (stock: StockTables, active: set<nat>)
      ensures State() == Stock(stock.State(), active, [], [], [])
      ensures this.stock == stock
    {
      this.stock, this.active := stock, active;
      transfers, adjustments, counts := [], [], [];
    }

    function State(): Stock
      reads this, stock
    {
      Stock(stock.State(), active, transfers, adjustments, counts)
    }

    method CheckRowItems(rows: seq<Row>, allowParent: bool) returns (failure: Option<Failure>)
      ensures failure == CheckRows(stock.catalogue, rows, allowParent)
    {
      if rows == [] {
        return Some(NoRows);
      }
      var i := 0;
      while i < |rows|
        invariant 0 <= i <= |rows|
        invariant CheckItems(stock.catalogue, rows[..i], allowParent).None?
      {
        assert rows[..i + 1][..i] == rows[..i];
        failure := CheckItem(stock.catalogue, rows[i].item, allowParent);
        if failure.Some? {
          FirstFailureStands(stock.catalogue, rows, i + 1, allowParent);
          return;
        }
        i := i + 1;
      }
      assert rows[..i] == rows;
      return None;
    }

    method CreateTransferRow(source: nat, destination: nat, rows: seq<Row>) returns (failure: Option<Failure>)
      modifies this
      ensures Reports(CreateTransfer(old(State()), source, destination, rows), old(State()), State(), failure)
    {
      hide CheckRows;
      if source !in active || destination !in active {
        return Some(InactiveWarehouse);
      }
      if source == destination {
        return Some(SameWarehouse);
      }
      failure := CheckRowItems(rows, false);
      if failure.Some? {
        return;
      }
      if exists i :: 0 <= i < |rows| && rows[i].quantity <= 0 {
        return Some(NotPositive);
      }
      transfers := transfers + [Transfer(source, destination, Draft, LinesOf(stock.State(), rows))];
    }

    method DispatchTransferRow(id: nat) returns (failure: Option<Failure>)
      modifies this, stock
      ensures Reports(DispatchTransfer(old(State()), id), old(State()), State(), failure)
    {
      hide OutEntries, RecordAll;
      if id >= |transfers| {
        return Some(NotFound);
      }
      var t := transfers[id];
      if t.status !in {Draft, Approved} {
        return Some(WrongStatus);
      }
      var refusal := stock.RecordEntries(OutEntries(t, id));
      if refusal.Some? {
        return Some(MovementRefused(refusal.value));
      }
      transfers := transfers[id := t.(status := Dispatched)];
      return None;
    }

    method ReceiveTransferRow(id: nat) returns (failure: Option<Failure>)
      modifies this, stock
      ensures Reports(ReceiveTransfer(old(State()), id), old(State()), State(), failure)
    {
      hide InEntries, RecordAll;
      if id >= |transfers| {
        return Some(NotFound);
      }
      var t := transfers[id];
      if t.status != Dispatched {
        return Some(WrongStatus);
      }
      var refusal := stock.RecordEntries(InEntries(t, id));
      if refusal.Some? {
        return Some(MovementRefused(refusal.value));
      }
      transfers := transfers[id := t.(status := Received)];
      return None;
    }

    method CancelTransferRow(id: nat) returns (failure: Option<Failure>)
      modifies this, stock
      ensures Reports(CancelTransfer(old(State()), id), old(State()), State(), failure)
    {
      hide BackEntries;
      if id >= |transfers| {
        return Some(NotFound);
      }
      var t := transfers[id];
      if t.status == Dispatched {
        var refusal := stock.RecordEntries(BackEntries(t, id));
        if refusal.Some? {
          return Some(MovementRefused(refusal.value));
        }
      } else if t.status != Draft && t.status != Approved {
        return Some(WrongStatus);
      }
      transfers := transfers[id := t.(status := Cancelled)];
      return None;
    }

    method ApplyAdjustmentRow(id: nat) returns (refusal: Option<Refusal>)
      requires id < |adjustments|
      modifies stock
      ensures match ApplyAdjustment(old(State()), id)
              case Done(s) => refusal.None? && State() == s
              case Failed(f) => refusal.Some? && f == MovementRefused(refusal.value) && State() == old(State())
    {
      hide AdjustmentEntries, RecordAll;
      var a := adjustments[id];
      refusal := stock.RecordEntries(AdjustmentEntries(stock.State(), a, id, a.lines));
    }

    method CreateAdjustmentRow(warehouse: nat, reason: Reason, rows: seq<Row>, requiresApproval: bool) returns (failure: Option<Failure>)
      modifies this, stock
      ensures Reports(CreateAdjustment(old(State()), warehouse, reason, rows, requiresApproval), old(State()), State(), failure)
    {
      hide CheckRows, ApplyAdjustment, ParentsToZero;
      if warehouse !in active {
        return Some(InactiveWarehouse);
      }
      failure := CheckRowItems(rows, true);
      if failure.Some? {
        return;
      }
      if !ParentsToZero(stock.State(), warehouse, rows) {
        return Some(NotExactlyToZero);
      }
      var saved := adjustments;
      var status := if requiresApproval then Pending else Applied;
      adjustments := adjustments + [Adjustment(warehouse, reason, status, LinesOf(stock.State(), rows))];
      if !requiresApproval {
        var refusal := ApplyAdjustmentRow(|saved|);
        if refusal.Some? {
          adjustments := saved;
          return Some(MovementRefused(refusal.value));
        }
      }
      return None;
    }

    method ApproveAdjustmentRow(id: nat) returns (failure: Option<Failure>)
      modifies this, stock
      ensures Reports(ApproveAdjustment(old(State()), id), old(State()), State(), failure)
    {
      hide ApplyAdjustment;
      if id >= |adjustments| {
        return Some(NotFound);
      }
      if adjustments[id].status != Pending {
        return Some(WrongStatus);
      }
      var saved := adjustments;
      adjustments := adjustments[id := adjustments[id].(status := Applied)];
      var refusal := ApplyAdjustmentRow(id);
      if refusal.Some? {
        adjustments := saved;
        return Some(MovementRefused(refusal.value));
      }
      return None;
    }

    method RejectAdjustmentRow(id: nat) returns (failure: Option<Failure>)
      modifies this
      ensures Reports(RejectAdjustment(old(State()), id), old(State()), State(), failure)
    {
      if id >= |adjustments| {
        return Some(NotFound);
      }
      if adjustments[id].status != Pending {
        return Some(WrongStatus);
      }
      adjustments := adjustments[id := adjustments[id].(status := Declined)];
      return None;
    }

    /** Walks the levels of the warehouse in whatever order they come. */
    method TakeSnapshot(warehouse: nat, tailoring: bool) returns (lines: seq<CountLine>)
      ensures IsSnapshot(stock.State(), warehouse, tailoring, lines)
    {
      hide Included, Snapshots;
      var l := stock.State();
      var wanted := CountedKeys(l, warehouse, tailoring);
      var left := wanted;
      lines := [];
      assert Snapshots(l, warehouse, {}, lines) by {
        EmptySnapshot(l, warehouse);
      }
      assert wanted - left == {};
      while left != {}
        invariant left <= wanted
        invariant Snapshots(l, warehouse, wanted - left, lines)
        decreases |left|
      {
        var k :| k in left;
        SnapshotExtends(l, warehouse, wanted - left, lines, k);
        assert wanted - left + {k} == wanted - (left - {k});
        lines := lines + [CountLine(k.item, Level(l.levels, k), None)];
        left := left - {k};
      }
      assert wanted - left == wanted;
    }

    method StartCount(warehouse: nat, tailoring: bool) returns (failure: Option<Failure>)
      modifies this`counts
      ensures if warehouse !in active then failure == Some(InactiveWarehouse) && State() == old(State())
              else failure.None? && exists lines :: IsSnapshot(stock.State(), warehouse, tailoring, lines) && State() == OpenCount(old(State()), warehouse, lines)
    {
      if warehouse !in active {
        return Some(InactiveWarehouse);
      }
      hide IsSnapshot;
      var lines := TakeSnapshot(warehouse, tailoring);
      counts := counts + [StockCount(warehouse, Open, lines)];
      assert IsSnapshot(stock.State(), warehouse, tailoring, lines);
      assert State() == OpenCount(old(State()), warehouse, lines);
      return None;
    }

    method EnterCountedRow(id: nat, line: nat, counted: int) returns (failure: Option<Failure>)
      modifies this
      ensures Reports(EnterCounted(old(State()), id, line, counted), old(State()), State(), failure)
    {
      if id >= |counts| || line >= |counts[id].lines| {
        return Some(NotFound);
      }
      var c := counts[id];
      if c.status !in {Open, Review} {
        return Some(WrongStatus);
      }
      counts := counts[id := c.(lines := c.lines[line := c.lines[line].(counted := Some(counted))])];
      return None;
    }

    method ApproveCountRow(id: nat) returns (failure: Option<Failure>)
      modifies this, stock
      ensures Reports(ApproveCount(old(State()), id), old(State()), State(), failure)
    {
      hide CountEntries, RecordAll;
      if id >= |counts| {
        return Some(NotFound);
      }
      var c := counts[id];
      if c.status !in {Open, Review} {
        return Some(WrongStatus);
      }
      var refusal := stock.RecordEntries(CountEntries(stock.State(), c, id, c.lines));
      if refusal.Some? {
        return Some(MovementRefused(refusal.value));
      }
      counts := counts[id := c.(status := Settled)];
      return None;
    }
  }

  /** A call that fails leaves every table as it was. */
  predicate Reports(attempt: Attempt, before: Stock, after: Stock, failure: Option<Failure>) {
    match attempt
    case Done(s) => failure.None? && after == s
    case Failed(f) => failure == Some(f) && after == before
  }

  lemma {:induction false} FirstFailureStands(catalogue: map<nat, Product>, rows: seq<Row>, n: nat, allowParent: bool)
    requires n <= |rows| && CheckItems(catalogue, rows[..n], allowParent).Some?
    ensures CheckItems(catalogue, rows, allowParent) == CheckItems(catalogue, rows[..n], allowParent)
  {
    if n == |rows| {
      assert rows[..n] == rows;
    } else {
      var last := |rows| - 1;
      assert rows[..last][..n] == rows[..n];
      FirstFailureStands(catalogue, rows[..last], n, allowParent);
    }
  }
}
