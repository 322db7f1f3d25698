/** Guarantees across a run: counts settle exactly, finished documents stay finished, and a blocked level stays above zero. */
module StockGuarantees {
  import opened Options
  import opened AverageCost
  import opened StockLedger
  import opened StockWorkflows
  import opened StockRuns

  // ---- Documents over time ----

  /** Rows are only added; a finished document is never touched again. */
  ghost predicate Progresses(s: Stock, s': Stock) {
    && |s.transfers| <= |s'.transfers| && |s.adjustments| <= |s'.adjustments| && |s.counts| <= |s'.counts|
    && (forall i :: 0 <= i < |s.transfers| ==> TransferProgress(s.transfers[i], s'.transfers[i]))
    && (forall i :: 0 <= i < |s.adjustments| ==> AdjustmentProgress(s.adjustments[i], s'.adjustments[i]))
    && (forall i :: 0 <= i < |s.counts| ==> CountProgress(s.counts[i], s'.counts[i]))
  }

  predicate TransferProgress(t: Transfer, t': Transfer) {
    && t' == t.(status := t'.status)
    && (t.status in {Received, Rejected, Cancelled} ==> t' == t)
    && (t.status == Dispatched ==> t'.status in {Dispatched, Received, Cancelled})
  }

  predicate AdjustmentProgress(a: Adjustment, a': Adjustment) {
    a' == a.(status := a'.status) && (a.status != Pending ==> a' == a)
  }

  /** Only figures and status change; the snapshot itself does not. */
  ghost predicate CountProgress(c: StockCount, c': StockCount) {
    && c'.warehouse == c.warehouse && |c'.lines| == |c.lines|
    && (forall i :: 0 <= i < |c.lines| ==> c'.lines[i].item == c.lines[i].item && c'.lines[i].expected == c.lines[i].expected)
    && (c.status in {Settled, Abandoned} ==> c' == c)
  }

  lemma TransferStepProgresses(s: Stock, step: Step)
    requires step.NewTransfer? || step.DispatchIt? || step.ReceiveIt? || step.CancelIt?
    ensures Progresses(s, Apply(s, step))
  {
    hide RecordAll, CheckRows, LinesOf, OutEntries, InEntries, BackEntries;
  }

  lemma AdjustmentStepProgresses(s: Stock, step: Step)
    requires step.NewAdjustment? || step.ApproveIt? || step.RejectIt?
    ensures Progresses(s, Apply(s, step))
  {
    hide RecordAll, CheckRows, LinesOf, ParentsToZero, AdjustmentEntries;
  }

  lemma CountStepProgresses(s: Stock, step: Step)
    requires step.NewCount? || step.Enter? || step.Settle?
    ensures Progresses(s, Apply(s, step))
  {
    hide RecordAll, CountEntries, IsSnapshot;
  }

  lemma OtherStepProgresses(s: Stock, step: Step)
    requires step.DirectMovement? || step.Configure?
    ensures Progresses(s, Apply(s, step))
  {
    hide Record;
  }

  lemma StepProgresses(s: Stock, step: Step)
    ensures Progresses(s, Apply(s, step))
  {
    hide Progresses, Apply;
    if step.NewTransfer? || step.DispatchIt? || step.ReceiveIt? || step.CancelIt? {
      TransferStepProgresses(s, step);
    } else if step.NewAdjustment? || step.ApproveIt? || step.RejectIt? {
      AdjustmentStepProgresses(s, step);
    } else if step.NewCount? || step.Enter? || step.Settle? {
      CountStepProgresses(s, step);
    } else {
      OtherStepProgresses(s, step);
    }
  }

  lemma {:induction false} RunProgresses(s: Stock, steps: seq<Step>)
    ensures Progresses(s, Run(s, steps))
  {
    if steps != [] {
      hide Apply;
      var n := |steps| - 1;
      RunProgresses(s, steps[..n]);
      StepProgresses(Run(s, steps[..n]), steps[n]);
    }
  }

  /** A finished transfer keeps its status and its net effect through everything that follows. */
  lemma FinishedTransferStays(s: Stock, steps: seq<Step>, id: nat, key: Key)
    requires Sound(s) && id < |s.transfers| && s.transfers[id].status in {Received, Cancelled}
    ensures id < |Run(s, steps).transfers| && Run(s, steps).transfers[id] == s.transfers[id]
    ensures Net(Run(s, steps).ledger.movements, OfDocument(TransferDocument(id), key)) == Net(s.ledger.movements, OfDocument(TransferDocument(id), key))
  {
    hide Run, TransferNet, Consistent;
    RunProgresses(s, steps);
    RunsAreSound(s, steps);
    var s' := Run(s, steps);
    assert Net(s'.ledger.movements, OfDocument(TransferDocument(id), key)) == Expected(s', TransferDocument(id), key);
    assert Net(s.ledger.movements, OfDocument(TransferDocument(id), key)) == Expected(s, TransferDocument(id), key);
  }

  // ---- Counts ----

  lemma {:induction false} AbsentItemHasNoVariance(lines: seq<CountLine>, item: Item)
    requires forall i :: 0 <= i < |lines| ==> lines[i].item != item
    ensures VarianceTotal(lines, item) == 0
  {
    if lines != [] {
      AbsentItemHasNoVariance(lines[..|lines| - 1], item);
    }
  }

  predicate DistinctItems(lines: seq<CountLine>) {
    forall i, j :: 0 <= i < j < |lines| ==> lines[i].item != lines[j].item
  }

  lemma {:induction false} VarianceOfLine(lines: seq<CountLine>, i: nat)
    requires DistinctItems(lines) && i < |lines|
    ensures VarianceTotal(lines, lines[i].item) == if lines[i].counted.Some? then lines[i].counted.value - lines[i].expected else 0
  {
    var n := |lines| - 1;
    if i < n {
      VarianceOfLine(lines[..n], i);
    } else {
      AbsentItemHasNoVariance(lines[..n], lines[i].item);
    }
  }

  lemma LevelAfterApproval(s: Stock, id: nat, key: Key)
    requires Sound(s) && ApproveCount(s, id).Done?
    ensures Level(ApproveCount(s, id).stock.ledger.levels, key)
         == Level(s.ledger.levels, key) + if key.warehouse == s.counts[id].warehouse then VarianceTotal(s.counts[id].lines, key.item) else 0
  {
    hide Net, VarianceTotal, Documented, Balanced, CountEntries;
    var c := s.counts[id];
    var entries := CountEntries(s.ledger, c, id, c.lines);
    BatchKeepsConsistent(s.ledger, entries);
    CountMoved(s.ledger, c, id, c.lines, key);
  }

  /**
   Whatever happens between the snapshot and the approval, each counted line ends at the counted
   quantity plus what moved on its key in between; an uncounted line keeps its level.
   */
  lemma ApprovedCountIsExact(s: Stock, warehouse: nat, tailoring: bool, lines: seq<CountLine>, steps: seq<Step>, i: nat)
    requires Sound(s) && IsSnapshot(s.ledger, warehouse, tailoring, lines) && i < |lines|
    requires ApproveCount(Run(OpenCount(s, warehouse, lines), steps), |s.counts|).Done?
    ensures var before := Run(OpenCount(s, warehouse, lines), steps);
            var after := ApproveCount(before, |s.counts|).stock;
            var key := Key(warehouse, lines[i].item);
            && |s.counts| < |before.counts| && i < |before.counts[|s.counts|].lines|
            && s.ledger.movements <= before.ledger.movements
            && var counted := before.counts[|s.counts|].lines[i].counted;
            Level(after.ledger.levels, key)
            == if counted.Some? then counted.value + Net(before.ledger.movements[|s.ledger.movements|..], OnKey(key))
               else Level(before.ledger.levels, key)
  {
    hide Run, ApproveCount, VarianceTotal, Documented, Balanced;
    var begun, id, key := OpenCount(s, warehouse, lines), |s.counts|, Key(warehouse, lines[i].item);
    var before := Run(begun, steps);
    OpenCountKeepsSound(s, warehouse, lines);
    RunsAreSound(begun, steps);
    RunProgresses(begun, steps);
    assert CountProgress(begun.counts[id], before.counts[id]);
    var c := before.counts[id];
    assert c.lines[i].item == lines[i].item && c.lines[i].expected == lines[i].expected;
    assert lines[i].expected == Level(s.ledger.levels, key);
    LevelAfterApproval(before, id, key);
    VarianceOfLine(c.lines, i);
    NetOfTail(before.ledger.movements, |s.ledger.movements|, OnKey(key));
    assert before.ledger.movements[..|s.ledger.movements|] == s.ledger.movements;
    assert Level(before.ledger.levels, key) == Net(before.ledger.movements, OnKey(key));
    assert Level(s.ledger.levels, key) == Net(s.ledger.movements, OnKey(key));
  }

  // ---- Blocked stock ----

  /** The policy blocks, nothing is below zero, and no adjustment is a count correction. */
  ghost predicate NonNegative(s: Stock) {
    && s.ledger.blocksNegative
    && (forall k: Key :: Level(s.ledger.levels, k) >= 0)
    && (forall a :: a in s.adjustments ==> a.reason != CountReason)
  }

  /** Steps that respect the policy: it stays on, nothing is unenforced, and nothing corrects a count. */
  predicate Enforced(step: Step) {
    match step
    case DirectMovement(_, kind, _, _, enforce) => enforce && kind != CountCorrection
    case NewAdjustment(_, reason, _, _) => reason != CountReason
    case Settle(_) => false
    case Configure(_, _, blocks, _) => blocks
    case _ => true
  }

  lemma EnforcedEntry(l: Ledger, e: Entry)
    requires l.blocksNegative && forall k: Key :: Level(l.levels, k) >= 0
    requires e.enforce && e.kind != CountCorrection && RecordEntry(l, e).Recorded?
    ensures RecordEntry(l, e).ledger.blocksNegative && forall k: Key :: Level(RecordEntry(l, e).ledger.levels, k) >= 0
  {
    hide NewAverage, TotalStock;
    BlockPolicyHolds(l, e.key, e.kind, e.quantity, e.unitCost, e.reference, e.enforce);
    var l' := RecordEntry(l, e).ledger;
    forall k: Key
      ensures Level(l'.levels, k) >= 0
    {
      assert k != e.key ==> Level(l'.levels, k) == Level(l.levels, k);
    }
  }

  lemma {:induction false} EnforcedBatch(l: Ledger, entries: seq<Entry>)
    requires l.blocksNegative && forall k: Key :: Level(l.levels, k) >= 0
    requires forall e :: e in entries ==> e.enforce && e.kind != CountCorrection
    requires RecordAll(l, entries).Recorded?
    ensures RecordAll(l, entries).ledger.blocksNegative && forall k: Key :: Level(RecordAll(l, entries).ledger.levels, k) >= 0
  {
    if entries != [] {
      var e, earlier := entries[|entries| - 1], entries[..|entries| - 1];
      EnforcedBatch(l, earlier);
      assert e in entries;
      EnforcedEntry(RecordAll(l, earlier).ledger, e);
    }
  }

  lemma {:induction false} AdjustmentIsEnforced(l: Ledger, a: Adjustment, id: nat, lines: seq<Line>)
    requires a.reason != CountReason
    ensures forall e :: e in AdjustmentEntries(l, a, id, lines) ==> e.enforce && e.kind != CountCorrection
  {
    if lines != [] {
      AdjustmentIsEnforced(l, a, id, lines[..|lines| - 1]);
    }
  }

  lemma ApplyKeepsNonNegative(s: Stock, id: nat)
    requires NonNegative(s) && id < |s.adjustments| && ApplyAdjustment(s, id).Done?
    ensures NonNegative(ApplyAdjustment(s, id).stock)
  {
    hide RecordAll, AdjustmentEntries;
    var a := s.adjustments[id];
    AdjustmentIsEnforced(s.ledger, a, id, a.lines);
    EnforcedBatch(s.ledger, AdjustmentEntries(s.ledger, a, id, a.lines));
  }

  lemma MoveKeepsNonNegative(s: Stock, id: nat, entries: seq<Entry>, to: TransferStatus)
    requires NonNegative(s) && id < |s.transfers| && MoveTransfer(s, id, entries, to).Done?
    requires forall e :: e in entries ==> e.enforce && e.kind != CountCorrection
    ensures NonNegative(MoveTransfer(s, id, entries, to).stock)
  {
    hide RecordAll;
    EnforcedBatch(s.ledger, entries);
  }

  lemma StepKeepsNonNegative(s: Stock, step: Step)
    requires NonNegative(s) && Enforced(step)
    ensures NonNegative(Apply(s, step))
  {
    hide NonNegative, CheckRows, ParentsToZero, IsSnapshot, RecordAll, ApplyAdjustment, LinesOf, MoveTransfer;
    match step
    case DirectMovement(k, kind, quantity, cost, enforce) => DirectKeepsNonNegative(s, Entry(k, kind, quantity, cost, Direct, enforce));
    case DispatchIt(id) =>
      if DispatchTransfer(s, id).Done? {
        MoveKeepsNonNegative(s, id, OutEntries(s.transfers[id], id), Dispatched);
      }
    case ReceiveIt(id) =>
      if ReceiveTransfer(s, id).Done? {
        MoveKeepsNonNegative(s, id, InEntries(s.transfers[id], id), Received);
      }
    case CancelIt(id) =>
      if CancelTransfer(s, id).Done? {
        MoveKeepsNonNegative(s, id, if s.transfers[id].status == Dispatched then BackEntries(s.transfers[id], id) else [], Cancelled);
      }
    case NewAdjustment(w, reason, rows, approval) =>
      var a := Adjustment(w, reason, if approval then Pending else Applied, LinesOf(s.ledger, rows));
      var with := s.(adjustments := s.adjustments + [a]);
      RowsKeepNonNegative(s, with);
      if ApplyAdjustment(with, |s.adjustments|).Done? {
        ApplyKeepsNonNegative(with, |s.adjustments|);
      }
    case ApproveIt(id) =>
      if id < |s.adjustments| {
        var with := s.(adjustments := s.adjustments[id := s.adjustments[id].(status := Applied)]);
        ReasonsKept(s, id, Applied);
        if ApplyAdjustment(with, id).Done? {
          ApplyKeepsNonNegative(with, id);
        }
      }
    case RejectIt(id) =>
      if id < |s.adjustments| {
        ReasonsKept(s, id, Declined);
      }
    case Configure(_, _, _, _) => RowsKeepNonNegative(s, Apply(s, step));
    case _ => RowsKeepNonNegative(s, Apply(s, step));
  }

  lemma RowsKeepNonNegative(s: Stock, s': Stock)
    requires NonNegative(s) && s'.ledger.levels == s.ledger.levels
    requires s'.ledger.blocksNegative || s'.ledger.blocksNegative == s.ledger.blocksNegative
    requires s'.adjustments == s.adjustments || (exists a: Adjustment :: a.reason != CountReason && s'.adjustments == s.adjustments + [a])
    ensures NonNegative(s')
  {
  }

  lemma ReasonsKept(s: Stock, id: nat, status: AdjustmentStatus)
    requires NonNegative(s) && id < |s.adjustments|
    ensures NonNegative(s.(adjustments := s.adjustments[id := s.adjustments[id].(status := status)]))
  {
    assert s.adjustments[id] in s.adjustments;
  }

  lemma DirectKeepsNonNegative(s: Stock, e: Entry)
    requires NonNegative(s) && e.enforce && e.kind != CountCorrection
    ensures NonNegative(PostDirect(s, e))
  {
    if RecordEntry(s.ledger, e).Recorded? {
      assert [e][..0] == [];
      assert RecordAll(s.ledger, [e]) == RecordEntry(s.ledger, e);
      EnforcedBatch(s.ledger, [e]);
    }
  }

  /** While the policy blocks and nothing bypasses it, no level ever goes below zero. */
  lemma {:induction false} BlockedStockStaysNonNegative(s: Stock, steps: seq<Step>)
    requires NonNegative(s) && forall step :: step in steps ==> Enforced(step)
    ensures NonNegative(Run(s, steps))
  {
    if steps != [] {
      hide NonNegative, Apply;
      var n := |steps| - 1;
      BlockedStockStaysNonNegative(s, steps[..n]);
      StepKeepsNonNegative(Run(s, steps[..n]), steps[n]);
    }
  }
}
