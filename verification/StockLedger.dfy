/**
 The append-only stock ledger, its cached levels and the moving-average cost of each item.

 Amounts are counted in thousandths: a supplied amount is any real, a stored amount an integer.
 */
module StockLedger {
  import opened Options
  import opened AverageCost

  datatype Key = Key(warehouse: nat, item: Item)

  /** A product, or one variant of it. */
  datatype Item = Item(product: nat, variant: Option<nat>)

  datatype Kind =
    | Opening | Purchase | Sale | SaleReturn | PurchaseReturn | TransferOut | TransferIn
    | AdjustIn | AdjustOut | Damage | Wastage | Internal | CountCorrection

  const INBOUND_AVERAGES_COST := {Opening, Purchase}
  const NEGATIVE_ALLOWED := {CountCorrection}
  const METER_PARENT_REPAIR := {AdjustIn, AdjustOut, CountCorrection, Damage, Wastage, Internal}

  /** What a movement was recorded for; sales, purchases and imports count as direct. */
  datatype Reference = Direct | OfTransfer(id: nat) | OfCancelledTransfer(id: nat) | OfAdjustment(id: nat) | OfCount(id: nat)

  datatype Movement = Movement(key: Key, kind: Kind, quantity: int, unitCost: int, balanceAfter: int, reference: Reference)

  datatype Product = Product(meterTailoring: bool, tailoring: bool, hasVariants: bool, variants: set<nat>, stocked: bool)

  datatype Ledger = Ledger(
    catalogue: map<nat, Product>,
    prices: map<Item, int>,
    blocksNegative: bool,
    levels: map<Key, int>,
    movements: seq<Movement>,
    averages: map<Item, int>)

  datatype Refusal = ZeroQuantity | UnknownProduct | ForeignVariant | VariantNeeded | InsufficientStock

  datatype Outcome = Recorded(ledger: Ledger) | Refused(why: Refusal)

  function Level(levels: map<Key, int>, key: Key): int {
    if key in levels then levels[key] else 0
  }

  function AverageOf(averages: map<Item, int>, item: Item): int {
    if item in averages then averages[item] else 0
  }

  // ---- The stock of an item over all warehouses ----

  ghost function SumOf(keys: set<Key>, levels: map<Key, int>): int {
    if keys == {} then 0
    else
      var k :| k in keys;
      Level(levels, k) + SumOf(keys - {k}, levels)
  }

  lemma {:induction false} SumWithout(keys: set<Key>, levels: map<Key, int>, k: Key)
    requires k in keys
    ensures SumOf(keys, levels) == Level(levels, k) + SumOf(keys - {k}, levels)
    decreases |keys|
  {
    var first :| first in keys && SumOf(keys, levels) == Level(levels, first) + SumOf(keys - {first}, levels);
    if first != k {
      SumWithout(keys - {first}, levels, k);
      SumWithout(keys - {k}, levels, first);
      assert keys - {first} - {k} == keys - {k} - {first};
    }
  }

  lemma {:induction false} SumAgrees(keys: set<Key>, a: map<Key, int>, b: map<Key, int>)
    requires forall k :: k in keys ==> Level(a, k) == Level(b, k)
    ensures SumOf(keys, a) == SumOf(keys, b)
    decreases |keys|
  {
    if keys != {} {
      var k :| k in keys;
      SumWithout(keys, a, k);
      SumWithout(keys, b, k);
      SumAgrees(keys - {k}, a, b);
    }
  }

  function KeysOf(levels: map<Key, int>, item: Item): set<Key> {
    set k | k in levels && k.item == item
  }

  ghost function TotalStock(levels: map<Key, int>, item: Item): int {
    SumOf(KeysOf(levels, item), levels)
  }

  /** Writing one level moves the total of its item by the difference, and no other total. */
  lemma TotalAfterWrite(levels: map<Key, int>, key: Key, quantity: int, item: Item)
    ensures TotalStock(levels[key := quantity], item)
         == TotalStock(levels, item) + if key.item == item then quantity - Level(levels, key) else 0
  {
    var after := levels[key := quantity];
    var before, now := KeysOf(levels, item), KeysOf(after, item);
    if key.item == item {
      SumWithout(now, after, key);
      SumAgrees(now - {key}, after, levels);
      if key in levels {
        assert now == before;
        SumWithout(before, levels, key);
      } else {
        assert now - {key} == before;
      }
    } else {
      assert now == before;
      SumAgrees(now, after, levels);
    }
  }

  // ---- Recording one movement ----

  predicate IsMeterParent(p: Product, item: Item) {
    p.meterTailoring && p.hasVariants && item.variant.None?
  }

  function Screen(l: Ledger, key: Key, kind: Kind, quantity: int, enforce: bool): Option<Refusal> {
    var held := Level(l.levels, key);
    if quantity == 0 then Some(ZeroQuantity)
    else if key.item.product !in l.catalogue then Some(UnknownProduct)
    else
      var p := l.catalogue[key.item.product];
      if key.item.variant.Some? && key.item.variant.value !in p.variants then Some(ForeignVariant)
      else if IsMeterParent(p, key.item) && !(held != 0 && held + quantity == 0 && kind in METER_PARENT_REPAIR) then Some(VariantNeeded)
      else if quantity < 0 && held + quantity < 0 && enforce && kind !in NEGATIVE_ALLOWED && l.blocksNegative then Some(InsufficientStock)
      else None
  }

  ghost function Post(l: Ledger, key: Key, kind: Kind, quantity: int, unitCost: real, reference: Reference): Ledger {
    var balance := Level(l.levels, key) + quantity;
    var levels := l.levels[key := balance];
    var movement := Movement(key, kind, quantity, Round(unitCost), balance, reference);
    var averages :=
      if kind in INBOUND_AVERAGES_COST && quantity > 0 && unitCost != 0.0 then
        l.averages[key.item := NewAverage(TotalStock(levels, key.item) - quantity, AverageOf(l.averages, key.item), quantity, unitCost)]
      else l.averages;
    l.(levels := levels, movements := l.movements + [movement], averages := averages)
  }

  ghost function Record(l: Ledger, key: Key, kind: Kind, quantity: real, unitCost: real, reference: Reference, enforce: bool): Outcome {
    match Screen(l, key, kind, Round(quantity), enforce)
    case Some(why) => Refused(why)
    case None => Recorded(Post(l, key, kind, Round(quantity), unitCost, reference))
  }

  // ---- What the movements add up to ----

  /** The document behind a reference: a cancellation belongs to its transfer. */
  datatype Document = NoDocument | TransferDocument(id: nat) | AdjustmentDocument(id: nat) | CountDocument(id: nat)

  function DocumentOf(r: Reference): Document {
    match r
    case Direct => NoDocument
    case OfTransfer(id) => TransferDocument(id)
    case OfCancelledTransfer(id) => TransferDocument(id)
    case OfAdjustment(id) => AdjustmentDocument(id)
    case OfCount(id) => CountDocument(id)
  }

  const TRANSFER_KINDS := {TransferOut, TransferIn}

  datatype Selection =
    | OnKey(key: Key) | OnItem(item: Item) | TransfersOn(moved: Item) | OthersOn(other: Item) | OfDocument(document: Document, at: Key)

  predicate Picks(s: Selection, key: Key, kind: Kind, reference: Reference) {
    match s
    case OnKey(k) => key == k
    case OnItem(i) => key.item == i
    case TransfersOn(i) => key.item == i && kind in TRANSFER_KINDS
    case OthersOn(i) => key.item == i && kind !in TRANSFER_KINDS
    case OfDocument(d, k) => key == k && DocumentOf(reference) == d
  }

  /** The net quantity of the selected movements. */
  function Net(movements: seq<Movement>, s: Selection): int {
    if movements == [] then 0
    else
      var m := movements[|movements| - 1];
      Net(movements[..|movements| - 1], s) + if Picks(s, m.key, m.kind, m.reference) then m.quantity else 0
  }

  lemma {:induction false} NetOfTail(movements: seq<Movement>, n: nat, s: Selection)
    requires n <= |movements|
    ensures Net(movements, s) == Net(movements[..n], s) + Net(movements[n..], s)
  {
    if n == |movements| {
      assert movements[..n] == movements && movements[n..] == [];
    } else {
      var last := |movements| - 1;
      NetOfTail(movements[..last], n, s);
      assert movements[..last][..n] == movements[..n];
      assert movements[n..][..last - n] == movements[..last][n..];
    }
  }

  /** Each cached level is the sum of its movements, each balance the sum up to it. */
  ghost predicate LevelsMatch(l: Ledger) {
    && (forall k: Key :: Level(l.levels, k) == Net(l.movements, OnKey(k)))
    && (forall i: Item :: TotalStock(l.levels, i) == Net(l.movements, OnItem(i)))
  }

  ghost predicate BalancesMatch(movements: seq<Movement>) {
    forall n :: 0 <= n < |movements| ==> movements[n].balanceAfter == Net(movements[..n + 1], OnKey(movements[n].key))
  }

  ghost predicate Consistent(l: Ledger) {
    LevelsMatch(l) && BalancesMatch(l.movements)
  }

  lemma PostedTotals(l: Ledger, key: Key, kind: Kind, quantity: int, unitCost: real, reference: Reference)
    requires forall i: Item :: TotalStock(l.levels, i) == Net(l.movements, OnItem(i))
    ensures var l' := Post(l, key, kind, quantity, unitCost, reference);
            forall i: Item :: TotalStock(l'.levels, i) == Net(l'.movements, OnItem(i))
  {
    var l' := Post(l, key, kind, quantity, unitCost, reference);
    var n := |l.movements|;
    assert l'.movements[..n] == l.movements;
    forall i: Item
      ensures TotalStock(l'.levels, i) == Net(l'.movements, OnItem(i))
    {
      TotalAfterWrite(l.levels, key, Level(l.levels, key) + quantity, i);
    }
  }

  lemma PostedLevels(l: Ledger, key: Key, kind: Kind, quantity: int, unitCost: real, reference: Reference)
    requires forall k: Key :: Level(l.levels, k) == Net(l.movements, OnKey(k))
    ensures var l' := Post(l, key, kind, quantity, unitCost, reference);
            forall k: Key :: Level(l'.levels, k) == Net(l'.movements, OnKey(k))
  {
    hide TotalStock, NewAverage;
    var l' := Post(l, key, kind, quantity, unitCost, reference);
    assert l'.movements[..|l.movements|] == l.movements;
  }

  lemma BalancesExtend(movements: seq<Movement>, m: Movement)
    requires BalancesMatch(movements) && m.balanceAfter == Net(movements, OnKey(m.key)) + m.quantity
    ensures BalancesMatch(movements + [m])
  {
    var after := movements + [m];
    forall n | 0 <= n < |after|
      ensures after[n].balanceAfter == Net(after[..n + 1], OnKey(after[n].key))
    {
      if n < |movements| {
        assert after[..n + 1] == movements[..n + 1];
      } else {
        assert after[..n + 1] == after && after[..n] == movements;
      }
    }
  }

  /** A recorded movement keeps the ledger and its cache in step. */
  lemma RecordKeepsConsistent(l: Ledger, key: Key, kind: Kind, quantity: real, unitCost: real, reference: Reference, enforce: bool)
    requires Consistent(l) && Record(l, key, kind, quantity, unitCost, reference, enforce).Recorded?
    ensures var l' := Record(l, key, kind, quantity, unitCost, reference, enforce).ledger;
            && Consistent(l')
            && Level(l'.levels, key) == Level(l.levels, key) + Round(quantity)
            && (forall k: Key :: k != key ==> Level(l'.levels, k) == Level(l.levels, k))
            && (forall i: Item :: i != key.item ==> AverageOf(l'.averages, i) == AverageOf(l.averages, i))
  {
    PostedTotals(l, key, kind, Round(quantity), unitCost, reference);
    PostedLevels(l, key, kind, Round(quantity), unitCost, reference);
    BalancesExtend(l.movements, Post(l, key, kind, Round(quantity), unitCost, reference).movements[|l.movements|]);
  }

  /** Under the block policy only an unenforced or count movement takes goods out below zero. */
  lemma BlockPolicyHolds(l: Ledger, key: Key, kind: Kind, quantity: real, unitCost: real, reference: Reference, enforce: bool)
    requires Record(l, key, kind, quantity, unitCost, reference, enforce).Recorded? && l.blocksNegative
    ensures var after := Level(Record(l, key, kind, quantity, unitCost, reference, enforce).ledger.levels, key);
            after < 0 && after < Level(l.levels, key) ==> !enforce || kind == CountCorrection
  {
  }

  /** The parent of meter variants only ever moves to exactly zero, by a correction. */
  lemma MeterParentOnlyRepaired(l: Ledger, key: Key, kind: Kind, quantity: real, unitCost: real, reference: Reference, enforce: bool)
    requires Record(l, key, kind, quantity, unitCost, reference, enforce).Recorded?
    requires key.item.product in l.catalogue && IsMeterParent(l.catalogue[key.item.product], key.item)
    ensures Level(l.levels, key) != 0 && kind in METER_PARENT_REPAIR
    ensures Level(Record(l, key, kind, quantity, unitCost, reference, enforce).ledger.levels, key) == 0
  {
  }

  /** The average of an item changes only with an inbound receipt, and stays between itself and the cost. */
  lemma AverageMovesTowardsCost(l: Ledger, key: Key, kind: Kind, quantity: real, unitCost: real, reference: Reference, enforce: bool)
    requires Record(l, key, kind, quantity, unitCost, reference, enforce).Recorded?
    ensures var before := AverageOf(l.averages, key.item);
            var after := AverageOf(Record(l, key, kind, quantity, unitCost, reference, enforce).ledger.averages, key.item);
            after == before || (kind in INBOUND_AVERAGES_COST && Min(before, Round(unitCost)) <= after <= Max(before, Round(unitCost)))
  {
    var q := Round(quantity);
    if q > 0 {
      AverageIsBetween(TotalStock(l.levels[key := Level(l.levels, key) + q], key.item) - q, AverageOf(l.averages, key.item), q, unitCost);
    }
  }

  // ---- Several movements in one transaction ----

  datatype Entry = Entry(key: Key, kind: Kind, quantity: real, unitCost: real, reference: Reference, enforce: bool)

  ghost function RecordEntry(l: Ledger, e: Entry): Outcome {
    Record(l, e.key, e.kind, e.quantity, e.unitCost, e.reference, e.enforce)
  }

  /** All of them, or none. */
  ghost function RecordAll(l: Ledger, entries: seq<Entry>): Outcome {
    if entries == [] then Recorded(l)
    else
      match RecordAll(l, entries[..|entries| - 1])
      case Refused(why) => Refused(why)
      case Recorded(before) => RecordEntry(before, entries[|entries| - 1])
  }

  /** A refusal ends the batch: later entries are never looked at. */
  lemma {:induction false} RefusalEndsBatch(l: Ledger, entries: seq<Entry>, n: nat)
    requires n <= |entries| && RecordAll(l, entries[..n]).Refused?
    ensures RecordAll(l, entries) == RecordAll(l, entries[..n])
  {
    if n == |entries| {
      assert entries[..n] == entries;
    } else {
      var last := |entries| - 1;
      assert entries[..last][..n] == entries[..n];
      RefusalEndsBatch(l, entries[..last], n);
    }
  }

  function Moved(entries: seq<Entry>, s: Selection): int {
    if entries == [] then 0
    else
      var e := entries[|entries| - 1];
      Moved(entries[..|entries| - 1], s) + if Picks(s, e.key, e.kind, e.reference) then Round(e.quantity) else 0
  }

  lemma RecordAppends(l: Ledger, e: Entry)
    requires RecordEntry(l, e).Recorded?
    ensures var l' := RecordEntry(l, e).ledger;
            && l'.catalogue == l.catalogue && l'.prices == l.prices && l'.blocksNegative == l.blocksNegative
            && l.movements <= l'.movements
            && forall s: Selection :: Net(l'.movements, s) == Net(l.movements, s) + if Picks(s, e.key, e.kind, e.reference) then Round(e.quantity) else 0
  {
    hide Picks, NewAverage, Screen, Round;
    var l' := RecordEntry(l, e).ledger;
    assert l'.movements[..|l.movements|] == l.movements;
  }

  /** A batch adds exactly its entries to every net, and keeps the ledger consistent. */
  lemma {:induction false} BatchKeepsConsistent(l: Ledger, entries: seq<Entry>)
    requires Consistent(l) && RecordAll(l, entries).Recorded?
    ensures var l' := RecordAll(l, entries).ledger;
            && Consistent(l') && l'.catalogue == l.catalogue && l'.prices == l.prices && l'.blocksNegative == l.blocksNegative
            && l.movements <= l'.movements
            && forall s: Selection :: Net(l'.movements, s) == Net(l.movements, s) + Moved(entries, s)
  {
    hide Consistent, Record, Picks, Net;
    if entries != [] {
      var n := |entries| - 1;
      BatchKeepsConsistent(l, entries[..n]);
      var before, e := RecordAll(l, entries[..n]).ledger, entries[n];
      RecordKeepsConsistent(before, e.key, e.kind, e.quantity, e.unitCost, e.reference, e.enforce);
      RecordAppends(before, e);
    }
  }

  // ---- The average over a run of receipts ----

  /** An entry that leaves `item` alone, or brings some of it in at a known cost. */
  predicate OnlyReceives(e: Entry, item: Item) {
    e.key.item == item ==> e.kind in INBOUND_AVERAGES_COST && Round(e.quantity) > 0 && e.unitCost != 0.0
  }

  function ReceiptsOf(entries: seq<Entry>, item: Item): seq<Receipt> {
    if entries == [] then []
    else
      var e := entries[|entries| - 1];
      ReceiptsOf(entries[..|entries| - 1], item) + if e.key.item == item then [Receipt(Round(e.quantity), e.unitCost)] else []
  }

  ghost function HoldingOf(l: Ledger, item: Item): Holding {
    Holding(TotalStock(l.levels, item), AverageOf(l.averages, item))
  }

  lemma EntryIsReceipt(l: Ledger, e: Entry, item: Item)
    requires RecordEntry(l, e).Recorded? && OnlyReceives(e, item)
    ensures var after := HoldingOf(RecordEntry(l, e).ledger, item);
            after == if e.key.item == item then Receive(HoldingOf(l, item), Receipt(Round(e.quantity), e.unitCost)) else HoldingOf(l, item)
  {
    hide NewAverage;
    TotalAfterWrite(l.levels, e.key, Level(l.levels, e.key) + Round(e.quantity), item);
  }

  lemma {:induction false} BatchIsReceipts(l: Ledger, entries: seq<Entry>, item: Item)
    requires RecordAll(l, entries).Recorded? && forall e :: e in entries ==> OnlyReceives(e, item)
    ensures HoldingOf(RecordAll(l, entries).ledger, item) == ReceiveAll(HoldingOf(l, item), ReceiptsOf(entries, item))
    ensures forall r :: r in ReceiptsOf(entries, item) ==> r.quantity > 0 && r.cost != 0.0
  {
    hide RecordEntry, HoldingOf, Receive;
    if entries != [] {
      var n := |entries| - 1;
      BatchIsReceipts(l, entries[..n], item);
      EntryIsReceipt(RecordAll(l, entries[..n]).ledger, entries[n], item);
      var earlier, r := ReceiptsOf(entries[..n], item), Receipt(Round(entries[n].quantity), entries[n].unitCost);
      assert (earlier + [r])[..|earlier|] == earlier;
      assert earlier + [] == earlier;
    }
  }

  /**
   However many receipts an item has had, with other items moving in between, its stock valued at
   the average differs from what was paid by at most half a thousandth per unit ever held after a receipt.
   */
  lemma LedgerDriftIsBounded(l: Ledger, entries: seq<Entry>, item: Item)
    requires RecordAll(l, entries).Recorded? && forall e :: e in entries ==> OnlyReceives(e, item)
    requires TotalStock(l.levels, item) >= 0
    ensures var receipts := ReceiptsOf(entries, item);
            var drift := Value(HoldingOf(RecordAll(l, entries).ledger, item)) - (Value(HoldingOf(l, item)) + Paid(receipts));
            var bound := 0.5 * RunningTotals(HoldingOf(l, item), receipts) as real;
            -bound <= drift <= bound
  {
    hide Value;
    BatchIsReceipts(l, entries, item);
    var receipts := ReceiptsOf(entries, item);
    forall i | 0 <= i < |receipts|
      ensures receipts[i].quantity > 0 && receipts[i].cost != 0.0
    {
      assert receipts[i] in receipts;
    }
    DriftIsBounded(HoldingOf(l, item), receipts);
  }

  // ---- The tables ----

  class StockTables {
    var catalogue: map<nat, Product>
    var prices: map<Item, int>
    var blocksNegative: bool
    var levels: map<Key, int>
    var movements: seq<Movement>
    var averages: map<Item, int>

    constructor (catalogue: map<nat, Product>, prices: map<Item, int>, blocksNegative: bool)
      ensures State() == Ledger(catalogue, prices, blocksNegative, map[], [], map[])
    {
      this.catalogue, this.prices, this.blocksNegative := catalogue, prices, blocksNegative;
      levels, movements, averages := map[], [], map[];
    }

    function State(): Ledger
      reads this
    {
      Ledger(catalogue, prices, blocksNegative, levels, movements, averages)
    }

    /** A transaction that fails puts everything back. */
    method RollBack(saved: Ledger)
      modifies this
      ensures State() == saved
    {
      catalogue, prices, blocksNegative, levels, movements, averages :=
        saved.catalogue, saved.prices, saved.blocksNegative, saved.levels, saved.movements, saved.averages;
    }

    method GetTotalStock(item: Item) returns (total: int)
      ensures total == TotalStock(levels, item)
    {
      total := 0;
      var left := KeysOf(levels, item);
      while left != {}
        invariant left <= KeysOf(levels, item)
        invariant total + SumOf(left, levels) == TotalStock(levels, item)
        decreases |left|
      {
        var k :| k in left;
        SumWithout(left, levels, k);
        total := total + levels[k];
        left := left - {k};
      }
    }

    method UpdateAverageCost(item: Item, quantity: int, cost: real)
      requires quantity > 0
      modifies this`averages
      ensures averages == old(averages)[item := NewAverage(TotalStock(levels, item) - quantity, AverageOf(old(averages), item), quantity, cost)]
    {
      var total := GetTotalStock(item);
      var existing := total - quantity;
      if existing < 0 {
        existing := 0;
      }
      var average := AverageOf(averages, item);
      var blended := Blend(existing as real, average as real, quantity as real, cost);
      averages := averages[item := Round(blended)];
    }

    /** The writes of an accepted movement: level, ledger row, average. */
    method PostMovement(key: Key, kind: Kind, quantity: int, unitCost: real, reference: Reference)
      modifies this
      ensures State() == Post(old(State()), key, kind, quantity, unitCost, reference)
    {
      hide NewAverage, Round, TotalStock;
      var balance := Level(levels, key) + quantity;
      levels := levels[key := balance];
      movements := movements + [Movement(key, kind, quantity, Round(unitCost), balance, reference)];
      if kind in INBOUND_AVERAGES_COST && quantity > 0 && unitCost != 0.0 {
        UpdateAverageCost(key.item, quantity, unitCost);
      }
    }

    /** The checks before anything is written. */
    method CheckMovement(key: Key, kind: Kind, quantity: int, enforce: bool) returns (refusal: Option<Refusal>)
      ensures refusal == Screen(State(), key, kind, quantity, enforce)
    {
      hide IsMeterParent;
      if quantity == 0 {
        return Some(ZeroQuantity);
      }
      if key.item.product !in catalogue {
        return Some(UnknownProduct);
      }
      var p := catalogue[key.item.product];
      if key.item.variant.Some? && key.item.variant.value !in p.variants {
        return Some(ForeignVariant);
      }
      var held := Level(levels, key);
      if IsMeterParent(p, key.item) && !(held != 0 && held + quantity == 0 && kind in METER_PARENT_REPAIR) {
        return Some(VariantNeeded);
      }
      if quantity < 0 && held + quantity < 0 && enforce && kind !in NEGATIVE_ALLOWED && blocksNegative {
        return Some(InsufficientStock);
      }
      return None;
    }

    method RecordMovement(key: Key, kind: Kind, amount: real, unitCost: real, reference: Reference, enforce: bool) returns (refusal: Option<Refusal>)
      modifies this
      ensures match Record(old(State()), key, kind, amount, unitCost, reference, enforce)
              case Recorded(l) => refusal.None? && State() == l
              case Refused(why) => refusal == Some(why) && State() == old(State())
    {
      hide Post, Round, Screen;
      var quantity := Round(amount);
      refusal := CheckMovement(key, kind, quantity, enforce);
      if refusal.None? {
        PostMovement(key, kind, quantity, unitCost, reference);
      }
    }

    /** The loop of every workflow: record the entries in order, and undo them all if one is refused. */
    method RecordEntries(entries: seq<Entry>) returns (refusal: Option<Refusal>)
      modifies this
      ensures match RecordAll(old(State()), entries)
              case Recorded(l) => refusal.None? && State() == l
              case Refused(why) => refusal == Some(why) && State() == old(State())
    {
      hide Record;
      ghost var before := State();
      var saved := State();
      var i := 0;
      while i < |entries|
        invariant 0 <= i <= |entries|
        invariant RecordAll(before, entries[..i]) == Recorded(State())
      {
        var e := entries[i];
        assert entries[..i + 1][..i] == entries[..i];
        refusal := RecordMovement(e.key, e.kind, e.quantity, e.unitCost, e.reference, e.enforce);
        if refusal.Some? {
          RefusalEndsBatch(before, entries, i + 1);
          RollBack(saved);
          return;
        }
        i := i + 1;
      }
      assert entries[..i] == entries;
      refusal := None;
    }
  }
}
