/** When a stock movement is recorded and when it is refused, and everything it then writes. */
module MovementRules {
  import opened Options
  import opened AverageCost
  import opened StockLedger

  /** The product is known, and the variant, if one is named, is one of its variants. */
  ghost predicate KnownItem(l: Ledger, item: Item) {
    && item.product in l.catalogue
    && (item.variant.Some? ==> item.variant.value in l.catalogue[item.product].variants)
  }

  /** The parent of meter variants: a meter product with variants, and no variant named. */
  ghost predicate MeterParent(l: Ledger, item: Item) {
    && item.product in l.catalogue && item.variant.None?
    && l.catalogue[item.product].meterTailoring && l.catalogue[item.product].hasVariants
  }

  /** A correction that takes the held quantity exactly to zero. */
  predicate RepairsParent(held: int, quantity: int, kind: Kind) {
    && held != 0 && held + quantity == 0
    && (kind == AdjustIn || kind == AdjustOut || kind == CountCorrection || kind == Damage || kind == Wastage || kind == Internal)
  }

  /** Each refusal has its own condition, tried in this order; what meets none of them is recorded. */
  lemma RefusalsExactly(l: Ledger, key: Key, kind: Kind, amount: real, unitCost: real, reference: Reference, enforce: bool)
    ensures var outcome := Record(l, key, kind, amount, unitCost, reference, enforce);
            var quantity, held := Round(amount), Level(l.levels, key);
            var parentAllowed := MeterParent(l, key.item) ==> RepairsParent(held, quantity, kind);
            var short := quantity < 0 && held + quantity < 0 && enforce && kind != CountCorrection && l.blocksNegative;
            && (outcome == Refused(ZeroQuantity) <==> quantity == 0)
            && (outcome == Refused(UnknownProduct) <==> quantity != 0 && key.item.product !in l.catalogue)
            && (outcome == Refused(ForeignVariant) <==> quantity != 0 && key.item.product in l.catalogue && !KnownItem(l, key.item))
            && (outcome == Refused(VariantNeeded) <==> quantity != 0 && KnownItem(l, key.item) && !parentAllowed)
            && (outcome == Refused(InsufficientStock) <==> quantity != 0 && KnownItem(l, key.item) && parentAllowed && short)
            && (outcome.Recorded? <==> quantity != 0 && KnownItem(l, key.item) && parentAllowed && !short)
  {
    hide Round, Post;
  }

  /** Where the policy does not block, every nonzero movement of a known item outside the meter-parent rule is recorded, however little is held. */
  lemma UnblockedMovementsAreRecorded(l: Ledger, key: Key, kind: Kind, amount: real, unitCost: real, reference: Reference, enforce: bool)
    requires !l.blocksNegative && Round(amount) != 0 && KnownItem(l, key.item) && !MeterParent(l, key.item)
    ensures Record(l, key, kind, amount, unitCost, reference, enforce).Recorded?
  {
    RefusalsExactly(l, key, kind, amount, unitCost, reference, enforce);
  }

  /** What a level reads: nothing stored counts as zero. */
  lemma LevelsRead(levels: map<Key, int>, key: Key)
    ensures key in levels ==> Level(levels, key) == levels[key]
    ensures key !in levels ==> Level(levels, key) == 0
  {
  }

  /** A recorded movement appends one row with the balance it leaves, moves one level, and at most one average. */
  lemma WritesExactly(l: Ledger, key: Key, kind: Kind, amount: real, unitCost: real, reference: Reference, enforce: bool)
    requires Record(l, key, kind, amount, unitCost, reference, enforce).Recorded?
    ensures var l' := Record(l, key, kind, amount, unitCost, reference, enforce).ledger;
            var quantity, held := Round(amount), Level(l.levels, key);
            && l'.levels == l.levels[key := held + quantity]
            && l'.movements == l.movements + [Movement(key, kind, quantity, Round(unitCost), held + quantity, reference)]
            && l'.catalogue == l.catalogue && l'.prices == l.prices && l'.blocksNegative == l.blocksNegative
            && if (kind == Opening || kind == Purchase) && quantity > 0 && unitCost != 0.0 then
                 l'.averages == l.averages[key.item := NewAverage(TotalStock(l.levels, key.item), AverageOf(l.averages, key.item), quantity, unitCost)]
               else l'.averages == l.averages
  {
    hide Round, NewAverage;
    TotalAfterWrite(l.levels, key, Level(l.levels, key) + Round(amount), key.item);
  }

  lemma BlendIsValueOverQuantity(e: real, a: real, q: real, c: real)
    requires e + q > 0.0
    ensures Blend(e, a, q, c) == (e * a + q * c) / (e + q)
  {
    assert a * e == e * a && c * q == q * c;
  }

  /** The average is the value held and received over the quantity, rounded; a negative holding counts as none. */
  lemma AverageExactly(held: int, average: int, quantity: int, cost: real, e: real, q: real)
    requires quantity > 0 && q == quantity as real && e == if held > 0 then held as real else 0.0
    ensures IsNearest((e * average as real + q * cost) / (e + q), NewAverage(held, average, quantity, cost))
  {
    hide IsNearest, Round, Blend;
    BlendIsValueOverQuantity(e, average as real, q, cost);
    assert Max(0, held) as real == e;
    assert NewAverage(held, average, quantity, cost) == Round(Blend(e, average as real, q, cost));
    RoundIsTheNearest(Blend(e, average as real, q, cost), NewAverage(held, average, quantity, cost));
  }

  /** What an item is worth on average is read from its own row, zero if there is none. */
  lemma AveragesRead(averages: map<Item, int>, item: Item)
    ensures item in averages ==> AverageOf(averages, item) == averages[item]
    ensures item !in averages ==> AverageOf(averages, item) == 0
  {
  }
}
