/**
 Rounding to the thousandth and the moving-average cost.

 Amounts are counted in thousandths: a supplied amount is any real, a stored amount an integer.
 */
module AverageCost {
  /** Nearest integer, halves away from zero. */
  function Round(x: real): int {
    if x >= 0.0 then (x + 0.5).Floor else -(-x + 0.5).Floor
  }

  predicate IsNearest(x: real, r: int) {
    && -0.5 <= r as real - x <= 0.5
    && (r as real - x == 0.5 ==> x > 0.0)
    && (r as real - x == -0.5 ==> x < 0.0)
  }

  /** Rounding is nearest with halves away from zero, and nothing else is. */
  lemma RoundIsTheNearest(x: real, r: int)
    ensures IsNearest(x, r) <==> r == Round(x)
  {
    var n := Round(x);
    if x >= 0.0 {
      assert n as real <= x + 0.5 < n as real + 1.0;
    } else {
      assert (-n) as real <= -x + 0.5 < (-n) as real + 1.0;
    }
    assert IsNearest(x, n);
  }

  lemma RoundIsMonotone(x: real, y: real)
    requires x <= y
    ensures Round(x) <= Round(y)
  {
    RoundIsTheNearest(x, Round(x));
    RoundIsTheNearest(y, Round(y));
  }

  lemma RoundKeepsGrid(n: int)
    ensures Round(n as real) == n
  {
    RoundIsTheNearest(n as real, n);
  }

  lemma RoundIsOdd(x: real)
    ensures Round(-x) == -Round(x)
  {
    RoundIsTheNearest(x, Round(x));
    RoundIsTheNearest(-x, -Round(x));
  }

  // ---- The average ----

  function Max(a: int, b: int): int { if a <= b then b else a }

  function Min(a: int, b: int): int { if a <= b then a else b }

  function Blend(e: real, a: real, q: real, c: real): real
    requires e + q > 0.0
  {
    (a * e + c * q) / (e + q)
  }

  /** `held` is the item's quantity before the movement, over all warehouses. */
  function NewAverage(held: int, average: int, quantity: int, cost: real): int {
    var existing := Max(0, held);
    if existing + quantity <= 0 then Round(cost)
    else Round(Blend(existing as real, average as real, quantity as real, cost))
  }

  lemma Scaled(a: real, b: real, t: real)
    requires a <= b && t > 0.0
    ensures a * t <= b * t
    ensures a < b ==> a * t < b * t
  {
  }

  lemma Quotient(n: real, t: real, lo: real, hi: real)
    requires t > 0.0 && lo * t <= n <= hi * t
    ensures lo <= n / t <= hi && (n / t) * t == n
  {
    var q := n / t;
    assert q * t == n;
    if q < lo {
      Scaled(q, lo, t);
    }
    if hi < q {
      Scaled(hi, q, t);
    }
  }

  lemma Between(lo: real, x: real, hi: real, t: real, loT: real, xT: real, hiT: real)
    requires lo <= x <= hi && t >= 0.0
    requires loT == lo * t && xT == x * t && hiT == hi * t
    ensures loT <= xT <= hiT
  {
    if t > 0.0 {
      Scaled(lo, x, t);
      Scaled(x, hi, t);
    }
  }

  lemma Distribute(x: real, e: real, q: real, p0: real, p1: real)
    requires p0 == x * e && p1 == x * q
    ensures x * (e + q) == p0 + p1
  {
  }

  lemma BlendIsBetween(e: real, a: real, q: real, c: real, lo: real, hi: real)
    requires e >= 0.0 && q > 0.0 && lo <= a <= hi && lo <= c <= hi
    ensures lo <= Blend(e, a, q, c) <= hi
  {
    var ae, cq, n := a * e, c * q, a * e + c * q;
    var loE, loQ, hiE, hiQ := lo * e, lo * q, hi * e, hi * q;
    Between(lo, a, hi, e, loE, ae, hiE);
    Between(lo, c, hi, q, loQ, cq, hiQ);
    Distribute(lo, e, q, loE, loQ);
    Distribute(hi, e, q, hiE, hiQ);
    Quotient(n, e + q, lo, hi);
  }

  /** The new average lies between the old one and the rounded incoming cost, whatever was held. */
  lemma AverageIsBetween(held: int, average: int, quantity: int, cost: real)
    requires quantity > 0
    ensures Min(average, Round(cost)) <= NewAverage(held, average, quantity, cost) <= Max(average, Round(cost))
  {
    var e, q, a := Max(0, held) as real, quantity as real, average as real;
    var lo, hi := if a <= cost then a else cost, if a <= cost then cost else a;
    BlendIsBetween(e, a, q, cost, lo, hi);
    RoundIsMonotone(lo, Blend(e, a, q, cost));
    RoundIsMonotone(Blend(e, a, q, cost), hi);
    RoundKeepsGrid(average);
  }

  lemma BlendOfNothing(a: real, q: real, c: real)
    requires q > 0.0
    ensures Blend(0.0, a, q, c) == c
  {
    Quotient(c * q, q, c, c);
  }

  /** A negative holding is forgotten: the first goods in set the average to their own cost. */
  lemma NothingHeldTakesIncomingCost(held: int, average: int, quantity: int, cost: real)
    requires quantity > 0 && held <= 0
    ensures NewAverage(held, average, quantity, cost) == Round(cost)
  {
    var q := quantity as real;
    BlendOfNothing(average as real, q, cost);
    assert Max(0, held) as real == 0.0;
  }

  // ---- Drift over a run of receipts ----

  datatype Receipt = Receipt(quantity: int, cost: real)

  datatype Holding = Holding(quantity: int, average: int)

  function Receive(h: Holding, r: Receipt): Holding {
    Holding(h.quantity + r.quantity, if r.cost == 0.0 then h.average else NewAverage(h.quantity, h.average, r.quantity, r.cost))
  }

  function ReceiveAll(h: Holding, receipts: seq<Receipt>): Holding {
    if receipts == [] then h else Receive(ReceiveAll(h, receipts[..|receipts| - 1]), receipts[|receipts| - 1])
  }

  /** What the goods really cost. */
  function Paid(receipts: seq<Receipt>): real {
    if receipts == [] then 0.0
    else Paid(receipts[..|receipts| - 1]) + receipts[|receipts| - 1].quantity as real * receipts[|receipts| - 1].cost
  }

  /** The sum of the quantities held after each receipt. */
  function RunningTotals(h: Holding, receipts: seq<Receipt>): int {
    if receipts == [] then 0
    else RunningTotals(h, receipts[..|receipts| - 1]) + ReceiveAll(h, receipts).quantity
  }

  function Value(h: Holding): real {
    h.quantity as real * h.average as real
  }

  lemma HalfwayTimes(q: real, t: real, n: real)
    requires t > 0.0 && q * t == n
    ensures -0.5 * t <= t * Round(q) as real - n <= 0.5 * t
  {
    var r := Round(q) as real;
    RoundIsTheNearest(q, Round(q));
    Between(-0.5, r - q, 0.5, t, -0.5 * t, (r - q) * t, 0.5 * t);
    Distribute(t, r, -q, t * r, t * -q);
    assert t * (r + -q) == (r - q) * t;
  }

  lemma Halfway(n: real, t: real)
    requires t > 0.0
    ensures -0.5 * t <= t * Round(n / t) as real - n <= 0.5 * t
  {
    var q := n / t;
    Quotient(n, t, q, q);
    HalfwayTimes(q, t, n);
  }

  lemma OneReceiptDrift(h: Holding, r: Receipt)
    requires h.quantity >= 0 && r.quantity > 0 && r.cost != 0.0
    ensures var h' := Receive(h, r);
            -0.5 * h'.quantity as real <= Value(h') - (Value(h) + r.quantity as real * r.cost) <= 0.5 * h'.quantity as real
  {
    var e, q := h.quantity as real, r.quantity as real;
    var n := Value(h) + q * r.cost;
    assert Blend(e, h.average as real, q, r.cost) == n / (e + q);
    Halfway(n, e + q);
  }

  /** Each receipt drifts by at most half a thousandth of the total then held, and the drifts only add up. */
  lemma {:induction false} DriftIsBounded(h: Holding, receipts: seq<Receipt>)
    requires h.quantity >= 0
    requires forall i :: 0 <= i < |receipts| ==> receipts[i].quantity > 0 && receipts[i].cost != 0.0
    ensures ReceiveAll(h, receipts).quantity >= h.quantity
    ensures var drift := Value(ReceiveAll(h, receipts)) - (Value(h) + Paid(receipts));
            -0.5 * RunningTotals(h, receipts) as real <= drift <= 0.5 * RunningTotals(h, receipts) as real
  {
    hide Value, NewAverage;
    if receipts != [] {
      var n := |receipts| - 1;
      DriftIsBounded(h, receipts[..n]);
      OneReceiptDrift(ReceiveAll(h, receipts[..n]), receipts[n]);
    }
  }
}
