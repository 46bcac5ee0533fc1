/** The reward-scoring and order-ladder engine: the quadratic spread utility,
    per-side scores, the minimum-of-sides rule (Qmin), price rungs at tick
    multiples around the midpoint and the budget split across them.
    Prices, sizes and budgets are exact reals here, where the original works
    in binary floating point. */
module LiquidityScore {
  import opened PyValue

  /** Python raises ZeroDivisionError when a float is divided by zero. */
  datatype ZeroDivisionError = ZeroDivisionError

  /** One order or book level: price in dollars, size in shares. */
  datatype Order = Order(price: real, size: real)

  /** An order book after its levels have been coerced to numbers. */
  datatype Book = Book(bids: seq<Order>, asks: seq<Order>)

  /** The candidate bid and ask prices before the budget is allocated. */
  datatype Ladder = Ladder(bids: seq<real>, asks: seq<real>)

  /** A proposed ladder for one token. */
  datatype Proposal = Proposal(bids: seq<Order>, asks: seq<Order>)

  /** Current-book scores: per side, and the combination (Qmin or Q_token). */
  datatype Scores = Scores(qBids: real, qAsks: real, combined: real)

  function Abs(x: real): real { if x < 0.0 then -x else x }

  function Min(a: real, b: real): real { if a <= b then a else b }

  function Max(a: real, b: real): real { if a >= b then a else b }

  /** A negative spread counts as zero. */
  function Clamp(s: real): real { if s < 0.0 then 0.0 else s }

  // ---------------------------------------------------------------------
  // Utility S(v, s) = ((v - s) / v)^2 * b

  /** The utility divides by v unless the (clamped) spread already exceeds v;
      it therefore fails exactly when v is zero and the spread is not positive. */
  predicate UtilityDefined(v: real, s: real) {
    v != 0.0 || s > 0.0
  }

  function Utility(v: real, s: real, b: real): (r: real)
    requires UtilityDefined(v, s)
    ensures Max(s, 0.0) > v ==> r == 0.0
    ensures v > 0.0 && s <= 0.0 ==> r == b
    ensures v > 0.0 && s == v ==> r == 0.0
    ensures v > 0.0 && b >= 0.0 ==> 0.0 <= r <= b
  {
    var c := Clamp(s);
    if c > v then 0.0
    else
      var ratio := (v - c) / v;
      UnitSquare(ratio, b);
      ratio * ratio * b
  }

  lemma UnitSquare(x: real, b: real)
    ensures 0.0 <= x <= 1.0 && b >= 0.0 ==> 0.0 <= x * x * b <= b
  {
    if 0.0 <= x <= 1.0 && b >= 0.0 {
      assert x * x <= x * 1.0;
      assert x * x * b <= 1.0 * b;
    }
  }

  /** A wider spread never earns more: the utility is non-increasing in s. */
  lemma UtilityMonotone(v: real, s1: real, s2: real, b: real)
    requires v > 0.0 && b >= 0.0 && s1 <= s2
    ensures Utility(v, s2, b) <= Utility(v, s1, b)
  {
    if Clamp(s2) <= v {
      MonotoneInside(v, s1, s2, b);
    } else {
      assert Utility(v, s2, b) == 0.0 <= Utility(v, s1, b);
    }
  }

  lemma MonotoneInside(v: real, s1: real, s2: real, b: real)
    requires v > 0.0 && b >= 0.0 && s1 <= s2 && Clamp(s2) <= v
    ensures Utility(v, s2, b) <= Utility(v, s1, b)
  {
    var x1, x2 := RatiosOrdered(v, s1, s2, b);
    SquareMonotone(x2, x1, b);
    Chain(Utility(v, s2, b), x2 * x2 * b, x1 * x1 * b, Utility(v, s1, b));
  }

  /** The two utilities as squared ratios, the wider spread's ratio the smaller. */
  lemma RatiosOrdered(v: real, s1: real, s2: real, b: real) returns (x1: real, x2: real)
    requires v > 0.0 && s1 <= s2 && Clamp(s2) <= v
    ensures 0.0 <= x2 <= x1
    ensures Utility(v, s1, b) == x1 * x1 * b && Utility(v, s2, b) == x2 * x2 * b
  {
    x1 := UtilityAsSquare(v, s1, b);
    x2 := UtilityAsSquare(v, s2, b);
    RatioMonotone(v, Clamp(s1), Clamp(s2));
  }

  lemma Chain(a: real, p: real, q: real, d: real)
    requires a == p && p <= q && q == d
    ensures a <= d
  {
  }

  /** Within the boundary the utility is the squared ratio times b. */
  lemma UtilityAsSquare(v: real, s: real, b: real) returns (x: real)
    requires v > 0.0 && Clamp(s) <= v
    ensures x == (v - Clamp(s)) / v && Utility(v, s, b) == x * x * b
  {
    x := (v - Clamp(s)) / v;
  }

  lemma RatioMonotone(v: real, c1: real, c2: real)
    requires v > 0.0 && 0.0 <= c1 <= c2 <= v
    ensures 0.0 <= (v - c2) / v <= (v - c1) / v
  {
  }

  lemma SquareMonotone(x: real, y: real, b: real)
    requires 0.0 <= x <= y && b >= 0.0
    ensures x * x * b <= y * y * b
  {
    assert x * x <= x * y <= y * y;
  }

  /** Halfway to the boundary the utility is a quarter of the multiplier. */
  lemma UtilityHalfway(v: real, b: real)
    requires v > 0.0
    ensures Utility(v, v / 2.0, b) == b / 4.0
  {
    var ratio := (v - v / 2.0) / v;
    assert ratio == 0.5;
  }

  // ---------------------------------------------------------------------
  // Per-side score

  /** Every order of the list can be scored without dividing by zero. */
  predicate Scorable(orders: seq<Order>, mid: real, v: real) {
    v != 0.0 || forall o :: o in orders ==> o.price != mid
  }

  function Spread(o: Order, mid: real): real {
    Abs(o.price - mid) * 100.0
  }

  function Term(o: Order, mid: real, v: real, b: real): real
    requires v != 0.0 || o.price != mid
  {
    Utility(v, Spread(o, mid), b) * o.size
  }

  /** The sum of utility times size over the orders, from the back. */
  function SideScore(orders: seq<Order>, mid: real, v: real, b: real): real
    requires Scorable(orders, mid, v)
  {
    if orders == [] then 0.0
    else
      var init := orders[..|orders| - 1];
      assert forall o :: o in init ==> o in orders;
      SideScore(init, mid, v, b) + Term(orders[|orders| - 1], mid, v, b)
  }

  /** score_side: accumulate utility * size over the orders. */
  method ScoreSide(orders: seq<Order>, mid: real, v: real, b: real) returns (total: real)
    requires Scorable(orders, mid, v)
    ensures total == SideScore(orders, mid, v, b)
  {
    total := 0.0;
    var i := 0;
    PrefixScorable(orders, 0, mid, v);
    while i < |orders|
      invariant 0 <= i <= |orders|
      invariant Scorable(orders[..i], mid, v)
      invariant total == SideScore(orders[..i], mid, v, b)
    {
      var o := orders[i];
      var s := Abs(o.price - mid) * 100.0;
      SideScoreStep(orders, i, mid, v, b);
      assert s == Spread(o, mid);
      total := total + Utility(v, s, b) * o.size;
      i := i + 1;
    }
    assert orders[..i] == orders;
  }

  lemma PrefixScorable(orders: seq<Order>, i: int, mid: real, v: real)
    requires Scorable(orders, mid, v) && 0 <= i <= |orders|
    ensures Scorable(orders[..i], mid, v)
  {
    assert forall o :: o in orders[..i] ==> o in orders;
  }

  /** The score of one more order of the list adds that order's term. */
  lemma SideScoreStep(orders: seq<Order>, i: int, mid: real, v: real, b: real)
    requires Scorable(orders, mid, v) && 0 <= i < |orders|
    ensures Scorable(orders[..i], mid, v) && Scorable(orders[..i + 1], mid, v)
    ensures SideScore(orders[..i + 1], mid, v, b) == SideScore(orders[..i], mid, v, b) + Term(orders[i], mid, v, b)
  {
    PrefixScorable(orders, i, mid, v);
    PrefixScorable(orders, i + 1, mid, v);
    assert orders[..i + 1][..i] == orders[..i];
  }

  /** The score of a concatenation is the sum of the scores. */
  lemma {:induction false} SideScoreAppend(xs: seq<Order>, ys: seq<Order>, mid: real, v: real, b: real)
    requires Scorable(xs, mid, v) && Scorable(ys, mid, v)
    ensures Scorable(xs + ys, mid, v)
    ensures SideScore(xs + ys, mid, v, b) == SideScore(xs, mid, v, b) + SideScore(ys, mid, v, b)
    decreases |ys|
  {
    if ys == [] {
      assert xs + ys == xs;
    } else {
      var init := ys[..|ys| - 1];
      assert forall o :: o in init ==> o in ys;
      SideScoreAppend(xs, init, mid, v, b);
      assert (xs + ys)[..|xs + ys| - 1] == xs + init;
    }
  }

  /** Taking one order out of the list takes its term out of the score. */
  lemma SideScoreRemove(ys: seq<Order>, j: int, mid: real, v: real, b: real)
    requires Scorable(ys, mid, v) && 0 <= j < |ys|
    ensures Scorable(ys[..j] + ys[j + 1..], mid, v)
    ensures SideScore(ys, mid, v, b) == SideScore(ys[..j] + ys[j + 1..], mid, v, b) + Term(ys[j], mid, v, b)
  {
    var before, x, after := ys[..j], ys[j], ys[j + 1..];
    assert ys == before + [x] + after;
    assert forall o :: o in before ==> o in ys;
    assert forall o :: o in after ==> o in ys;
    SideScoreAppend(before, [x], mid, v, b);
    SideScoreAppend(before + [x], after, mid, v, b);
    SideScoreAppend(before, after, mid, v, b);
    assert SideScore([x], mid, v, b) == SideScore([], mid, v, b) + Term(x, mid, v, b);
  }

  /** The score does not depend on the order of the orders. */
  lemma {:induction false} SideScorePermutation(xs: seq<Order>, ys: seq<Order>, mid: real, v: real, b: real)
    requires Scorable(xs, mid, v) && Scorable(ys, mid, v)
    requires multiset(xs) == multiset(ys)
    ensures SideScore(xs, mid, v, b) == SideScore(ys, mid, v, b)
    decreases |xs|
  {
    if xs == [] {
      assert |ys| == |multiset(ys)| == 0;
    } else {
      var x := xs[|xs| - 1];
      var init := xs[..|xs| - 1];
      assert x in multiset(ys);
      var j :| 0 <= j < |ys| && ys[j] == x;
      var rest := ys[..j] + ys[j + 1..];
      SideScoreRemove(ys, j, mid, v, b);
      RemoveLast(xs);
      RemoveAt(ys, j);
      SideScorePermutation(init, rest, mid, v, b);
    }
  }

  /** Dropping the last order takes it out of the multiset. */
  lemma RemoveLast(xs: seq<Order>)
    requires xs != []
    ensures multiset(xs[..|xs| - 1]) == multiset(xs) - multiset{xs[|xs| - 1]}
    ensures forall o :: o in xs[..|xs| - 1] ==> o in xs
  {
    assert xs == xs[..|xs| - 1] + [xs[|xs| - 1]];
  }

  /** Dropping the order at `j` takes it out of the multiset. */
  lemma RemoveAt(ys: seq<Order>, j: int)
    requires 0 <= j < |ys|
    ensures multiset(ys[..j] + ys[j + 1..]) == multiset(ys) - multiset{ys[j]}
    ensures forall o :: o in ys[..j] + ys[j + 1..] ==> o in ys
  {
    assert ys == ys[..j] + [ys[j]] + ys[j + 1..];
  }

  /** With a positive spread bound, a non-negative multiplier and non-negative
      sizes the score is non-negative. */
  lemma {:induction false} SideScoreNonNegative(orders: seq<Order>, mid: real, v: real, b: real)
    requires v > 0.0 && b >= 0.0
    requires forall o :: o in orders ==> o.size >= 0.0
    ensures SideScore(orders, mid, v, b) >= 0.0
    decreases |orders|
  {
    if orders != [] {
      var init := orders[..|orders| - 1];
      var last := orders[|orders| - 1];
      assert last in orders;
      assert forall o :: o in init ==> o in orders;
      SideScoreNonNegative(init, mid, v, b);
      TermNonNegative(last, mid, v, b);
    }
  }

  lemma TermNonNegative(o: Order, mid: real, v: real, b: real)
    requires v > 0.0 && b >= 0.0 && o.size >= 0.0
    ensures Term(o, mid, v, b) >= 0.0
  {
    var u := Utility(v, Spread(o, mid), b);
    assert u >= 0.0;
    assert u * o.size >= 0.0;
  }

  // ---------------------------------------------------------------------
  // Qmin: minimum of sides, with the discounted single-sided band

  /** The two-sided band [0.10, 0.90] in which single-sided liquidity scores. */
  predicate InBand(mid: real) {
    0.10 <= mid <= 0.90
  }

  /** compute_qmin and the identical compute_qmin_tokens. Inside the band
      both sides are divided by c, so a zero c raises there and only there. */
  function Qmin(q1: real, q2: real, mid: real, c: real): (r: Result<real, ZeroDivisionError>)
    ensures r.Err? <==> InBand(mid) && c == 0.0
    ensures r.Ok? && !InBand(mid) ==> r.value == Min(q1, q2)
    ensures r.Ok? && InBand(mid) ==>
              c != 0.0 && r.value >= Min(q1, q2) && r.value >= q1 / c && r.value >= q2 / c
    ensures r.Ok? && InBand(mid) ==>
              c != 0.0 && (r.value == Min(q1, q2) || r.value == q1 / c || r.value == q2 / c)
  {
    if !InBand(mid) then Ok(Min(q1, q2))
    else if c == 0.0 then Err(ZeroDivisionError)
    else Ok(Max(Min(q1, q2), Max(q1 / c, q2 / c)))
  }

  /** The rule does not care which side is called one and which two. */
  lemma QminSymmetric(q1: real, q2: real, mid: real, c: real)
    ensures Qmin(q1, q2, mid, c) == Qmin(q2, q1, mid, c)
  {
    assert Min(q1, q2) == Min(q2, q1);
    if c != 0.0 {
      assert Max(q1 / c, q2 / c) == Max(q2 / c, q1 / c);
    }
  }

  /** With a scaling divisor of at least one and non-negative scores, Qmin
      never exceeds the larger side. */
  lemma QminAtMostLargerSide(q1: real, q2: real, mid: real, c: real)
    requires c >= 1.0 && q1 >= 0.0 && q2 >= 0.0
    ensures Qmin(q1, q2, mid, c).Ok? && Qmin(q1, q2, mid, c).value <= Max(q1, q2)
  {
    assert q1 / c <= q1 by {
      assert q1 / c * c == q1;
      assert q1 / c * c >= q1 / c * 1.0;
    }
    assert q2 / c <= q2 by {
      assert q2 / c * c == q2;
      assert q2 / c * c >= q2 / c * 1.0;
    }
  }

  /** The two worked examples: inside the band a one-sided book still earns
      a third of its larger side, outside it only the smaller side counts. */
  lemma QminExamples()
    ensures Qmin(10.0, 2.0, 0.5, 3.0) == Ok(10.0 / 3.0)
    ensures Qmin(10.0, 2.0, 0.05, 3.0) == Ok(2.0)
    ensures Qmin(10.0, 2.0, 0.5, 0.0) == Err(ZeroDivisionError)
    ensures Qmin(10.0, 2.0, 0.95, 0.0) == Ok(2.0)
  {
  }

  // ---------------------------------------------------------------------
  // Price rungs

  /** max(1, floor(v_cents / 100 / tick)): how many tick multiples are tried.
      The division raises when the tick is zero. */
  function StepCount(v: real, tick: real): (r: Result<int, ZeroDivisionError>)
    ensures r.Err? <==> tick == 0.0
    ensures r.Ok? ==> r.value >= 1 && r.value >= ((v / 100.0) / tick).Floor
    ensures r.Ok? && r.value > 1 ==> r.value == ((v / 100.0) / tick).Floor
  {
    if tick == 0.0 then Err(ZeroDivisionError)
    else
      var f := ((v / 100.0) / tick).Floor;
      Ok(if f > 1 then f else 1)
  }

  /** With a positive tick no tried rung lies further than v cents from mid,
      unless the single rung that is always tried is already further out. */
  lemma StepCountWithinSpread(v: real, tick: real)
    requires tick > 0.0
    ensures StepCount(v, tick).value == 1 || (StepCount(v, tick).value as real) * tick <= v / 100.0
  {
    var x := (v / 100.0) / tick;
    var n := StepCount(v, tick).value;
    if n > 1 {
      assert (n as real) <= x;
      assert (n as real) * tick <= x * tick;
      assert x * tick == v / 100.0;
    }
  }

  function BidPrice(mid: real, tick: real, k: int): real {
    mid - (k as real) * tick
  }

  function AskPrice(mid: real, tick: real, k: int): real {
    mid + (k as real) * tick
  }

  /** Bid rungs mid - k*tick for k = 1..n, kept when strictly inside (0, 1). */
  function BidRungs(mid: real, tick: real, n: int): (r: seq<real>)
    ensures forall j :: 0 <= j < |r| ==> 0.0 < r[j] < 1.0
    decreases n
  {
    if n <= 0 then []
    else
      var p := BidPrice(mid, tick, n);
      BidRungs(mid, tick, n - 1) + (if 0.0 < p < 1.0 then [p] else [])
  }

  /** Ask rungs mid + k*tick for k = 1..n, kept when inside (0, 1]. */
  function AskRungs(mid: real, tick: real, n: int): (r: seq<real>)
    ensures forall j :: 0 <= j < |r| ==> 0.0 < r[j] <= 1.0
    decreases n
  {
    if n <= 0 then []
    else
      var p := AskPrice(mid, tick, n);
      AskRungs(mid, tick, n - 1) + (if 0.0 < p <= 1.0 then [p] else [])
  }

  /** The bid ladder holds exactly the in-range prices mid - k*tick, 1 <= k <= n. */
  lemma {:induction false} BidRungsMembers(mid: real, tick: real, n: int, p: real)
    ensures p in BidRungs(mid, tick, n) <==>
            0.0 < p < 1.0 && exists k :: 1 <= k <= n && p == BidPrice(mid, tick, k)
    decreases n
  {
    if n > 0 {
      BidRungsMembers(mid, tick, n - 1, p);
      if p == BidPrice(mid, tick, n) && 0.0 < p < 1.0 {
        assert p in BidRungs(mid, tick, n);
      }
      if exists k :: 1 <= k <= n && p == BidPrice(mid, tick, k) {
        var k :| 1 <= k <= n && p == BidPrice(mid, tick, k);
        if k < n {
          assert exists k' :: 1 <= k' <= n - 1 && p == BidPrice(mid, tick, k');
        }
      }
    }
  }

  /** The ask ladder holds exactly the in-range prices mid + k*tick, 1 <= k <= n. */
  lemma {:induction false} AskRungsMembers(mid: real, tick: real, n: int, p: real)
    ensures p in AskRungs(mid, tick, n) <==>
            0.0 < p <= 1.0 && exists k :: 1 <= k <= n && p == AskPrice(mid, tick, k)
    decreases n
  {
    if n > 0 {
      AskRungsMembers(mid, tick, n - 1, p);
      if p == AskPrice(mid, tick, n) && 0.0 < p <= 1.0 {
        assert p in AskRungs(mid, tick, n);
      }
      if exists k :: 1 <= k <= n && p == AskPrice(mid, tick, k) {
        var k :| 1 <= k <= n && p == AskPrice(mid, tick, k);
        if k < n {
          assert exists k' :: 1 <= k' <= n - 1 && p == AskPrice(mid, tick, k');
        }
      }
    }
  }

  /** With a non-zero tick the midpoint itself is never a rung. */
  lemma MidpointNeverARung(mid: real, tick: real, n: int)
    requires tick != 0.0
    ensures mid !in BidRungs(mid, tick, n) && mid !in AskRungs(mid, tick, n)
  {
    BidRungsMembers(mid, tick, n, mid);
    AskRungsMembers(mid, tick, n, mid);
  }

  lemma FartherStep(mid: real, k: int, n: int, tick: real)
    requires k < n && tick > 0.0
    ensures BidPrice(mid, tick, n) < BidPrice(mid, tick, k)
    ensures AskPrice(mid, tick, k) < AskPrice(mid, tick, n)
  {
    var d := (n - k) as real;
    assert d * tick > 0.0;
    assert (n as real) * tick == (k as real) * tick + d * tick;
  }

  predicate Falling(s: seq<real>) {
    forall i, j :: 0 <= i < j < |s| ==> s[i] > s[j]
  }

  predicate Rising(s: seq<real>) {
    forall i, j :: 0 <= i < j < |s| ==> s[i] < s[j]
  }

  /** Appending at most one price below every earlier one keeps a ladder falling. */
  lemma FallingSnoc(prev: seq<real>, tail: seq<real>)
    requires Falling(prev) && |tail| <= 1
    requires forall p, q :: p in prev && q in tail ==> p > q
    ensures Falling(prev + tail)
  {
    var all := prev + tail;
    forall i, j | 0 <= i < j < |all|
      ensures all[i] > all[j]
    {
      if j >= |prev| {
        assert all[i] in prev && all[j] in tail;
      }
    }
  }

  /** Appending at most one price above every earlier one keeps a ladder rising. */
  lemma RisingSnoc(prev: seq<real>, tail: seq<real>)
    requires Rising(prev) && |tail| <= 1
    requires forall p, q :: p in prev && q in tail ==> p < q
    ensures Rising(prev + tail)
  {
    var all := prev + tail;
    forall i, j | 0 <= i < j < |all|
      ensures all[i] < all[j]
    {
      if j >= |prev| {
        assert all[i] in prev && all[j] in tail;
      }
    }
  }

  /** Every earlier bid rung lies above the n-th bid price. */
  lemma BidsAboveStep(mid: real, tick: real, n: int, p: real)
    requires tick > 0.0 && p in BidRungs(mid, tick, n - 1)
    ensures p > BidPrice(mid, tick, n)
  {
    BidRungsMembers(mid, tick, n - 1, p);
    var k :| 1 <= k <= n - 1 && p == BidPrice(mid, tick, k);
    FartherStep(mid, k, n, tick);
  }

  /** Every earlier ask rung lies below the n-th ask price. */
  lemma AsksBelowStep(mid: real, tick: real, n: int, p: real)
    requires tick > 0.0 && p in AskRungs(mid, tick, n - 1)
    ensures p < AskPrice(mid, tick, n)
  {
    AskRungsMembers(mid, tick, n - 1, p);
    var k :| 1 <= k <= n - 1 && p == AskPrice(mid, tick, k);
    FartherStep(mid, k, n, tick);
  }

  /** With a positive tick, bids come out in increasing k, so strictly
      falling away from the midpoint. */
  lemma {:induction false} BidRungsFalling(mid: real, tick: real, n: int)
    requires tick > 0.0
    ensures Falling(BidRungs(mid, tick, n))
    decreases n
  {
    if n > 0 {
      BidRungsFalling(mid, tick, n - 1);
      var prev := BidRungs(mid, tick, n - 1);
      var p := BidPrice(mid, tick, n);
      var tail := if 0.0 < p < 1.0 then [p] else [];
      forall x, q | x in prev && q in tail
        ensures x > q
      {
        BidsAboveStep(mid, tick, n, x);
      }
      FallingSnoc(prev, tail);
    }
  }

  /** With a positive tick, asks come out in increasing k, so strictly
      rising away from the midpoint. */
  lemma {:induction false} AskRungsRising(mid: real, tick: real, n: int)
    requires tick > 0.0
    ensures Rising(AskRungs(mid, tick, n))
    decreases n
  {
    if n > 0 {
      AskRungsRising(mid, tick, n - 1);
      var prev := AskRungs(mid, tick, n - 1);
      var p := AskPrice(mid, tick, n);
      var tail := if 0.0 < p <= 1.0 then [p] else [];
      forall x, q | x in prev && q in tail
        ensures x < q
      {
        AsksBelowStep(mid, tick, n, x);
      }
      RisingSnoc(prev, tail);
    }
  }

  /** The rung loop of propose_orders: for i in 1..n append the in-range
      bid and ask prices. */
  method GenerateRungs(mid: real, tick: real, v: real) returns (r: Result<Ladder, ZeroDivisionError>)
    ensures r.Err? <==> tick == 0.0
    ensures r.Ok? ==> r.value.bids == BidRungs(mid, tick, StepCount(v, tick).value)
    ensures r.Ok? ==> r.value.asks == AskRungs(mid, tick, StepCount(v, tick).value)
  {
    if tick == 0.0 {
      return Err(ZeroDivisionError);
    }
    var nSteps := StepCount(v, tick).value;
    var bids, asks := [], [];
    var i := 1;
    while i <= nSteps
      invariant 1 <= i <= nSteps + 1
      invariant bids == BidRungs(mid, tick, i - 1)
      invariant asks == AskRungs(mid, tick, i - 1)
    {
      var bp := mid - (i as real) * tick;
      var ap := mid + (i as real) * tick;
      assert bp == BidPrice(mid, tick, i) && ap == AskPrice(mid, tick, i);
      if 0.0 < bp < 1.0 {
        bids := bids + [bp];
      }
      if 0.0 < ap <= 1.0 {
        asks := asks + [ap];
      }
      assert bids == BidRungs(mid, tick, i);
      assert asks == AskRungs(mid, tick, i);
      i := i + 1;
    }
    r := Ok(Ladder(bids, asks));
  }

  // ---------------------------------------------------------------------
  // Budget allocation over rungs

  predicate NonZeroPrices(prices: seq<real>) {
    forall j :: 0 <= j < |prices| ==> prices[j] != 0.0
  }

  lemma DivTimes(n: real, p: real)
    requires p != 0.0
    ensures p * (n / p) == n
  {
  }

  /** The rungs whose share of the budget buys at least min_size shares, in
      rung order, each sized notional / price. */
  function Qualifying(prices: seq<real>, notional: real, minSize: real): seq<Order>
    requires NonZeroPrices(prices)
  {
    if prices == [] then []
    else
      var init := prices[..|prices| - 1];
      var p := prices[|prices| - 1];
      Qualifying(init, notional, minSize)
        + (if notional / p >= minSize then [Order(p, notional / p)] else [])
  }

  /** An order is kept exactly when it sits on a rung, is sized notional / price
      and that size reaches min_size. */
  lemma {:induction false} QualifyingMembers(prices: seq<real>, notional: real, minSize: real, o: Order)
    requires NonZeroPrices(prices)
    ensures o in Qualifying(prices, notional, minSize) <==>
            o.price in prices && o.size == notional / o.price && o.size >= minSize
    decreases |prices|
  {
    if prices != [] {
      var init := prices[..|prices| - 1];
      assert prices == init + [prices[|prices| - 1]];
      QualifyingMembers(init, notional, minSize, o);
    }
  }

  /** Index of the first price closest to mid (Python's min with a key). */
  function ClosestIndex(prices: seq<real>, mid: real): (i: nat)
    requires prices != []
    ensures i < |prices|
    ensures forall j :: 0 <= j < |prices| ==> Abs(prices[i] - mid) <= Abs(prices[j] - mid)
    ensures forall j :: 0 <= j < i ==> Abs(prices[j] - mid) > Abs(prices[i] - mid)
  {
    if |prices| == 1 then 0
    else
      var k := 1 + ClosestIndex(prices[1..], mid);
      assert prices[k] == prices[1..][k - 1];
      assert forall j :: 1 <= j < |prices| ==> prices[j] == prices[1..][j - 1];
      if Abs(prices[k] - mid) < Abs(prices[0] - mid) then k else 0
  }

  /** The allocate helper: split the budget evenly over the rungs, drop dust,
      and fall back to the whole budget on the rung nearest mid. */
  function AllocateSpec(prices: seq<real>, budget: real, mid: real, minSize: real): seq<Order>
    requires NonZeroPrices(prices)
  {
    if budget <= 0.0 || prices == [] then []
    else
      var usable := Qualifying(prices, budget / (|prices| as real), minSize);
      if usable != [] then usable
      else
        var closest := prices[ClosestIndex(prices, mid)];
        if budget / closest >= minSize then [Order(closest, budget / closest)] else []
  }

  method Allocate(prices: seq<real>, budget: real, mid: real, minSize: real) returns (usable: seq<Order>)
    requires NonZeroPrices(prices)
    ensures usable == AllocateSpec(prices, budget, mid, minSize)
  {
    if budget <= 0.0 || |prices| == 0 {
      return [];
    }
    var notionalEach := budget / (|prices| as real);
    usable := [];
    var i := 0;
    while i < |prices|
      invariant 0 <= i <= |prices|
      invariant NonZeroPrices(prices[..i])
      invariant usable == Qualifying(prices[..i], notionalEach, minSize)
    {
      var p := prices[i];
      var size := notionalEach / p;
      if size >= minSize {
        usable := usable + [Order(p, size)];
      }
      assert prices[..i + 1][..i] == prices[..i];
      i := i + 1;
    }
    assert prices[..i] == prices;
    if |usable| == 0 {
      var closest := prices[ClosestIndex(prices, mid)];
      var size := budget / closest;
      if size >= minSize {
        usable := usable + [Order(closest, size)];
      }
    }
  }

  /** Every allocated order reaches min_size, and a non-positive budget or an
      empty ladder yields nothing. */
  lemma AllocateMinSize(prices: seq<real>, budget: real, mid: real, minSize: real)
    requires NonZeroPrices(prices)
    ensures forall o :: o in AllocateSpec(prices, budget, mid, minSize) ==> o.size >= minSize
    ensures budget <= 0.0 || prices == [] ==> AllocateSpec(prices, budget, mid, minSize) == []
  {
    var r := AllocateSpec(prices, budget, mid, minSize);
    forall o | o in r
      ensures o.size >= minSize
    {
      if budget > 0.0 && prices != [] {
        var n := budget / (|prices| as real);
        if Qualifying(prices, n, minSize) != [] {
          QualifyingMembers(prices, n, minSize, o);
        }
      }
    }
  }

  /** When some rung qualifies, the result is exactly the qualifying rungs and
      each carries notional budget / len(prices): dropped rungs' money is not
      redistributed. */
  lemma AllocateEvenSplit(prices: seq<real>, budget: real, mid: real, minSize: real, o: Order)
    requires NonZeroPrices(prices) && budget > 0.0 && prices != []
    requires exists p :: p in prices && budget / (|prices| as real) / p >= minSize
    ensures o in AllocateSpec(prices, budget, mid, minSize) <==>
            o.price in prices && o.size == budget / (|prices| as real) / o.price && o.size >= minSize
    ensures o in AllocateSpec(prices, budget, mid, minSize) ==>
            o.price * o.size == budget / (|prices| as real)
  {
    var n := budget / (|prices| as real);
    EvenSplitQualifies(prices, budget, mid, minSize);
    QualifyingMembers(prices, n, minSize, o);
    if o in Qualifying(prices, n, minSize) {
      assert o.price != 0.0 by {
        var j :| 0 <= j < |prices| && prices[j] == o.price;
      }
      DivTimes(n, o.price);
    }
  }

  /** Once one rung qualifies, allocate returns the qualifying rungs. */
  lemma EvenSplitQualifies(prices: seq<real>, budget: real, mid: real, minSize: real)
    requires NonZeroPrices(prices) && budget > 0.0 && prices != []
    requires exists p :: p in prices && budget / (|prices| as real) / p >= minSize
    ensures AllocateSpec(prices, budget, mid, minSize) == Qualifying(prices, budget / (|prices| as real), minSize)
  {
    var n := budget / (|prices| as real);
    var p :| p in prices && n / p >= minSize;
    QualifyingMembers(prices, n, minSize, Order(p, n / p));
  }

  /** With every rung's size below min_size, no order qualifies. */
  lemma NoneQualifying(prices: seq<real>, notional: real, minSize: real)
    requires NonZeroPrices(prices)
    requires forall p :: p in prices ==> notional / p < minSize
    ensures Qualifying(prices, notional, minSize) == []
  {
    var usable := Qualifying(prices, notional, minSize);
    if usable != [] {
      QualifyingMembers(prices, notional, minSize, usable[0]);
      assert false;
    }
  }

  /** When no rung qualifies, at most one order remains: the whole budget on
      the rung closest to mid. */
  lemma AllocateFallback(prices: seq<real>, budget: real, mid: real, minSize: real)
    requires NonZeroPrices(prices) && budget > 0.0 && prices != []
    requires forall p :: p in prices ==> budget / (|prices| as real) / p < minSize
    ensures |AllocateSpec(prices, budget, mid, minSize)| <= 1
    ensures var c := prices[ClosestIndex(prices, mid)];
            AllocateSpec(prices, budget, mid, minSize) == (if budget / c >= minSize then [Order(c, budget / c)] else [])
    ensures forall o :: o in AllocateSpec(prices, budget, mid, minSize) ==>
              o.price in prices && o.size == budget / o.price && o.size >= minSize &&
              forall q :: q in prices ==> Abs(o.price - mid) <= Abs(q - mid)
  {
    NoneQualifying(prices, budget / (|prices| as real), minSize);
    ClosestOrder(prices, budget, mid, minSize);
  }

  /** The fallback branch of allocate, taken when nothing qualifies. */
  lemma FallbackResult(prices: seq<real>, budget: real, mid: real, minSize: real)
    requires NonZeroPrices(prices) && budget > 0.0 && prices != []
    requires Qualifying(prices, budget / (|prices| as real), minSize) == []
    ensures var c := prices[ClosestIndex(prices, mid)];
            AllocateSpec(prices, budget, mid, minSize) == (if budget / c >= minSize then [Order(c, budget / c)] else [])
  {
  }

  /** Once nothing qualifies, the allocation is the closest rung's order or
      nothing. */
  lemma ClosestOrder(prices: seq<real>, budget: real, mid: real, minSize: real)
    requires NonZeroPrices(prices) && budget > 0.0 && prices != []
    requires Qualifying(prices, budget / (|prices| as real), minSize) == []
    ensures |AllocateSpec(prices, budget, mid, minSize)| <= 1
    ensures var c := prices[ClosestIndex(prices, mid)];
            AllocateSpec(prices, budget, mid, minSize) == (if budget / c >= minSize then [Order(c, budget / c)] else [])
    ensures forall o :: o in AllocateSpec(prices, budget, mid, minSize) ==>
              o.price in prices && o.size == budget / o.price && o.size >= minSize &&
              forall q :: q in prices ==> Abs(o.price - mid) <= Abs(q - mid)
  {
    var c := prices[ClosestIndex(prices, mid)];
    var r := AllocateSpec(prices, budget, mid, minSize);
    FallbackResult(prices, budget, mid, minSize);
    if budget / c >= minSize {
      var o := Order(c, budget / c);
      assert r == [o];
      forall q | q in prices
        ensures Abs(o.price - mid) <= Abs(q - mid)
      {
        var j :| 0 <= j < |prices| && prices[j] == q;
      }
      assert o.price in prices && o.size == budget / o.price && o.size >= minSize;
    } else {
      assert r == [];
    }
  }

  // ---------------------------------------------------------------------
  // propose_orders

  /** How the budget is split between the sides: "both" halves it, "bid"
      gives it all to bids, and any other value gives it all to asks. */
  function BidBudget(usdc: real, side: string): real {
    if side == "both" then usdc / 2.0 else if side == "bid" then usdc else 0.0
  }

  function AskBudget(usdc: real, side: string): real {
    if side == "both" then usdc / 2.0 else if side == "bid" then 0.0 else usdc
  }

  lemma BudgetSplit(usdc: real, side: string)
    ensures BidBudget(usdc, side) + AskBudget(usdc, side) == usdc
    ensures side == "both" ==> BidBudget(usdc, side) == AskBudget(usdc, side)
  {
  }

  method ProposeOrders(mid: real, tick: real, v: real, minSize: real, usdc: real, side: string)
    returns (r: Result<Proposal, ZeroDivisionError>)
    ensures r.Err? <==> tick == 0.0
    ensures r.Ok? ==> r.value.bids == AllocateSpec(BidRungs(mid, tick, StepCount(v, tick).value), BidBudget(usdc, side), mid, minSize)
    ensures r.Ok? ==> r.value.asks == AllocateSpec(AskRungs(mid, tick, StepCount(v, tick).value), AskBudget(usdc, side), mid, minSize)
    ensures r.Ok? && side == "bid" ==> r.value.asks == []
    ensures r.Ok? && side != "both" && side != "bid" ==> r.value.bids == []
  {
    var rungs := GenerateRungs(mid, tick, v);
    if rungs.Err? {
      return Err(rungs.error);
    }
    var bidPrices, askPrices := rungs.value.bids, rungs.value.asks;
    var budgetBid, budgetAsk;
    if side == "both" {
      budgetBid, budgetAsk := usdc / 2.0, usdc / 2.0;
    } else if side == "bid" {
      budgetBid, budgetAsk := usdc, 0.0;
    } else {
      budgetBid, budgetAsk := 0.0, usdc;
    }
    assert budgetBid == BidBudget(usdc, side) && budgetAsk == AskBudget(usdc, side);
    assert NonZeroPrices(bidPrices) && NonZeroPrices(askPrices);
    var bids := Allocate(bidPrices, budgetBid, mid, minSize);
    var asks := Allocate(askPrices, budgetAsk, mid, minSize);
    r := Ok(Proposal(bids, asks));
  }

  /** Every allocated order sits on one of the rungs it was given. */
  lemma AllocatePricesOnRungs(prices: seq<real>, budget: real, mid: real, minSize: real)
    requires NonZeroPrices(prices)
    ensures forall o :: o in AllocateSpec(prices, budget, mid, minSize) ==> o.price in prices
  {
    forall o | o in AllocateSpec(prices, budget, mid, minSize)
      ensures o.price in prices
    {
      var n := budget / (|prices| as real);
      if Qualifying(prices, n, minSize) != [] {
        QualifyingMembers(prices, n, minSize, o);
      }
    }
  }

  /** Every proposed bid lies strictly inside (0, 1), every ask inside (0, 1],
      neither at the midpoint, and every size reaches min_size. */
  lemma ProposalSound(mid: real, tick: real, v: real, minSize: real, usdc: real, side: string)
    requires StepCount(v, tick).Ok?
    ensures forall o :: o in AllocateSpec(BidRungs(mid, tick, StepCount(v, tick).value), BidBudget(usdc, side), mid, minSize) ==>
              o.size >= minSize && 0.0 < o.price < 1.0 && o.price != mid
    ensures forall o :: o in AllocateSpec(AskRungs(mid, tick, StepCount(v, tick).value), AskBudget(usdc, side), mid, minSize) ==>
              o.size >= minSize && 0.0 < o.price <= 1.0 && o.price != mid
  {
    var n := StepCount(v, tick).value;
    var bidPrices, askPrices := BidRungs(mid, tick, n), AskRungs(mid, tick, n);
    AllocateMinSize(bidPrices, BidBudget(usdc, side), mid, minSize);
    AllocateMinSize(askPrices, AskBudget(usdc, side), mid, minSize);
    AllocatePricesOnRungs(bidPrices, BidBudget(usdc, side), mid, minSize);
    AllocatePricesOnRungs(askPrices, AskBudget(usdc, side), mid, minSize);
    MidpointNeverARung(mid, tick, n);
  }

  /** The worked example: mid 0.5, tick 0.01, v 3 cents gives bid rungs
      0.49, 0.48, 0.47 and ask rungs 0.51, 0.52, 0.53. */
  lemma ProposalExampleRungs()
    ensures StepCount(3.0, 0.01) == Ok(3)
    ensures BidRungs(0.5, 0.01, 3) == [0.49, 0.48, 0.47]
    ensures AskRungs(0.5, 0.01, 3) == [0.51, 0.52, 0.53]
  {
    assert (3.0 / 100.0) / 0.01 == 3.0;
  }

  // ---------------------------------------------------------------------
  // Scoring an existing book

  predicate Eligible(o: Order, mid: real, v: real, minSize: real) {
    o.size >= minSize && Spread(o, mid) <= v
  }

  /** The list comprehension that drops dust and out-of-spread levels. */
  function EligibleLevels(levels: seq<Order>, mid: real, v: real, minSize: real): (r: seq<Order>)
    ensures forall o :: o in r <==> o in levels && Eligible(o, mid, v, minSize)
    ensures |r| <= |levels|
    ensures |levels| == 1 ==> r == (if Eligible(levels[0], mid, v, minSize) then levels else [])
  {
    if levels == [] then []
    else
      (if Eligible(levels[0], mid, v, minSize) then [levels[0]] else [])
        + EligibleLevels(levels[1..], mid, v, minSize)
  }

  /** Filtering a concatenation filters the parts in order, so every copy of
      a level is kept, in its place. */
  lemma {:induction false} EligibleLevelsConcat(a: seq<Order>, b: seq<Order>, mid: real, v: real, minSize: real)
    ensures EligibleLevels(a + b, mid, v, minSize) == EligibleLevels(a, mid, v, minSize) + EligibleLevels(b, mid, v, minSize)
    decreases |a|
  {
    if a != [] {
      assert (a + b)[0] == a[0] && (a + b)[1..] == a[1..] + b;
      EligibleLevelsConcat(a[1..], b, mid, v, minSize);
    } else {
      assert a + b == b;
    }
  }

  /** The levels that pass only the size filter. */
  function SizedLevels(levels: seq<Order>, minSize: real): (r: seq<Order>)
    ensures forall o :: o in r <==> o in levels && o.size >= minSize
    ensures |r| <= |levels|
    ensures |levels| == 1 ==> r == (if levels[0].size >= minSize then levels else [])
  {
    if levels == [] then []
    else
      (if levels[0].size >= minSize then [levels[0]] else [])
        + SizedLevels(levels[1..], minSize)
  }

  /** Filtering a concatenation filters the parts in order. */
  lemma {:induction false} SizedLevelsConcat(a: seq<Order>, b: seq<Order>, minSize: real)
    ensures SizedLevels(a + b, minSize) == SizedLevels(a, minSize) + SizedLevels(b, minSize)
    decreases |a|
  {
    if a != [] {
      assert (a + b)[0] == a[0] && (a + b)[1..] == a[1..] + b;
      SizedLevelsConcat(a[1..], b, minSize);
    } else {
      assert a + b == b;
    }
  }

  /** The spread filter never changes the score: levels beyond v cents score
      zero anyway, so only the size filter matters. */
  lemma {:induction false} SpreadFilterRedundant(levels: seq<Order>, mid: real, v: real, b: real, minSize: real)
    requires v > 0.0
    ensures SideScore(EligibleLevels(levels, mid, v, minSize), mid, v, b)
         == SideScore(SizedLevels(levels, minSize), mid, v, b)
    decreases |levels|
  {
    if levels != [] {
      var x := levels[0];
      var restE := EligibleLevels(levels[1..], mid, v, minSize);
      var restS := SizedLevels(levels[1..], minSize);
      SpreadFilterRedundant(levels[1..], mid, v, b, minSize);
      var headE := if Eligible(x, mid, v, minSize) then [x] else [];
      var headS := if x.size >= minSize then [x] else [];
      SideScoreAppend(headE, restE, mid, v, b);
      SideScoreAppend(headS, restS, mid, v, b);
      if x.size >= minSize && !Eligible(x, mid, v, minSize) {
        assert SideScore([x], mid, v, b) == Term(x, mid, v, b) == 0.0;
      }
      if headE == [x] {
        assert SideScore([x], mid, v, b) == Term(x, mid, v, b);
      }
    }
  }

  predicate BookScorable(book: Book, mid: real, v: real, minSize: real) {
    && Scorable(EligibleLevels(book.bids, mid, v, minSize), mid, v)
    && Scorable(EligibleLevels(book.asks, mid, v, minSize), mid, v)
  }

  /** token_contribution: the side scores of the eligible levels and their sum. */
  method TokenContribution(book: Book, mid: real, v: real, b: real, minSize: real) returns (s: Scores)
    requires BookScorable(book, mid, v, minSize)
    ensures s.qBids == SideScore(EligibleLevels(book.bids, mid, v, minSize), mid, v, b)
    ensures s.qAsks == SideScore(EligibleLevels(book.asks, mid, v, minSize), mid, v, b)
    ensures s.combined == s.qBids + s.qAsks
    ensures v > 0.0 && b >= 0.0 && minSize >= 0.0 ==> s.qBids >= 0.0 && s.qAsks >= 0.0 && s.combined >= 0.0
  {
    var bids := EligibleLevels(book.bids, mid, v, minSize);
    var asks := EligibleLevels(book.asks, mid, v, minSize);
    var qBids := ScoreSide(bids, mid, v, b);
    var qAsks := ScoreSide(asks, mid, v, b);
    s := Scores(qBids, qAsks, qBids + qAsks);
    if v > 0.0 && b >= 0.0 && minSize >= 0.0 {
      SideScoreNonNegative(bids, mid, v, b);
      SideScoreNonNegative(asks, mid, v, b);
    }
  }

  /** summarize_current_book: the side scores of the eligible levels and their
      Qmin with the default scaling divisor 3. */
  method SummarizeCurrentBook(book: Book, mid: real, v: real, b: real, minSize: real) returns (s: Scores)
    requires BookScorable(book, mid, v, minSize)
    ensures s.qBids == SideScore(EligibleLevels(book.bids, mid, v, minSize), mid, v, b)
    ensures s.qAsks == SideScore(EligibleLevels(book.asks, mid, v, minSize), mid, v, b)
    ensures !InBand(mid) ==> s.combined == Min(s.qBids, s.qAsks)
    ensures InBand(mid) ==> s.combined >= Min(s.qBids, s.qAsks)
    ensures Qmin(s.qBids, s.qAsks, mid, 3.0) == Ok(s.combined)
  {
    var bids := EligibleLevels(book.bids, mid, v, minSize);
    var asks := EligibleLevels(book.asks, mid, v, minSize);
    var qBids := ScoreSide(bids, mid, v, b);
    var qAsks := ScoreSide(asks, mid, v, b);
    s := Scores(qBids, qAsks, Qmin(qBids, qAsks, mid, 3.0).value);
  }
}
