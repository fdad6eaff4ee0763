/** Walking a sorted book side to fill a quantity, with rounding against the taker at every level. */
module DepthWalk {
  import opened Arithmetic

  const MICROS: int := 1_000_000

  /** A level as it arrives: a price and size pair, a pair that is not integers, or some other shape. */
  datatype RawLevel = Level(price: int, size: int) | NonInteger | BadShape

  datatype WalkResult = Filled(consideration: int, depth: int, used: nat) | NoFill | InvalidTape

  function PriceOf(l: RawLevel): int {
    if l.Level? then l.price else 0
  }

  function SizeOf(l: RawLevel): nat {
    if l.Level? && l.size >= 0 then l.size else 0
  }

  function Min(x: int, y: int): int {
    if x <= y then x else y
  }

  /** A buy rounds each level's cost up, a sale rounds each level's proceeds down. */
  function Rounded(product: int, buy: bool): int {
    if buy then (product + MICROS - 1) / MICROS else product / MICROS
  }

  predicate GoodLevel(l: RawLevel) {
    l.Level? && 0 < l.price <= MICROS && l.size >= 0
  }

  /** Prices never improve along the side. */
  predicate InOrder(first: int, second: int, buy: bool) {
    if buy then first <= second else first >= second
  }

  ghost predicate GoodSide(levels: seq<RawLevel>, buy: bool, n: nat)
    requires n <= |levels|
  {
    && (forall i :: 0 <= i < n ==> GoodLevel(levels[i]))
    && (forall i :: 0 < i < n ==> InOrder(levels[i - 1].price, levels[i].price, buy))
  }

  // ----- the greedy fill -----

  /** What is left to fill before level `i`. */
  function Left(levels: seq<RawLevel>, quantity: nat, i: nat): nat
    requires i <= |levels|
  {
    if i == 0 then quantity
    else Left(levels, quantity, i - 1) - Min(Left(levels, quantity, i - 1), SizeOf(levels[i - 1]))
  }

  function Take(levels: seq<RawLevel>, quantity: nat, i: nat): nat
    requires i < |levels|
  {
    Min(Left(levels, quantity, i), SizeOf(levels[i]))
  }

  function Consideration(levels: seq<RawLevel>, quantity: nat, buy: bool, n: nat): int
    requires n <= |levels|
  {
    if n == 0 then 0
    else Consideration(levels, quantity, buy, n - 1)
         + Rounded(PriceOf(levels[n - 1]) * Take(levels, quantity, n - 1), buy)
  }

  function Depth(levels: seq<RawLevel>, n: nat): nat
    requires n <= |levels|
  {
    if n == 0 then 0 else Depth(levels, n - 1) + SizeOf(levels[n - 1])
  }

  function Used(levels: seq<RawLevel>, quantity: nat, n: nat): nat
    requires n <= |levels|
  {
    if n == 0 then 0
    else Used(levels, quantity, n - 1) + (if Take(levels, quantity, n - 1) > 0 then 1 else 0)
  }

  /** The quantity is filled exactly at the `n`-th level, all visited levels being good. */
  ghost predicate FilledAt(levels: seq<RawLevel>, quantity: nat, buy: bool, n: nat) {
    && 0 < n <= |levels|
    && GoodSide(levels, buy, n)
    && Left(levels, quantity, n - 1) > 0 && Left(levels, quantity, n) == 0
  }

  /** The walk meets a pair that is not integers before the quantity is filled. */
  ghost predicate RaisesAt(levels: seq<RawLevel>, quantity: nat, buy: bool, n: nat) {
    n < |levels| && GoodSide(levels, buy, n) && Left(levels, quantity, n) > 0 && levels[n].NonInteger?
  }

  lemma {:induction false} LeftDecreases(levels: seq<RawLevel>, quantity: nat, i: nat, j: nat)
    requires i <= j <= |levels|
    ensures Left(levels, quantity, j) <= Left(levels, quantity, i)
  {
    if i < j {
      LeftDecreases(levels, quantity, i, j - 1);
    }
  }

  /** At most one level completes the fill, and nothing is raised beyond it. */
  lemma FilledOnce(levels: seq<RawLevel>, quantity: nat, buy: bool, n: nat)
    requires FilledAt(levels, quantity, buy, n)
    ensures forall k: nat :: FilledAt(levels, quantity, buy, k) ==> k == n
    ensures forall k: nat :: !RaisesAt(levels, quantity, buy, k)
  {
    forall k: nat | FilledAt(levels, quantity, buy, k)
      ensures k == n
    {
      if k < n {
        LeftDecreases(levels, quantity, k, n - 1);
      } else if n < k {
        LeftDecreases(levels, quantity, n, k - 1);
      }
    }
    forall k: nat | RaisesAt(levels, quantity, buy, k)
      ensures false
    {
      if n <= k {
        LeftDecreases(levels, quantity, n, k);
      }
    }
  }

  /** What the walk of a side returns. */
  ghost function WalkOutcome(levels: seq<RawLevel>, quantity: nat, buy: bool): WalkResult {
    if exists n: nat :: FilledAt(levels, quantity, buy, n) then
      var n: nat :| FilledAt(levels, quantity, buy, n);
      Filled(Consideration(levels, quantity, buy, n), Depth(levels, n), Used(levels, quantity, n))
    else if exists n: nat :: RaisesAt(levels, quantity, buy, n) then InvalidTape
    else NoFill
  }

  /** The walk fills at `n`. */
  lemma FillsAt(levels: seq<RawLevel>, quantity: nat, buy: bool, n: nat)
    requires FilledAt(levels, quantity, buy, n)
    ensures WalkOutcome(levels, quantity, buy)
         == Filled(Consideration(levels, quantity, buy, n), Depth(levels, n), Used(levels, quantity, n))
  {
    FilledOnce(levels, quantity, buy, n);
  }

  /** The walk ends at `n` unfilled: the side is over, or the level there is refused. */
  lemma StopsAt(levels: seq<RawLevel>, quantity: nat, buy: bool, n: nat)
    requires n <= |levels| && GoodSide(levels, buy, n) && Left(levels, quantity, n) > 0
    requires n == |levels| || !GoodSide(levels, buy, n + 1)
    ensures WalkOutcome(levels, quantity, buy)
         == if n < |levels| && levels[n].NonInteger? then InvalidTape else NoFill
  {
    forall k: nat | FilledAt(levels, quantity, buy, k)
      ensures false
    {
      if k <= n {
        LeftDecreases(levels, quantity, k, n);
      }
    }
    if n < |levels| && levels[n].NonInteger? {
      assert RaisesAt(levels, quantity, buy, n);
    } else {
      assert forall k: nat :: RaisesAt(levels, quantity, buy, k) ==> k < n && GoodLevel(levels[k]);
    }
  }

  ghost predicate Walked(levels: seq<RawLevel>, quantity: nat, buy: bool, i: nat,
                         remaining: nat, consideration: int, depth: nat, used: nat) {
    && i <= |levels| && GoodSide(levels, buy, i)
    && remaining == Left(levels, quantity, i)
    && consideration == Consideration(levels, quantity, buy, i)
    && depth == Depth(levels, i) && used == Used(levels, quantity, i)
  }

  /** A good level in order carries the walk on. */
  lemma WalkOn(levels: seq<RawLevel>, quantity: nat, buy: bool, i: nat,
               remaining: nat, consideration: int, depth: nat, used: nat)
    requires i < |levels| && Walked(levels, quantity, buy, i, remaining, consideration, depth, used)
    requires GoodLevel(levels[i]) && (i > 0 ==> InOrder(levels[i - 1].price, levels[i].price, buy))
    ensures var take := Min(remaining, levels[i].size);
      Walked(levels, quantity, buy, i + 1, remaining - take,
             if take != 0 then consideration + Rounded(levels[i].price * take, buy) else consideration,
             depth + levels[i].size, if take != 0 then used + 1 else used)
  {
    var take := Min(remaining, levels[i].size);
    assert take == Take(levels, quantity, i);
    if take == 0 {
      assert levels[i].price * take == 0;
    }
  }

  /** The loop computes the outcome of the greedy fill of the levels it visits. */
  method Walk(levels: seq<RawLevel>, quantity: nat, buy: bool) returns (r: WalkResult)
    requires quantity > 0
    ensures r == WalkOutcome(levels, quantity, buy)
  {
    var remaining, consideration, depth, used := quantity, 0, 0, 0;
    var last := 0;
    for i := 0 to |levels|
      invariant remaining > 0 && depth >= 0 && used >= 0
      invariant Walked(levels, quantity, buy, i, remaining, consideration, depth, used)
      invariant i > 0 ==> last == levels[i - 1].price
    {
      var level := levels[i];
      if level.BadShape? {
        StopsAt(levels, quantity, buy, i);
        return NoFill;
      }
      if level.NonInteger? {
        StopsAt(levels, quantity, buy, i);
        return InvalidTape;
      }
      if level.price <= 0 || level.price > MICROS || level.size < 0 {
        StopsAt(levels, quantity, buy, i);
        return NoFill;
      }
      if i > 0 && ((buy && level.price < last) || (!buy && level.price > last)) {
        StopsAt(levels, quantity, buy, i);
        return NoFill;
      }
      WalkOn(levels, quantity, buy, i, remaining, consideration, depth, used);
      last := level.price;
      depth := depth + level.size;
      var take := Min(remaining, level.size);
      if take != 0 {
        consideration := consideration + Rounded(level.price * take, buy);
        remaining := remaining - take;
        used := used + 1;
      }
      if remaining == 0 {
        FillsAt(levels, quantity, buy, i + 1);
        return Filled(consideration, depth, used);
      }
    }
    StopsAt(levels, quantity, buy, |levels|);
    return NoFill;
  }

  // ----- the greedy fill is the best one -----

  function Total(fill: seq<nat>): nat {
    if |fill| == 0 then 0 else Total(fill[..|fill| - 1]) + fill[|fill| - 1]
  }

  /** Exact cost or proceeds of a fill, in millionths of a micro. */
  function Exact(levels: seq<RawLevel>, fill: seq<nat>): int
    requires |fill| <= |levels|
  {
    if |fill| == 0 then 0
    else Exact(levels, fill[..|fill| - 1]) + PriceOf(levels[|fill| - 1]) * fill[|fill| - 1]
  }

  function Greedy(levels: seq<RawLevel>, quantity: nat, n: nat): (fill: seq<nat>)
    requires n <= |levels|
    ensures |fill| == n
    ensures forall i :: 0 <= i < n ==> fill[i] == Take(levels, quantity, i)
  {
    seq(n, i requires 0 <= i < n => Take(levels, quantity, i))
  }

  /** A way to fill the quantity from the first `n` levels. */
  ghost predicate Feasible(levels: seq<RawLevel>, quantity: nat, n: nat, fill: seq<nat>)
    requires n <= |levels|
  {
    |fill| == n && Total(fill) == quantity && forall i :: 0 <= i < n ==> fill[i] <= SizeOf(levels[i])
  }

  lemma {:induction false} GreedyTotal(levels: seq<RawLevel>, quantity: nat, n: nat)
    requires n <= |levels|
    ensures Total(Greedy(levels, quantity, n)) == quantity - Left(levels, quantity, n)
  {
    if n > 0 {
      GreedyTotal(levels, quantity, n - 1);
      assert Greedy(levels, quantity, n)[..n - 1] == Greedy(levels, quantity, n - 1);
    }
  }

  lemma GreedyFeasible(levels: seq<RawLevel>, quantity: nat, buy: bool, n: nat)
    requires FilledAt(levels, quantity, buy, n)
    ensures Feasible(levels, quantity, n, Greedy(levels, quantity, n))
  {
    GreedyTotal(levels, quantity, n);
  }

  lemma {:induction false} PricesOrdered(levels: seq<RawLevel>, buy: bool, n: nat, i: nat, j: nat)
    requires n <= |levels| && GoodSide(levels, buy, n) && i <= j < n
    ensures InOrder(levels[i].price, levels[j].price, buy)
  {
    if i < j {
      PricesOrdered(levels, buy, n, i, j - 1);
    }
  }

  /** Exact cost of a fill beyond what its total would cost at price `p`. */
  function Excess(levels: seq<RawLevel>, fill: seq<nat>, p: int): int
    requires |fill| <= |levels|
  {
    if |fill| == 0 then 0
    else Excess(levels, fill[..|fill| - 1], p) + (PriceOf(levels[|fill| - 1]) - p) * fill[|fill| - 1]
  }

  lemma {:induction false} ExcessIs(levels: seq<RawLevel>, fill: seq<nat>, p: int)
    requires |fill| <= |levels|
    ensures Exact(levels, fill) == Excess(levels, fill, p) + p * Total(fill)
  {
    if |fill| > 0 {
      var k := |fill| - 1;
      ExcessIs(levels, fill[..k], p);
      Distribute(PriceOf(levels[k]), p, fill[k], Total(fill[..k]));
    }
  }

  lemma Distribute(price: int, p: int, f: int, total: int)
    ensures (price - p) * f + p * (total + f) == price * f + p * total
  {
  }

  lemma ScaledOrder(x: int, y: int, factor: int)
    requires factor > 0 ==> x <= y
    requires factor < 0 ==> x >= y
    ensures factor * x <= factor * y
  {
    if factor > 0 {
      MulMonotone(x, y, factor);
    } else if factor < 0 {
      MulMonotone(y, x, -factor);
    }
  }

  /** Levels before the last are taken whole. */
  lemma TakenWhole(levels: seq<RawLevel>, quantity: nat, buy: bool, n: nat, k: nat)
    requires FilledAt(levels, quantity, buy, n) && k < n - 1
    ensures Take(levels, quantity, k) == SizeOf(levels[k])
  {
    LeftDecreases(levels, quantity, k + 1, n - 1);
  }

  /** Against the marginal price, no part of another fill is cheaper (for a sale, dearer) than the greedy part. */
  lemma {:induction false} Exchange(levels: seq<RawLevel>, quantity: nat, buy: bool, n: nat, fill: seq<nat>, i: nat)
    requires FilledAt(levels, quantity, buy, n) && Feasible(levels, quantity, n, fill) && i <= n
    ensures var g, p := Greedy(levels, quantity, n), levels[n - 1].price;
      var best, other := Excess(levels, g[..i], p), Excess(levels, fill[..i], p);
      if buy then best <= other else best >= other
  {
    if i > 0 {
      var g, p, k := Greedy(levels, quantity, n), levels[n - 1].price, i - 1;
      Exchange(levels, quantity, buy, n, fill, k);
      assert fill[..i][..k] == fill[..k] && g[..i][..k] == g[..k];
      PricesOrdered(levels, buy, n, k, n - 1);
      if k < n - 1 {
        TakenWhole(levels, quantity, buy, n, k);
      }
      var factor := levels[k].price - p;
      if buy {
        ScaledOrder(g[k], fill[k], factor);
      } else {
        ScaledOrder(fill[k], g[k], factor);
      }
    }
  }

  /**
   * The greedy fill is a fill of the quantity from the visited levels, and of all of them it has the least
   * exact cost; for a sale, the most proceeds.
   */
  lemma GreedyOptimal(levels: seq<RawLevel>, quantity: nat, buy: bool, n: nat, fill: seq<nat>)
    requires FilledAt(levels, quantity, buy, n) && Feasible(levels, quantity, n, fill)
    ensures Feasible(levels, quantity, n, Greedy(levels, quantity, n))
    ensures var best := Exact(levels, Greedy(levels, quantity, n));
      if buy then best <= Exact(levels, fill) else best >= Exact(levels, fill)
  {
    var g, p := Greedy(levels, quantity, n), levels[n - 1].price;
    Exchange(levels, quantity, buy, n, fill, n);
    GreedyFeasible(levels, quantity, buy, n);
    ExcessIs(levels, g, p);
    ExcessIs(levels, fill, p);
    assert fill[..n] == fill && g[..n] == g;
  }

  // ----- rounding -----

  lemma RoundedBounds(product: int, buy: bool)
    ensures var scaled := MICROS * Rounded(product, buy);
      if buy then 0 <= scaled - product <= MICROS - 1 else 0 <= product - scaled <= MICROS - 1
  {
  }

  lemma GreedyNext(levels: seq<RawLevel>, quantity: nat, n: nat)
    requires 0 < n <= |levels|
    ensures Exact(levels, Greedy(levels, quantity, n))
         == Exact(levels, Greedy(levels, quantity, n - 1)) + PriceOf(levels[n - 1]) * Take(levels, quantity, n - 1)
  {
    assert Greedy(levels, quantity, n)[..n - 1] == Greedy(levels, quantity, n - 1);
  }

  /** On the right side of the exact amount, and off by less than a micro for each used level. */
  ghost predicate Close(amount: int, exact: int, used: nat, buy: bool) {
    if buy then 0 <= 1_000_000 * amount - exact <= 999_999 * used
    else 0 <= exact - 1_000_000 * amount <= 999_999 * used
  }

  lemma CloseSum(amount: int, exact: int, used: nat, step: int, product: int, more: nat, buy: bool)
    requires Close(amount, exact, used, buy) && Close(step, product, more, buy)
    ensures Close(amount + step, exact + product, used + more, buy)
  {
  }

  lemma RoundedClose(price: int, take: nat, buy: bool)
    ensures Close(Rounded(price * take, buy), price * take, if take > 0 then 1 else 0, buy)
  {
    RoundedBounds(price * take, buy);
    if take == 0 {
      assert price * take == 0;
    }
  }

  /** A buy costs at least, and a sale brings at most, the exact amount; each is off by under a micro per used level. */
  lemma {:induction false} RoundingBounds(levels: seq<RawLevel>, quantity: nat, buy: bool, n: nat)
    requires n <= |levels|
    ensures Close(Consideration(levels, quantity, buy, n), Exact(levels, Greedy(levels, quantity, n)),
                  Used(levels, quantity, n), buy)
  {
    if n > 0 {
      var price, take := PriceOf(levels[n - 1]), Take(levels, quantity, n - 1);
      RoundingBounds(levels, quantity, buy, n - 1);
      GreedyNext(levels, quantity, n);
      RoundedClose(price, take, buy);
      CloseSum(Consideration(levels, quantity, buy, n - 1), Exact(levels, Greedy(levels, quantity, n - 1)),
               Used(levels, quantity, n - 1), Rounded(price * take, buy), price * take, if take > 0 then 1 else 0, buy);
    }
  }

  /** A fill uses at least one level, and a buy of anything costs at least a micro. */
  lemma {:induction false} BuyCostPositive(levels: seq<RawLevel>, quantity: nat, n: nat)
    requires n <= |levels| && GoodSide(levels, true, n) && Left(levels, quantity, n) < quantity
    ensures Consideration(levels, quantity, true, n) >= 1
    ensures Used(levels, quantity, n) >= 1
  {
    var take := Take(levels, quantity, n - 1);
    ConsiderationNonNegative(levels, quantity, true, n - 1);
    if take == 0 {
      BuyCostPositive(levels, quantity, n - 1);
      assert PriceOf(levels[n - 1]) * take == 0;
    } else {
      assert levels[n - 1].price * take >= 1 by {
        BoundBelow(levels[n - 1].price, take);
      }
    }
  }

  lemma BoundBelow(x: int, y: int)
    requires x >= 1 && y >= 1
    ensures x * y >= 1
  {
    MulMonotone(1, x, y);
  }

  lemma {:induction false} ConsiderationNonNegative(levels: seq<RawLevel>, quantity: nat, buy: bool, n: nat)
    requires n <= |levels| && GoodSide(levels, buy, n)
    ensures Consideration(levels, quantity, buy, n) >= 0
  {
    if n > 0 {
      ConsiderationNonNegative(levels, quantity, buy, n - 1);
      MulMonotone(0, levels[n - 1].price, Take(levels, quantity, n - 1));
    }
  }

  // ----- what a side offers, and when it fills -----

  /** The sizes of the first `n` levels. */
  function Sizes(levels: seq<RawLevel>, n: nat): (sizes: seq<nat>)
    requires n <= |levels|
    ensures |sizes| == n && forall i :: 0 <= i < n ==> sizes[i] == SizeOf(levels[i])
  {
    seq(n, i requires 0 <= i < n => SizeOf(levels[i]))
  }

  /** The depth is the sum of all sizes visited, taken or not. */
  lemma {:induction false} DepthIsTotal(levels: seq<RawLevel>, n: nat)
    requires n <= |levels|
    ensures Depth(levels, n) == Total(Sizes(levels, n))
  {
    if n > 0 {
      DepthIsTotal(levels, n - 1);
      assert Sizes(levels, n)[..n - 1] == Sizes(levels, n - 1);
    }
  }

  /** What is left is what the levels so far do not offer. */
  lemma {:induction false} LeftIs(levels: seq<RawLevel>, quantity: nat, n: nat)
    requires n <= |levels|
    ensures Left(levels, quantity, n) == if quantity <= Depth(levels, n) then 0 else quantity - Depth(levels, n)
  {
    if n > 0 {
      LeftIs(levels, quantity, n - 1);
    }
  }

  /** The first `n` levels are pairs with a price in range and a size, perhaps zero, and no price improves. */
  ghost predicate ValidSide(levels: seq<RawLevel>, buy: bool, n: nat) {
    && n <= |levels|
    && (forall i :: 0 <= i < n ==> levels[i].Level? && 1 <= levels[i].price <= 1_000_000 && 0 <= levels[i].size)
    && (forall i, j :: 0 <= i < j < n ==>
          if buy then levels[i].price <= levels[j].price else levels[j].price <= levels[i].price)
  }

  lemma ValidExactly(levels: seq<RawLevel>, buy: bool, n: nat)
    requires n <= |levels|
    ensures GoodSide(levels, buy, n) <==> ValidSide(levels, buy, n)
  {
    if GoodSide(levels, buy, n) {
      forall i, j | 0 <= i < j < n
        ensures InOrder(levels[i].price, levels[j].price, buy)
      {
        PricesOrdered(levels, buy, n, i, j);
      }
    }
  }

  /** The side offers the quantity within its first `n` levels, all valid. */
  ghost predicate Offers(levels: seq<RawLevel>, quantity: nat, buy: bool, n: nat) {
    ValidSide(levels, buy, n) && quantity <= Total(Sizes(levels, n))
  }

  /** The first `n` levels are valid and offer too little, and a pair that is not integers follows. */
  ghost predicate Breaks(levels: seq<RawLevel>, quantity: nat, buy: bool, n: nat) {
    n < |levels| && ValidSide(levels, buy, n) && Total(Sizes(levels, n)) < quantity && levels[n].NonInteger?
  }

  lemma OffersFills(levels: seq<RawLevel>, quantity: nat, buy: bool, n: nat)
    requires quantity > 0 && Offers(levels, quantity, buy, n)
    ensures WalkOutcome(levels, quantity, buy).Filled?
    decreases n
  {
    DepthIsTotal(levels, n);
    LeftIs(levels, quantity, n);
    if Left(levels, quantity, n - 1) > 0 {
      ValidExactly(levels, buy, n);
      FillsAt(levels, quantity, buy, n);
    } else {
      LeftIs(levels, quantity, n - 1);
      DepthIsTotal(levels, n - 1);
      OffersFills(levels, quantity, buy, n - 1);
    }
  }

  lemma RaisesExactly(levels: seq<RawLevel>, quantity: nat, buy: bool, n: nat)
    ensures RaisesAt(levels, quantity, buy, n) <==> Breaks(levels, quantity, buy, n)
  {
    if n < |levels| {
      ValidExactly(levels, buy, n);
      DepthIsTotal(levels, n);
      LeftIs(levels, quantity, n);
    }
  }

  /**
   * A side fills exactly when valid levels at its front offer the quantity, levels of no size among them; and it
   * rejects the tape exactly when it reaches a pair that is not integers before.
   */
  lemma WalkExactly(levels: seq<RawLevel>, quantity: nat, buy: bool)
    requires quantity > 0
    ensures WalkOutcome(levels, quantity, buy).Filled? <==> exists n: nat :: Offers(levels, quantity, buy, n)
    ensures WalkOutcome(levels, quantity, buy).InvalidTape? <==> exists n: nat :: Breaks(levels, quantity, buy, n)
  {
    if n: nat :| Offers(levels, quantity, buy, n) {
      OffersFills(levels, quantity, buy, n);
    }
    if n: nat :| FilledAt(levels, quantity, buy, n) {
      ValidExactly(levels, buy, n);
      DepthIsTotal(levels, n);
      LeftIs(levels, quantity, n);
      FilledOnce(levels, quantity, buy, n);
      assert Offers(levels, quantity, buy, n);
    }
    forall n: nat ensures RaisesAt(levels, quantity, buy, n) <==> Breaks(levels, quantity, buy, n) {
      RaisesExactly(levels, quantity, buy, n);
    }
  }

  // ----- both sides of an uncrossed book -----

  lemma Spread(price: int, x: int, y: int)
    ensures price * (x + y) == price * x + price * y
  {
  }

  lemma {:induction false} ExactBeyond(levels: seq<RawLevel>, buy: bool, n: nat, fill: seq<nat>, best: int)
    requires |fill| <= n <= |levels|
    requires forall i :: 0 <= i < n ==> InOrder(best, PriceOf(levels[i]), buy)
    ensures if buy then best * Total(fill) <= Exact(levels, fill) else Exact(levels, fill) <= best * Total(fill)
  {
    if |fill| > 0 {
      var k := |fill| - 1;
      ExactBeyond(levels, buy, n, fill[..k], best);
      var p := PriceOf(levels[k]);
      if buy {
        MulMonotone(best, p, fill[k]);
      } else {
        MulMonotone(p, best, fill[k]);
      }
      Spread(best, Total(fill[..k]), fill[k]);
    }
  }

  /** On a book whose best bid does not exceed its best ask, selling brings at most what buying costs. */
  lemma SaleBelowPurchase(asks: seq<RawLevel>, bids: seq<RawLevel>, quantity: nat, n: nat, k: nat)
    requires FilledAt(asks, quantity, true, n) && FilledAt(bids, quantity, false, k)
    requires bids[0].price <= asks[0].price
    ensures Consideration(bids, quantity, false, k) <= Consideration(asks, quantity, true, n)
  {
    var buys, sells := Greedy(asks, quantity, n), Greedy(bids, quantity, k);
    GreedyTotal(asks, quantity, n);
    GreedyTotal(bids, quantity, k);
    forall i | 0 <= i < n ensures InOrder(asks[0].price, PriceOf(asks[i]), true) {
      PricesOrdered(asks, true, n, 0, i);
    }
    forall i | 0 <= i < k ensures InOrder(bids[0].price, PriceOf(bids[i]), false) {
      PricesOrdered(bids, false, k, 0, i);
    }
    ExactBeyond(asks, true, n, buys, asks[0].price);
    ExactBeyond(bids, false, k, sells, bids[0].price);
    MulMonotone(bids[0].price, asks[0].price, quantity);
    RoundingBounds(asks, quantity, true, n);
    RoundingBounds(bids, quantity, false, k);
  }
}
