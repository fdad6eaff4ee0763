/** Ceiling cost allocation over chains of partial disposals. */
module CostChain {
  import opened Results
  import opened Arithmetic
  import opened LedgerTypes
  import opened LedgerSpec
  import opened LedgerTransitions

  /** The position after disposing of `quantity`. */
  function Dispose(p: CostPosition, quantity: int): Outcome<CostPosition> {
    var cost :- AllocateCost(p, quantity);
    Ok(CostPosition(p.quantity - quantity, p.cost - cost))
  }

  /** A chain of disposals with no additions between them. */
  function DisposeAll(p: CostPosition, quantities: seq<int>): Outcome<CostPosition>
    decreases |quantities|
  {
    if |quantities| == 0 then Ok(p)
    else
      var next :- Dispose(p, quantities[0]);
      DisposeAll(next, quantities[1..])
  }

  /** The cost the chain releases. */
  function Released(p: CostPosition, quantities: seq<int>): int
    requires DisposeAll(p, quantities).Ok?
    decreases |quantities|
  {
    if |quantities| == 0 then 0
    else
      AllocateCost(p, quantities[0]).value + Released(Dispose(p, quantities[0]).value, quantities[1..])
  }

  /** One disposal: the average cost does not rise and the rest is short of its share by less than a micro. */
  lemma DisposeBounds(p: CostPosition, quantity: int)
    requires Dispose(p, quantity).Ok?
    ensures var r := Dispose(p, quantity).value;
      && 0 <= r.quantity < p.quantity && 0 <= r.cost <= p.cost
      && (r.quantity == 0 ==> r.cost == 0)
      && r.cost * p.quantity <= p.cost * r.quantity
      && p.cost * r.quantity - r.cost * p.quantity <= p.quantity - 1
  {
    AllocateBounds(p, quantity);
    var r := Dispose(p, quantity).value;
    if quantity < p.quantity {
      var cost := p.cost - r.cost;
      CeilingSpec(p.cost * quantity, p.quantity);
      ShareAlgebra(p.cost, p.quantity, quantity, cost);
    }
  }

  lemma ShareAlgebra(c: int, q: int, d: int, cost: int)
    requires (cost - 1) * q < c * d <= cost * q
    ensures 0 <= c * (q - d) - (c - cost) * q <= q - 1
  {
    assert c * (q - d) == c * q - c * d;
    assert (c - cost) * q == c * q - cost * q;
    assert (cost - 1) * q == cost * q - q;
  }

  lemma ShareIdentity(c0: int, q0: int, c1: int, q1: int, ck: int, qk: int)
    ensures (c0 * qk - ck * q0) * q1 == (c0 * q1 - c1 * q0) * qk + (c1 * qk - ck * q1) * q0
  {
    assert (c0 * qk - ck * q0) * q1 == c0 * qk * q1 - ck * q0 * q1;
    assert (c0 * q1 - c1 * q0) * qk == c0 * qk * q1 - c1 * q0 * qk;
    assert (c1 * qk - ck * q1) * q0 == c1 * q0 * qk - ck * q0 * q1;
  }

  lemma BoundProduct(x: int, n: int, y: int, m: int)
    requires 0 <= x <= n && 0 <= y <= m
    ensures 0 <= x * y <= n * m
  {
    MulMonotone(0, x, y);
    MulMonotone(x, n, y);
    MulMonotone(y, m, n);
  }

  lemma ShareBelow(x: int, y: int, z: int, q0: int, q1: int, qk: int, k: nat)
    requires 0 < q1 <= q0 && 0 <= qk <= q1
    requires z * q1 == x * qk + y * q0 && 0 <= x <= q0 - 1 && 0 <= y <= k * q1
    ensures 0 <= z < (k + 1) * q0
  {
    BoundProduct(x, q0 - 1, qk, q1);
    BoundProduct(y, k * q1, q0, q0);
    MulCancel(-1, z, q1);
    ShareTop(q0, q1, k);
    MulCancel(z, (k + 1) * q0, q1);
  }

  lemma ShareTop(q0: int, q1: int, k: nat)
    ensures ((k + 1) * q0) * q1 == (q0 - 1) * q1 + (k * q1) * q0 + q1
  {
    assert ((k + 1) * q0) * q1 == (k * q0 + q0) * q1;
    assert (k * q0) * q1 == (k * q1) * q0;
  }

  /** Combining one disposal with the rest of the chain, all relative to the first position. */
  lemma ShareChain(c0: int, q0: int, c1: int, q1: int, ck: int, qk: int, k: nat)
    requires 0 < q1 <= q0 && 0 <= qk <= q1
    requires 0 <= c0 * q1 - c1 * q0 <= q0 - 1
    requires 0 <= c1 * qk - ck * q1 <= k * q1
    ensures 0 <= c0 * qk - ck * q0 < (k + 1) * q0
  {
    ShareIdentity(c0, q0, c1, q1, ck, qk);
    ShareBelow(c0 * q1 - c1 * q0, c1 * qk - ck * q1, c0 * qk - ck * q0, q0, q1, qk, k);
  }

  /**
   * Over any chain of `k >= 1` disposals: the remaining cost is never negative, the average cost never
   * rises, the remaining cost is short of the exact proportional share by less than `k` micros, and what
   * was released plus what remains is the original cost, all of it released when the position empties.
   */
  lemma {:induction false} ChainBounds(p: CostPosition, quantities: seq<int>)
    requires |quantities| >= 1 && DisposeAll(p, quantities).Ok?
    ensures var r := DisposeAll(p, quantities).value;
      && 0 <= r.quantity < p.quantity && 0 <= r.cost <= p.cost
      && r.cost * p.quantity <= p.cost * r.quantity
      && p.cost * r.quantity - r.cost * p.quantity < |quantities| * p.quantity
      && Released(p, quantities) + r.cost == p.cost
      && (r.quantity == 0 ==> r.cost == 0 && Released(p, quantities) == p.cost)
    decreases |quantities|
  {
    var next, rest := Dispose(p, quantities[0]).value, quantities[1..];
    var r := DisposeAll(p, quantities).value;
    DisposeBounds(p, quantities[0]);
    if |rest| == 0 {
      assert Released(p, quantities) == AllocateCost(p, quantities[0]).value;
      assert r == next;
    } else {
      ChainBounds(next, rest);
      ShareChain(p.cost, p.quantity, next.cost, next.quantity, r.cost, r.quantity, |rest|);
    }
  }
}
