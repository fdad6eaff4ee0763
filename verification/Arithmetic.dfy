/** Facts about flooring division by a positive number that the solver needs spelled out. */
module Arithmetic {

  lemma MulMonotone(x: int, y: int, z: int)
    requires x <= y && z >= 0
    ensures x * z <= y * z
  {
    assert (y - x) * z >= 0;
  }

  lemma MulCancel(x: int, y: int, z: int)
    requires z > 0 && x * z < y * z
    ensures x < y
  {
    if x >= y {
      MulMonotone(y, x, z);
    }
  }

  lemma FloorSpec(x: int, d: int)
    requires d > 0
    ensures (x / d) * d <= x < (x / d) * d + d
  {
  }

  lemma FloorBelow(x: int, d: int, bound: int)
    requires d > 0 && x < bound * d
    ensures x / d < bound
  {
    FloorSpec(x, d);
    if x / d >= bound {
      MulMonotone(bound, x / d, d);
    }
  }

  lemma FloorAtLeast(x: int, d: int, bound: int)
    requires d > 0 && bound * d <= x
    ensures bound <= x / d
  {
    FloorSpec(x, d);
    if x / d + 1 <= bound {
      MulMonotone(x / d + 1, bound, d);
    }
  }

  lemma FloorMonotone(x: int, y: int, d: int)
    requires d > 0 && x <= y
    ensures x / d <= y / d
  {
    FloorSpec(x, d);
    FloorAtLeast(y, d, x / d);
  }

  /** `(x + d - 1) / d` is the ceiling of `x / d`. */
  lemma CeilingSpec(x: int, d: int)
    requires d > 0
    ensures var c := (x + d - 1) / d; (c - 1) * d < x <= c * d
  {
    var c := (x + d - 1) / d;
    FloorSpec(x + d - 1, d);
    assert (c - 1) * d == c * d - d;
  }

  /** Dividing twice is dividing by the product. */
  lemma NestedFloor(x: int, a: int, b: int, c: int)
    requires a > 0 && c > 0
    ensures a * c > 0 && (x / a - b) / c == (x - a * b) / (a * c)
  {
    var q := (x / a - b) / c;
    MulMonotone(1, a, c);
    FloorSpec(x, a);
    FloorSpec(x / a - b, c);
    MulMonotone(q * c, x / a - b, a);
    MulMonotone(x / a - b + 1, (q + 1) * c, a);
    NestedBounds(x, a, b, c, q, x / a);
    FloorAtLeast(x - a * b, a * c, q);
    FloorBelow(x - a * b, a * c, q + 1);
  }

  lemma NestedBounds(x: int, a: int, b: int, c: int, q: int, y: int)
    requires y * a <= x < y * a + a
    requires q * c * a <= (y - b) * a && (y - b + 1) * a <= (q + 1) * c * a
    ensures q * (a * c) <= x - a * b < (q + 1) * (a * c)
  {
  }
}
