/** Ascending enumeration of finite sets: the iteration order of a `BTreeMap`. */
module Ordering {

  ghost predicate StrictTotalOrder<T(!new)>(less: (T, T) -> bool) {
    && (forall x :: !less(x, x))
    && (forall x, y, z :: less(x, y) && less(y, z) ==> less(x, z))
    && (forall x, y :: x == y || less(x, y) || less(y, x))
  }

  lemma LeastExists<T(!new)>(s: set<T>, less: (T, T) -> bool) returns (least: T)
    requires s != {} && StrictTotalOrder(less)
    ensures least in s && forall y :: y in s ==> y == least || less(least, y)
  {
    var x :| x in s;
    if s == {x} {
      least := x;
    } else {
      var rest := s - {x};
      assert s == rest + {x};
      least := LeastExists(rest, less);
      if less(x, least) {
        least := x;
      }
    }
  }

  /** The elements of `s`, each once, in strictly ascending order. */
  function Sorted<T(!new)>(s: set<T>, less: (T, T) -> bool): (r: seq<T>)
    requires StrictTotalOrder(less)
    ensures forall x :: x in r <==> x in s
    ensures forall i, j :: 0 <= i < j < |r| ==> less(r[i], r[j])
  {
    if s == {} then [] else
      assert exists x :: x in s && forall y :: y in s ==> y == x || less(x, y) by {
        var least := LeastExists(s, less);
      }
      var x :| x in s && forall y :: y in s ==> y == x || less(x, y);
      [x] + Sorted(s - {x}, less)
  }

  newtype uint8 = x: int | 0 <= x < 256

  /** Byte strings, ordered as Rust orders `String`. */
  type Text = seq<uint8>

  predicate TextLess(a: Text, b: Text) {
    |b| != 0 && (|a| == 0 || a[0] < b[0] || (a[0] == b[0] && TextLess(a[1..], b[1..])))
  }

  lemma {:induction false} TextTrichotomy(a: Text, b: Text)
    ensures a == b || TextLess(a, b) || TextLess(b, a)
  {
    if |a| != 0 && |b| != 0 && a[0] == b[0] {
      TextTrichotomy(a[1..], b[1..]);
      if a[1..] == b[1..] {
        assert a == [a[0]] + a[1..] == b;
      }
    }
  }

  lemma {:induction false} TextIrreflexive(a: Text)
    ensures !TextLess(a, a)
  {
    if |a| != 0 {
      TextIrreflexive(a[1..]);
    }
  }

  lemma {:induction false} TextTransitive(a: Text, b: Text, c: Text)
    requires TextLess(a, b) && TextLess(b, c)
    ensures TextLess(a, c)
  {
    if |a| != 0 && a[0] == b[0] == c[0] {
      TextTransitive(a[1..], b[1..], c[1..]);
    }
  }
}
