/** Sorting a sequence by a total preorder. */
module Sorting {

  ghost predicate TotalPreorder<T(!new)>(leq: (T, T) -> bool) {
    && (forall x, y :: leq(x, y) || leq(y, x))
    && (forall x, y, z :: leq(x, y) && leq(y, z) ==> leq(x, z))
  }

  ghost predicate Ascending<T>(s: seq<T>, leq: (T, T) -> bool) {
    forall i, j :: 0 <= i < j < |s| ==> leq(s[i], s[j])
  }

  function Insert<T(!new)>(x: T, s: seq<T>, leq: (T, T) -> bool): (r: seq<T>)
    requires TotalPreorder(leq) && Ascending(s, leq)
    ensures Ascending(r, leq) && multiset(r) == multiset(s) + multiset{x}
  {
    if |s| == 0 || leq(x, s[0]) then [x] + s
    else
      var rest := Insert(x, s[1..], leq);
      assert s == [s[0]] + s[1..];
      assert forall k :: 0 <= k < |rest| ==> leq(s[0], rest[k]) by {
        InsertedAfter(x, s, rest, leq);
      }
      [s[0]] + rest
  }

  lemma InsertedAfter<T(!new)>(x: T, s: seq<T>, rest: seq<T>, leq: (T, T) -> bool)
    requires TotalPreorder(leq) && Ascending(s, leq) && |s| > 0 && !leq(x, s[0])
    requires multiset(rest) == multiset(s[1..]) + multiset{x}
    ensures forall k :: 0 <= k < |rest| ==> leq(s[0], rest[k])
  {
    forall k | 0 <= k < |rest|
      ensures leq(s[0], rest[k])
    {
      assert rest[k] in multiset(rest);
      if rest[k] != x {
        assert rest[k] in s[1..];
      }
    }
  }

  /** The elements of `s` in ascending order. */
  function Sort<T(!new)>(s: seq<T>, leq: (T, T) -> bool): (r: seq<T>)
    requires TotalPreorder(leq)
    ensures Ascending(r, leq) && multiset(r) == multiset(s)
  {
    if |s| == 0 then []
    else
      assert s == [s[0]] + s[1..];
      Insert(s[0], Sort(s[1..], leq), leq)
  }

  // ----- stability -----

  /** The elements that neither precede nor follow `x`, in their order. */
  function Alike<T>(s: seq<T>, x: T, leq: (T, T) -> bool): seq<T> {
    if |s| == 0 then []
    else (if leq(s[0], x) && leq(x, s[0]) then [s[0]] else []) + Alike(s[1..], x, leq)
  }

  lemma {:induction false} InsertStable<T(!new)>(e: T, s: seq<T>, leq: (T, T) -> bool, x: T)
    requires TotalPreorder(leq) && Ascending(s, leq)
    ensures Alike(Insert(e, s, leq), x, leq) == Alike([e] + s, x, leq)
  {
    assert ([e] + s)[1..] == s;
    if |s| > 0 && !leq(e, s[0]) {
      var rest := Insert(e, s[1..], leq);
      InsertStable(e, s[1..], leq, x);
      assert ([s[0]] + rest)[1..] == rest && ([e] + s[1..])[1..] == s[1..];
      assert Insert(e, s, leq) == [s[0]] + rest;
    }
  }

  /** Sorting keeps equals in the order they were given. */
  lemma {:induction false} SortStable<T(!new)>(s: seq<T>, leq: (T, T) -> bool, x: T)
    requires TotalPreorder(leq)
    ensures Alike(Sort(s, leq), x, leq) == Alike(s, x, leq)
  {
    if |s| > 0 {
      var rest := Sort(s[1..], leq);
      SortStable(s[1..], leq, x);
      InsertStable(s[0], rest, leq, x);
      assert ([s[0]] + rest)[1..] == rest;
    }
  }
}
