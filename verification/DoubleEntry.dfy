/** Double-entry posting and what it does to every balance and every group of balances. */
module DoubleEntry {
  import opened Results
  import opened LedgerTypes
  import opened MapSums

  /** What a sum ranges over: one balance, or an asset's balances in a set of account kinds. */
  datatype Selector = One(key: Key) | Band(asset: Asset, kinds: set<nat>)

  predicate Hits(sel: Selector, k: Key) {
    match sel
    case One(key) => k == key
    case Band(asset, kinds) => k.asset == asset && Kind(k.account) in kinds
  }

  ghost function Selected(b: Balances, sel: Selector): Balances {
    map k | k in b && Hits(sel, k) :: b[k]
  }

  ghost function Sum(b: Balances, sel: Selector): int {
    MapSum(Selected(b, sel))
  }

  /** The first `h` account kinds. */
  function Upto(h: nat): (s: set<nat>)
    ensures forall k: nat :: k in s <==> k < h
  {
    if h == 0 then {} else Upto(h - 1) + {h - 1}
  }

  /** All of an asset's balances. */
  function Whole(a: Asset): Selector {
    Band(a, Upto(KINDS))
  }

  lemma SumOne(b: Balances, k: Key)
    ensures Sum(b, One(k)) == Bal(b, k)
  {
    var m := Selected(b, One(k));
    if k in b {
      MapSumRemove(m, k);
      assert (m - {k}).Keys == {};
    } else {
      assert m.Keys == {};
    }
  }

  lemma SumSet(b: Balances, k: Key, v: int, sel: Selector)
    ensures Sum(b[k := v], sel) == Sum(b, sel) + (if Hits(sel, k) then v - Bal(b, k) else 0)
  {
    var m := Selected(b, sel);
    if Hits(sel, k) {
      MapSumSet(m, k, v);
      assert Selected(b[k := v], sel) == m[k := v];
    } else {
      assert Selected(b[k := v], sel) == m;
    }
  }

  function NonZero(b: Balances): Balances {
    map k | k in b && b[k] != 0 :: b[k]
  }

  lemma SumNonZero(b: Balances, sel: Selector)
    ensures Sum(NonZero(b), sel) == Sum(b, sel)
  {
    var all := Selected(b, sel);
    var zeros := map k | k in all && all[k] == 0 :: all[k];
    MapSumSplit(all, Selected(NonZero(b), sel), zeros);
    MapSumZeros(zeros);
  }

  lemma SumSplit(b: Balances, a: Asset, whole: set<nat>, left: set<nat>, right: set<nat>)
    requires left !! right && whole == left + right
    ensures Sum(b, Band(a, whole)) == Sum(b, Band(a, left)) + Sum(b, Band(a, right))
  {
    MapSumSplit(Selected(b, Band(a, whole)), Selected(b, Band(a, left)), Selected(b, Band(a, right)));
  }

  // ----- post -----

  function NonZeroCount(ps: seq<Posting>): nat {
    if |ps| == 0 then 0
    else NonZeroCount(ps[..|ps| - 1]) + (if ps[|ps| - 1].delta != 0 then 1 else 0)
  }

  datatype Tally = Tally(totals: map<Asset, int>, balances: Balances)

  function TotalOf(totals: map<Asset, int>, a: Asset): int {
    if a in totals then totals[a] else 0
  }

  /** Each asset's total is zero. */
  predicate Cancels(totals: map<Asset, int>) {
    forall a :: a in totals ==> totals[a] == 0
  }

  function PostEntry(t: Tally, p: Posting): Outcome<Tally> {
    if p.delta == 0 then Ok(t)
    else if !Compatible(p.key) then Err(AccountAsset)
    else
      var total :- CheckedAdd(TotalOf(t.totals, p.key.asset), p.delta);
      var balance :- CheckedAdd(Bal(t.balances, p.key), p.delta);
      if RequiresNonNegative(p.key.account) && balance < 0 then Err(NegativeBalance)
      else Ok(Tally(t.totals[p.key.asset := total], t.balances[p.key := balance]))
  }

  function PostEntries(b: Balances, ps: seq<Posting>): Outcome<Tally> {
    if |ps| == 0 then Ok(Tally(map[], b))
    else
      var t :- PostEntries(b, ps[..|ps| - 1]);
      PostEntry(t, ps[|ps| - 1])
  }

  function Post(b: Balances, ps: seq<Posting>): Outcome<Balances> {
    if NonZeroCount(ps) < 2 then Err(PostingCount)
    else
      var t :- PostEntries(b, ps);
      if !Cancels(t.totals) then Err(Unbalanced) else Ok(NonZero(t.balances))
  }

  // ----- effect -----

  /** What the postings add to a selection. */
  ghost function Delta(ps: seq<Posting>, sel: Selector): int {
    if |ps| == 0 then 0
    else Delta(ps[..|ps| - 1], sel) + (if Hits(sel, ps[|ps| - 1].key) then ps[|ps| - 1].delta else 0)
  }

  ghost function At(ps: seq<Posting>, i: nat, sel: Selector): int {
    if i < |ps| && Hits(sel, ps[i].key) then ps[i].delta else 0
  }

  ghost function DeltaTo(ps: seq<Posting>, n: nat, sel: Selector): int {
    Delta(if n < |ps| then ps[..n] else ps, sel)
  }

  lemma DeltaNext(ps: seq<Posting>, n: nat, sel: Selector)
    ensures DeltaTo(ps, n + 1, sel) == DeltaTo(ps, n, sel) + At(ps, n, sel)
  {
    if n < |ps| {
      assert ps[..n + 1][..n] == ps[..n];
      assert n + 1 == |ps| ==> ps[..n + 1] == ps;
    }
  }

  /** The effect of a transaction of at most eight postings, written out. */
  lemma DeltaUnrolled(ps: seq<Posting>, sel: Selector)
    requires |ps| <= 8
    ensures Delta(ps, sel)
         == At(ps, 0, sel) + At(ps, 1, sel) + At(ps, 2, sel) + At(ps, 3, sel)
          + At(ps, 4, sel) + At(ps, 5, sel) + At(ps, 6, sel) + At(ps, 7, sel)
  {
    DeltaNext(ps, 0, sel);
    DeltaNext(ps, 1, sel);
    DeltaNext(ps, 2, sel);
    DeltaNext(ps, 3, sel);
    DeltaNext(ps, 4, sel);
    DeltaNext(ps, 5, sel);
    DeltaNext(ps, 6, sel);
    DeltaNext(ps, 7, sel);
    assert |ps| > 0 ==> ps[..0] == [];
  }

  lemma {:induction false} DeltaMiss(ps: seq<Posting>, sel: Selector)
    requires forall i :: 0 <= i < |ps| ==> !Hits(sel, ps[i].key)
    ensures Delta(ps, sel) == 0
  {
    if |ps| > 0 {
      DeltaMiss(ps[..|ps| - 1], sel);
    }
  }

  lemma {:induction false} DeltaHit(ps: seq<Posting>, i: nat)
    requires i < |ps| && DistinctKeys(ps)
    ensures Delta(ps, One(ps[i].key)) == ps[i].delta
  {
    if i == |ps| - 1 {
      DeltaMiss(ps[..i], One(ps[i].key));
    } else {
      DeltaHit(ps[..|ps| - 1], i);
    }
  }

  lemma {:induction false} CountTwo(ps: seq<Posting>, i: nat, j: nat)
    requires i < j < |ps| && ps[i].delta != 0 && ps[j].delta != 0
    ensures NonZeroCount(ps) >= 2
  {
    if j < |ps| - 1 {
      CountTwo(ps[..|ps| - 1], i, j);
    } else {
      CountOne(ps[..j], i);
    }
  }

  lemma {:induction false} CountOne(ps: seq<Posting>, i: nat)
    requires i < |ps| && ps[i].delta != 0
    ensures NonZeroCount(ps) >= 1
  {
    if i < |ps| - 1 {
      CountOne(ps[..|ps| - 1], i);
    }
  }

  lemma {:induction false} EntriesEffect(b: Balances, ps: seq<Posting>, sel: Selector)
    requires PostEntries(b, ps).Ok?
    ensures Sum(PostEntries(b, ps).value.balances, sel) == Sum(b, sel) + Delta(ps, sel)
  {
    if |ps| > 0 {
      var n := |ps| - 1;
      EntriesEffect(b, ps[..n], sel);
      var t := PostEntries(b, ps[..n]).value;
      var p := ps[n];
      if p.delta != 0 {
        SumSet(t.balances, p.key, Bal(t.balances, p.key) + p.delta, sel);
      }
    }
  }

  lemma {:induction false} EntriesTotals(b: Balances, ps: seq<Posting>, a: Asset)
    requires PostEntries(b, ps).Ok?
    ensures TotalOf(PostEntries(b, ps).value.totals, a) == Delta(ps, Whole(a))
  {
    if |ps| > 0 {
      EntriesTotals(b, ps[..|ps| - 1], a);
    }
  }

  /** A successful posting adds exactly its deltas to every selection of balances. */
  lemma PostEffect(b: Balances, ps: seq<Posting>, sel: Selector)
    requires Post(b, ps).Ok?
    ensures Sum(Post(b, ps).value, sel) == Sum(b, sel) + Delta(ps, sel)
  {
    EntriesEffect(b, ps, sel);
    SumNonZero(PostEntries(b, ps).value.balances, sel);
  }

  lemma PostBalance(b: Balances, ps: seq<Posting>, k: Key)
    requires Post(b, ps).Ok?
    ensures Bal(Post(b, ps).value, k) == Bal(b, k) + Delta(ps, One(k))
  {
    PostEffect(b, ps, One(k));
    SumOne(b, k);
    SumOne(Post(b, ps).value, k);
  }

  /** Every asset's postings cancel whenever a posting is accepted. */
  lemma PostBalanced(b: Balances, ps: seq<Posting>, a: Asset)
    requires Post(b, ps).Ok?
    ensures Delta(ps, Whole(a)) == 0
  {
    EntriesTotals(b, ps, a);
  }

  // ----- which errors a well-formed transaction can meet -----

  ghost predicate EntryOk(b: Balances, k: Key)
    requires k in b
  {
    Fits(b[k]) && Compatible(k) && (RequiresNonNegative(k.account) ==> b[k] >= 0)
  }

  /** Entries of an accepted posting are compatible, in range, and non-negative where required. */
  lemma {:induction false} EntriesSound(b: Balances, ps: seq<Posting>)
    requires PostEntries(b, ps).Ok?
    requires forall k :: k in b ==> EntryOk(b, k)
    ensures var c := PostEntries(b, ps).value.balances; forall k :: k in c ==> EntryOk(c, k)
  {
    if |ps| > 0 {
      EntriesSound(b, ps[..|ps| - 1]);
    }
  }

  ghost predicate DistinctKeys(ps: seq<Posting>) {
    forall i, j :: 0 <= i < j < |ps| ==> ps[i].key != ps[j].key
  }

  /** Balanced, compatible, at least two entries: what every command hands to `post`. */
  ghost predicate WellFormed(ps: seq<Posting>) {
    && |ps| <= 8
    && DistinctKeys(ps)
    && NonZeroCount(ps) >= 2
    && (forall i :: 0 <= i < |ps| ==> Compatible(ps[i].key) && Fits(ps[i].delta))
    && (forall i :: 0 <= i < |ps| && ps[i].key.account.External? ==> ps[i].key.asset.Outcome?)
    && (forall i :: 0 <= i < |ps| && (ps[i].key.account.TradingRevenue? || ps[i].key.account.CapitalContributed?)
          ==> ps[i].delta <= 0)
    && (forall a :: Delta(ps, Whole(a)) == 0)
  }

  ghost predicate Covered(b: Balances, ps: seq<Posting>) {
    forall i :: 0 <= i < |ps| && RequiresNonNegative(ps[i].key.account)
      ==> Bal(b, ps[i].key) + ps[i].delta >= 0
  }

  lemma {:induction false} EntriesErrors(b: Balances, ps: seq<Posting>, n: nat)
    requires n <= |ps| && WellFormed(ps)
    ensures var r := PostEntries(b, ps[..n]);
      && (r.Err? ==> r.error == Overflow || r.error == NegativeBalance)
      && (r.Err? && Covered(b, ps) ==> r.error == Overflow)
      && (r.Ok? ==> forall i :: n <= i < |ps| ==> Bal(r.value.balances, ps[i].key) == Bal(b, ps[i].key))
  {
    if n > 0 {
      EntriesErrors(b, ps, n - 1);
      assert ps[..n][..n - 1] == ps[..n - 1];
    }
  }

  /**
   * A well-formed transaction is refused only for range or for a negative balance, and not for a
   * negative balance when every debit is covered: never as unbalanced, too short or incompatible.
   */
  lemma PostErrors(b: Balances, ps: seq<Posting>)
    requires WellFormed(ps)
    ensures var r := Post(b, ps);
      && (r.Err? ==> r.error == Overflow || r.error == NegativeBalance)
      && (r.Err? && Covered(b, ps) ==> r.error == Overflow)
  {
    EntriesErrors(b, ps, |ps|);
    assert ps[..|ps|] == ps;
    var r := PostEntries(b, ps);
    if r.Ok? {
      forall a | a in r.value.totals
        ensures r.value.totals[a] == 0
      {
        EntriesTotals(b, ps, a);
      }
    }
  }

  // ----- exactly when a well-formed transaction is posted -----

  /** At every point of the transaction each asset's running total is in range. */
  ghost predicate RunningFit(ps: seq<Posting>) {
    forall n: nat, a :: n <= |ps| ==> Fits(DeltaTo(ps, n, Whole(a)))
  }

  /** The account can take the posting: the new balance is in range, and not negative where that is forbidden. */
  ghost predicate Takes(b: Balances, p: Posting) {
    Fits(Bal(b, p.key) + p.delta) && (RequiresNonNegative(p.key.account) ==> Bal(b, p.key) + p.delta >= 0)
  }

  lemma {:induction false} EntriesExactly(b: Balances, ps: seq<Posting>, n: nat)
    requires n <= |ps| && WellFormed(ps) && RunningFit(ps)
    requires forall k :: k in b ==> EntryOk(b, k)
    ensures PostEntries(b, ps[..n]).Ok? <==> forall i :: 0 <= i < n ==> Takes(b, ps[i])
  {
    if n > 0 {
      var m: nat := n - 1;
      EntriesExactly(b, ps, m);
      EntriesErrors(b, ps, m);
      assert ps[..n][..m] == ps[..m] && ps[..n][m] == ps[m];
      if PostEntries(b, ps[..m]).Ok? {
        EntryExactly(b, ps, m);
      }
    }
  }

  lemma EntryExactly(b: Balances, ps: seq<Posting>, m: nat)
    requires m < |ps| && WellFormed(ps) && RunningFit(ps) && PostEntries(b, ps[..m]).Ok?
    requires forall k :: k in b ==> EntryOk(b, k)
    requires Bal(PostEntries(b, ps[..m]).value.balances, ps[m].key) == Bal(b, ps[m].key)
    ensures PostEntry(PostEntries(b, ps[..m]).value, ps[m]).Ok? <==> Takes(b, ps[m])
  {
    var a := ps[m].key.asset;
    EntriesTotals(b, ps[..m], a);
    DeltaNext(ps, m, Whole(a));
    assert Fits(DeltaTo(ps, m + 1, Whole(a)));
    assert DeltaTo(ps, m, Whole(a)) == Delta(ps[..m], Whole(a));
  }

  /** A well-formed transaction is posted exactly when every account it touches can take its posting. */
  lemma PostExactly(b: Balances, ps: seq<Posting>)
    requires WellFormed(ps) && RunningFit(ps) && forall k :: k in b ==> EntryOk(b, k)
    ensures Post(b, ps).Ok? <==> forall i :: 0 <= i < |ps| ==> Takes(b, ps[i])
  {
    EntriesExactly(b, ps, |ps|);
    assert ps[..|ps|] == ps;
    var r := PostEntries(b, ps);
    if r.Ok? {
      forall a | a in r.value.totals
        ensures r.value.totals[a] == 0
      {
        EntriesTotals(b, ps, a);
      }
    }
  }

  /** No account leaves the range, whatever its sign. */
  ghost predicate InRange(b: Balances, ps: seq<Posting>) {
    forall i :: 0 <= i < |ps| ==> Fits(Bal(b, ps[i].key) + ps[i].delta)
  }

  lemma EntryInRange(b: Balances, ps: seq<Posting>, m: nat)
    requires m < |ps| && WellFormed(ps) && RunningFit(ps) && PostEntries(b, ps[..m]).Ok? && InRange(b, ps)
    requires Bal(PostEntries(b, ps[..m]).value.balances, ps[m].key) == Bal(b, ps[m].key)
    ensures var r := PostEntry(PostEntries(b, ps[..m]).value, ps[m]); r.Err? ==> r.error == NegativeBalance
  {
    var a := ps[m].key.asset;
    EntriesTotals(b, ps[..m], a);
    DeltaNext(ps, m, Whole(a));
    assert Fits(DeltaTo(ps, m + 1, Whole(a)));
    assert DeltaTo(ps, m, Whole(a)) == Delta(ps[..m], Whole(a));
  }

  lemma {:induction false} EntriesInRange(b: Balances, ps: seq<Posting>, n: nat)
    requires n <= |ps| && WellFormed(ps) && RunningFit(ps) && InRange(b, ps)
    ensures var r := PostEntries(b, ps[..n]); r.Err? ==> r.error == NegativeBalance
  {
    if n > 0 {
      var m: nat := n - 1;
      EntriesInRange(b, ps, m);
      EntriesErrors(b, ps, m);
      assert ps[..n][..m] == ps[..m] && ps[..n][m] == ps[m];
      if PostEntries(b, ps[..m]).Ok? {
        EntryInRange(b, ps, m);
      }
    }
  }

  /** A well-formed transaction that keeps every account in range is refused for a negative balance only. */
  lemma PostInRange(b: Balances, ps: seq<Posting>)
    requires WellFormed(ps) && RunningFit(ps) && InRange(b, ps)
    ensures Post(b, ps).Err? ==> Post(b, ps).error == NegativeBalance
  {
    EntriesInRange(b, ps, |ps|);
    assert ps[..|ps|] == ps;
    var r := PostEntries(b, ps);
    if r.Ok? {
      forall a | a in r.value.totals
        ensures r.value.totals[a] == 0
      {
        EntriesTotals(b, ps, a);
      }
    }
  }

  /** The running totals of a transaction of at most eight postings, written out. */
  ghost predicate StepsFit(ps: seq<Posting>, a: Asset) {
    var w := Whole(a);
    var one := At(ps, 0, w);
    var two := one + At(ps, 1, w);
    var three := two + At(ps, 2, w);
    var four := three + At(ps, 3, w);
    var five := four + At(ps, 4, w);
    var six := five + At(ps, 5, w);
    var seven := six + At(ps, 6, w);
    Fits(one) && Fits(two) && Fits(three) && Fits(four) && Fits(five) && Fits(six) && Fits(seven)
    && Fits(seven + At(ps, 7, w))
  }

  lemma RunningFitBySteps(ps: seq<Posting>)
    requires |ps| <= 8 && forall a :: StepsFit(ps, a)
    ensures RunningFit(ps)
  {
    forall n: nat, a | n <= |ps|
      ensures Fits(DeltaTo(ps, n, Whole(a)))
    {
      assert StepsFit(ps, a);
      StepFits(ps, n, a);
    }
  }

  ghost function FirstSteps(ps: seq<Posting>, n: nat, w: Selector): int {
    if n == 0 then 0 else FirstSteps(ps, n - 1, w) + At(ps, n - 1, w)
  }

  lemma {:induction false} DeltaToIsSteps(ps: seq<Posting>, n: nat, w: Selector)
    ensures DeltaTo(ps, n, w) == FirstSteps(ps, n, w)
  {
    if n == 0 {
      assert |ps| > 0 ==> ps[..0] == [];
    } else {
      DeltaToIsSteps(ps, n - 1, w);
      DeltaNext(ps, n - 1, w);
    }
  }

  lemma StepsUnrolled(ps: seq<Posting>, w: Selector)
    ensures FirstSteps(ps, 0, w) == 0
    ensures FirstSteps(ps, 1, w) == FirstSteps(ps, 0, w) + At(ps, 0, w)
    ensures FirstSteps(ps, 2, w) == FirstSteps(ps, 1, w) + At(ps, 1, w)
    ensures FirstSteps(ps, 3, w) == FirstSteps(ps, 2, w) + At(ps, 2, w)
    ensures FirstSteps(ps, 4, w) == FirstSteps(ps, 3, w) + At(ps, 3, w)
    ensures FirstSteps(ps, 5, w) == FirstSteps(ps, 4, w) + At(ps, 4, w)
    ensures FirstSteps(ps, 6, w) == FirstSteps(ps, 5, w) + At(ps, 5, w)
    ensures FirstSteps(ps, 7, w) == FirstSteps(ps, 6, w) + At(ps, 6, w)
    ensures FirstSteps(ps, 8, w) == FirstSteps(ps, 7, w) + At(ps, 7, w)
  {
  }

  lemma FirstStepsFit(ps: seq<Posting>, a: Asset)
    requires StepsFit(ps, a)
    ensures forall n: nat | n <= 8 :: Fits(FirstSteps(ps, n, Whole(a)))
  {
    StepsUnrolled(ps, Whole(a));
    forall n: nat | n <= 8
      ensures Fits(FirstSteps(ps, n, Whole(a)))
    {
      assert n == 0 || n == 1 || n == 2 || n == 3 || n == 4 || n == 5 || n == 6 || n == 7 || n == 8;
    }
  }

  lemma StepFits(ps: seq<Posting>, n: nat, a: Asset)
    requires n <= |ps| <= 8 && StepsFit(ps, a)
    ensures Fits(DeltaTo(ps, n, Whole(a)))
  {
    DeltaToIsSteps(ps, n, Whole(a));
    FirstStepsFit(ps, a);
  }
}
