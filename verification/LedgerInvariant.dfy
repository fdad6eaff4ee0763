/** The agreement of the ledger's views, and why a posting that follows the other views keeps it. */
module LedgerInvariant {
  import opened Results
  import opened LedgerTypes
  import opened MapSums
  import opened DoubleEntry
  import opened LedgerSpec

  // ----- agreement of the views -----

  /** No zero entries; each entry fits, is compatible, and has the sign of its account kind. */
  ghost predicate SoundBalances(b: Balances) {
    forall k :: k in b ==>
      && b[k] != 0 && EntryOk(b, k)
      && (!RequiresNonNegative(k.account) ==> b[k] < 0)
      && (k.account.External? ==> k.asset.Outcome?)
  }

  ghost predicate Conserved(b: Balances) {
    forall a :: Sum(b, Whole(a)) == 0
  }

  ghost predicate GoodReservation(r: Reservation, id: Id) {
    && r.id == id
    && 0 <= r.remaining <= r.original <= I128_MAX
    && r.original > 0
    && (r.status.Active? <==> r.remaining > 0)
  }

  predicate IsHeld(a: Account) {
    a.CashReserved? || a.TokenReserved?
  }

  /** Every reservation is held in its own account, and nothing else is in those accounts. */
  ghost predicate ReservationsBacked(s: Books) {
    && (forall id :: id in s.reservations ==>
          var r := s.reservations[id];
          GoodReservation(r, id) && Bal(s.balances, HeldKey(id, r.asset)) == r.remaining)
    && (forall k :: k in s.balances && IsHeld(k.account) ==>
          var id := k.account.reservation;
          id in s.reservations && k == HeldKey(id, s.reservations[id].asset))
  }

  /** Tokens not locked away: available and reserved. */
  function Loose(token: TokenKey): Selector {
    Band(Outcome(token), {2, 3})
  }

  /** A position is the quantity of loose tokens and the collateral cost carried for them. */
  ghost predicate PositionBacked(s: Books, token: TokenKey) {
    var p := Position(s.costs, token);
    && p.quantity == Sum(s.balances, Loose(token))
    && p.cost == Bal(s.balances, CostKey(token))
    && (p.quantity == 0 ==> p.cost == 0)
  }

  ghost predicate PositionsBacked(s: Books) {
    forall token :: PositionBacked(s, token)
  }

  ghost predicate GoodLock(l: PairLock, id: Id) {
    && l.id == id
    && IsPair(l.up, l.down)
    && 0 < l.quantity == l.payout <= I128_MAX
    && 0 <= l.cost <= I128_MAX
  }

  function LockedQuantity(l: PairLock): int {
    if l.status.Locked? then l.quantity else 0
  }

  function LockedCostOf(l: PairLock): int {
    if l.status.Locked? then l.cost else 0
  }

  ghost predicate LocksBacked(s: Books) {
    && (forall id :: id in s.locks ==>
          var l := s.locks[id];
          && GoodLock(l, id)
          && Bal(s.balances, LockKey(id, l.up)) == LockedQuantity(l)
          && Bal(s.balances, LockKey(id, l.down)) == LockedQuantity(l)
          && Bal(s.balances, LockCostKey(id)) == LockedCostOf(l))
    && (forall k :: k in s.balances && k.account.LockedToken? ==>
          var id := k.account.lock;
          id in s.locks && (k == LockKey(id, s.locks[id].up) || k == LockKey(id, s.locks[id].down)))
    && (forall k :: k in s.balances && k.account.LockedCost? ==> k.account.lock in s.locks)
  }

  /** The views agree: what every accepted command keeps. */
  ghost predicate Agree(s: Books) {
    && SoundBalances(s.balances)
    && Conserved(s.balances)
    && ReservationsBacked(s)
    && PositionsBacked(s)
    && LocksBacked(s)
  }

  // ----- following a transaction -----

  function Remaining(s: Books, id: Id): int {
    if id in s.reservations then s.reservations[id].remaining else 0
  }

  ghost predicate ReservationsFollow(s: Books, s': Books, ps: seq<Posting>) {
    && (forall id :: id in s.reservations ==>
          && id in s'.reservations
          && s'.reservations[id].asset == s.reservations[id].asset
          && s'.reservations[id].original == s.reservations[id].original)
    && (forall id :: id in s'.reservations ==>
          var r := s'.reservations[id];
          && GoodReservation(r, id)
          && r.remaining == Remaining(s, id) + Delta(ps, One(HeldKey(id, r.asset))))
    && (forall i :: 0 <= i < |ps| && IsHeld(ps[i].key.account) ==>
          var id := ps[i].key.account.reservation;
          id in s'.reservations && ps[i].key == HeldKey(id, s'.reservations[id].asset))
  }

  ghost predicate PositionFollows(s: Books, s': Books, ps: seq<Posting>, token: TokenKey) {
    var p, p' := Position(s.costs, token), Position(s'.costs, token);
    && p'.quantity == p.quantity + Delta(ps, Loose(token))
    && p'.cost == p.cost + Delta(ps, One(CostKey(token)))
    && (p'.quantity == 0 ==> p'.cost == 0)
  }

  ghost predicate PositionsFollow(s: Books, s': Books, ps: seq<Posting>) {
    forall token :: PositionFollows(s, s', ps, token)
  }

  function LockedBefore(s: Books, id: Id): int {
    if id in s.locks then LockedQuantity(s.locks[id]) else 0
  }

  function LockedCostBefore(s: Books, id: Id): int {
    if id in s.locks then LockedCostOf(s.locks[id]) else 0
  }

  ghost predicate LocksFollow(s: Books, s': Books, ps: seq<Posting>) {
    && (forall id :: id in s.locks ==>
          id in s'.locks && s'.locks[id].(status := Locked) == s.locks[id].(status := Locked))
    && (forall id :: id in s'.locks ==>
          var l := s'.locks[id];
          && GoodLock(l, id)
          && LockedQuantity(l) == LockedBefore(s, id) + Delta(ps, One(LockKey(id, l.up)))
          && LockedQuantity(l) == LockedBefore(s, id) + Delta(ps, One(LockKey(id, l.down)))
          && LockedCostOf(l) == LockedCostBefore(s, id) + Delta(ps, One(LockCostKey(id))))
    && (forall i :: 0 <= i < |ps| && ps[i].key.account.LockedToken? ==>
          var id := ps[i].key.account.lock;
          id in s'.locks && (ps[i].key == LockKey(id, s'.locks[id].up) || ps[i].key == LockKey(id, s'.locks[id].down)))
    && (forall i :: 0 <= i < |ps| && ps[i].key.account.LockedCost? ==> ps[i].key.account.lock in s'.locks)
  }

  /** The transaction was posted and the other views changed by exactly its amounts. */
  ghost predicate Follows(s: Books, s': Books, ps: seq<Posting>) {
    && WellFormed(ps)
    && Post(s.balances, ps) == Ok(s'.balances)
    && ReservationsFollow(s, s', ps)
    && PositionsFollow(s, s', ps)
    && LocksFollow(s, s', ps)
  }

  /** A key that appears was posted to. */
  lemma NewKeyPosted(b: Balances, ps: seq<Posting>, k: Key) returns (i: nat)
    requires Post(b, ps).Ok? && k in Post(b, ps).value && k !in b
    requires Post(b, ps).value[k] != 0
    ensures i < |ps| && ps[i].key == k
  {
    PostBalance(b, ps, k);
    if forall j :: 0 <= j < |ps| ==> ps[j].key != k {
      DeltaMiss(ps, One(k));
    }
    i :| 0 <= i < |ps| && ps[i].key == k;
  }

  lemma SumSign(b: Balances, a: Asset, kinds: set<nat>)
    requires SoundBalances(b) && forall k :: k in kinds ==> k < 8 || k == 9
    ensures Sum(b, Band(a, kinds)) >= 0
  {
    MapSumNonNegative(Selected(b, Band(a, kinds)));
  }

  /** A single balance never exceeds a non-negative group that contains it. */
  lemma SumCovers(b: Balances, k: Key, kinds: set<nat>)
    requires forall j :: j in b && Hits(Band(k.asset, kinds), j) ==> b[j] >= 0
    requires Kind(k.account) in kinds
    ensures Bal(b, k) <= Sum(b, Band(k.asset, kinds))
  {
    var m := Selected(b, Band(k.asset, kinds));
    MapSumNonNegative(m);
    if k in b {
      MapSumRemove(m, k);
      MapSumNonNegative(m - {k});
    }
  }

  lemma PostKeepsConserved(b: Balances, ps: seq<Posting>)
    requires Post(b, ps).Ok? && Conserved(b)
    ensures Conserved(Post(b, ps).value)
  {
    forall a
      ensures Sum(Post(b, ps).value, Whole(a)) == 0
    {
      PostEffect(b, ps, Whole(a));
      PostBalanced(b, ps, a);
    }
  }

  lemma {:induction false} DeltaNonPositive(ps: seq<Posting>, k: Key)
    requires forall i :: 0 <= i < |ps| && ps[i].key == k ==> ps[i].delta <= 0
    ensures Delta(ps, One(k)) <= 0
  {
    if |ps| > 0 {
      DeltaNonPositive(ps[..|ps| - 1], k);
    }
  }

  /** An asset's outside account is the only one that may owe tokens. */
  lemma TokenEntrySign(c: Balances, j: Key)
    requires j in c && EntryOk(c, j) && j.asset.Outcome? && !j.account.External?
    ensures c[j] >= 0
  {
  }

  /** What the ledger holds of a token, the outside world owes. */
  lemma ExternalOwes(c: Balances, k: Key)
    requires Conserved(c) && k in c && k.account.External? && k.asset.Outcome?
    requires forall j :: j in c ==> EntryOk(c, j)
    ensures c[k] <= 0
  {
    var m := Selected(c, Whole(k.asset));
    assert Sum(c, Whole(k.asset)) == 0;
    var rest := m - {k};
    MapSumRemove(m, k);
    forall j | j in rest
      ensures rest[j] >= 0
    {
      TokenEntrySign(c, j);
    }
    MapSumNonNegative(rest);
  }

  lemma PostKeepsSign(b: Balances, ps: seq<Posting>, c: Balances, k: Key)
    requires Post(b, ps) == Ok(c) && SoundBalances(b) && Conserved(c) && WellFormed(ps)
    requires k in c && !RequiresNonNegative(k.account)
    requires forall j :: j in c ==> EntryOk(c, j) && c[j] != 0
    ensures c[k] < 0
    ensures k.account.External? ==> k.asset.Outcome?
  {
    PostBalance(b, ps, k);
    if k !in b {
      var i := NewKeyPosted(b, ps, k);
    }
    if k.account.External? {
      ExternalOwes(c, k);
    } else {
      DeltaNonPositive(ps, k);
    }
  }

  lemma PostKeepsSound(b: Balances, ps: seq<Posting>)
    requires Post(b, ps).Ok? && SoundBalances(b) && Conserved(b) && WellFormed(ps)
    ensures SoundBalances(Post(b, ps).value)
  {
    EntriesSound(b, ps);
    PostKeepsConserved(b, ps);
    var c := Post(b, ps).value;
    assert forall k :: k in c ==> EntryOk(c, k) && c[k] != 0;
    forall k | k in c && !RequiresNonNegative(k.account)
      ensures c[k] < 0 && (k.account.External? ==> k.asset.Outcome?)
    {
      PostKeepsSign(b, ps, c, k);
    }
  }

  lemma FollowKeepsReservations(s: Books, s': Books, ps: seq<Posting>)
    requires Agree(s) && Follows(s, s', ps) && SoundBalances(s'.balances)
    ensures ReservationsBacked(s')
  {
    forall id | id in s'.reservations
      ensures Bal(s'.balances, HeldKey(id, s'.reservations[id].asset)) == s'.reservations[id].remaining
    {
      PostBalance(s.balances, ps, HeldKey(id, s'.reservations[id].asset));
    }
    forall k | k in s'.balances && IsHeld(k.account)
      ensures var id := k.account.reservation;
        id in s'.reservations && k == HeldKey(id, s'.reservations[id].asset)
    {
      if k !in s.balances {
        var i := NewKeyPosted(s.balances, ps, k);
      }
    }
  }

  lemma FollowKeepsPositions(s: Books, s': Books, ps: seq<Posting>)
    requires Agree(s) && Follows(s, s', ps)
    ensures PositionsBacked(s')
  {
    forall token
      ensures PositionBacked(s', token)
    {
      assert PositionBacked(s, token) && PositionFollows(s, s', ps, token);
      PostEffect(s.balances, ps, Loose(token));
      PostBalance(s.balances, ps, CostKey(token));
    }
  }

  lemma FollowKeepsLock(s: Books, s': Books, ps: seq<Posting>, id: Id)
    requires LocksBacked(s) && Post(s.balances, ps) == Ok(s'.balances) && LocksFollow(s, s', ps) && id in s'.locks
    requires SoundBalances(s.balances)
    ensures var l := s'.locks[id];
      && Bal(s'.balances, LockKey(id, l.up)) == LockedQuantity(l)
      && Bal(s'.balances, LockKey(id, l.down)) == LockedQuantity(l)
      && Bal(s'.balances, LockCostKey(id)) == LockedCostOf(l)
  {
    PostBalance(s.balances, ps, LockKey(id, s'.locks[id].up));
    PostBalance(s.balances, ps, LockKey(id, s'.locks[id].down));
    PostBalance(s.balances, ps, LockCostKey(id));
  }

  lemma FollowKeepsLocks(s: Books, s': Books, ps: seq<Posting>)
    requires Agree(s) && Follows(s, s', ps) && SoundBalances(s'.balances)
    ensures LocksBacked(s')
  {
    forall id | id in s'.locks
      ensures var l := s'.locks[id];
        && Bal(s'.balances, LockKey(id, l.up)) == LockedQuantity(l)
        && Bal(s'.balances, LockKey(id, l.down)) == LockedQuantity(l)
        && Bal(s'.balances, LockCostKey(id)) == LockedCostOf(l)
    {
      FollowKeepsLock(s, s', ps, id);
    }
    forall k | k in s'.balances && (k.account.LockedToken? || k.account.LockedCost?)
      ensures k.account.lock in s'.locks
      ensures k.account.LockedToken? ==>
        var l := s'.locks[k.account.lock]; k == LockKey(l.id, l.up) || k == LockKey(l.id, l.down)
    {
      if k !in s.balances {
        var i := NewKeyPosted(s.balances, ps, k);
      }
    }
  }

  /** A transition whose views follow its transaction keeps the agreement. */
  lemma FollowKeepsAgree(s: Books, s': Books, ps: seq<Posting>)
    requires Agree(s) && Follows(s, s', ps)
    ensures Agree(s')
  {
    PostKeepsSound(s.balances, ps);
    PostKeepsConserved(s.balances, ps);
    FollowKeepsReservations(s, s', ps);
    FollowKeepsPositions(s, s', ps);
    FollowKeepsLocks(s, s', ps);
  }
}
