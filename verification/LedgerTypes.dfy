/** Entities of the accounting ledger: accounts, assets, reservations, positions, locks, commands. */
module LedgerTypes {
  import opened Ordering
  import opened Results

  const I128_MAX: int := 0x7FFF_FFFF_FFFF_FFFF_FFFF_FFFF_FFFF_FFFF
  const I128_MIN: int := -0x8000_0000_0000_0000_0000_0000_0000_0000
  const U64_MAX: int := 0xFFFF_FFFF_FFFF_FFFF
  const MAX_IDENTIFIER_BYTES := 256
  const MAX_CONFIRMATION_BYTES := 512

  predicate Fits(x: int) {
    I128_MIN <= x <= I128_MAX
  }

  type i128 = x: int | Fits(x)

  /** A 32-byte identity, read as a big-endian number so that `<` is its byte order. */
  type Id = nat

  datatype TokenKey = TokenKey(conditionId: Text, tokenId: Text)

  datatype Asset = Collateral | Outcome(outcome: TokenKey)

  /** Declared in the order the source derives for its sorted maps; `Kind` is that order. */
  datatype Account =
    | CashAvailable
    | CashReserved(reservation: Id)
    | TokenAvailable
    | TokenReserved(reservation: Id)
    | InventoryCost(token: TokenKey)
    | LockedToken(lock: Id)
    | LockedCost(lock: Id)
    | FeeExpense
    | TradingRevenue
    | CostOfGoodsSold
    | CapitalContributed
    | External

  const KINDS: nat := 12

  function Kind(account: Account): (k: nat)
    ensures k < KINDS
  {
    match account
    case CashAvailable => 0
    case CashReserved(_) => 1
    case TokenAvailable => 2
    case TokenReserved(_) => 3
    case InventoryCost(_) => 4
    case LockedToken(_) => 5
    case LockedCost(_) => 6
    case FeeExpense => 7
    case TradingRevenue => 8
    case CostOfGoodsSold => 9
    case CapitalContributed => 10
    case External => 11
  }

  datatype Key = Key(account: Account, asset: Asset)

  type Balances = map<Key, int>

  function Bal(b: Balances, k: Key): int {
    if k in b then b[k] else 0
  }

  datatype Posting = Posting(key: Key, delta: int)

  datatype ReservationAsset = Cash | Token(token: TokenKey)

  datatype ReservationStatus = Active | Released | Consumed

  datatype Reservation = Reservation(
    id: Id, asset: ReservationAsset, original: int, remaining: int, status: ReservationStatus)

  datatype CostPosition = CostPosition(quantity: int, cost: int)

  datatype LockStatus = Locked | Merged

  datatype PairLock = PairLock(
    id: Id, up: TokenKey, down: TokenKey, quantity: int, cost: int, payout: int, status: LockStatus)

  datatype Action =
    | FundCollateral(amount: i128)
    | ReserveCollateral(reservationId: Id, amount: i128)
    | ReserveToken(reservationId: Id, token: TokenKey, quantity: i128)
    | ReleaseReservation(reservationId: Id)
    | ConfirmBuy(reservationId: Id, token: TokenKey, quantity: i128, consideration: i128, fee: i128,
                 confirmation: Text)
    | ConfirmSell(reservationId: Id, quantity: i128, gross: i128, fee: i128, confirmation: Text)
    | LockPair(lockId: Id, up: TokenKey, down: TokenKey, quantity: i128)
    | ConfirmMerge(lockId: Id, confirmation: Text)
    | ConfirmSplit(reservationId: Id, up: TokenKey, down: TokenKey, quantity: i128, confirmation: Text)
    | ConfirmRedemption(reservationId: Id, quantity: i128, payout: i128, confirmation: Text)

  datatype LedgerCommand = LedgerCommand(commandId: Id, recordedAtNs: int, action: Action)

  /** BLAKE3 over the canonical encoding, idealised: equal digests mean equal commands. */
  datatype Digest = CommandDigest(command: LedgerCommand)

  /** The four views that `apply_fresh` changes. */
  datatype Books = Books(
    balances: Balances,
    reservations: map<Id, Reservation>,
    costs: map<TokenKey, CostPosition>,
    locks: map<Id, PairLock>)

  datatype Ledger = Ledger(books: Books, processed: map<Id, Digest>, accepted: nat, halted: bool)

  const EMPTY_BOOKS := Books(map[], map[], map[], map[])
  const DEFAULT_LEDGER := Ledger(EMPTY_BOOKS, map[], 0, false)

  datatype ApplyOutcome = Applied | Duplicate

  /** The source's errors, plus `Trap`: an `.expect` that fails or unchecked arithmetic that leaves i128. */
  datatype Error =
    | Identifier | NonPositive | Fee | Overflow | PostingCount | Unbalanced | AccountAsset
    | NegativeBalance | ReservationExists | ReservationMissing | ReservationInactive
    | ReservationMismatch | ReservationInsufficient | InventoryInsufficient | PairIdentity
    | LockExists | LockMissing | LockInactive | Confirmation | Timestamp | IdempotencyConflict
    | Halted | Conservation | ReservationInvariant | InventoryInvariant | Trap

  type Outcome<+T> = Result<T, Error>

  function CheckedAdd(x: int, y: int): Outcome<int> {
    if Fits(x + y) then Ok(x + y) else Err(Overflow)
  }

  function CheckedSub(x: int, y: int): Outcome<int> {
    if Fits(x - y) then Ok(x - y) else Err(Overflow)
  }

  function CheckedMul(x: int, y: int): Outcome<int> {
    if Fits(x * y) then Ok(x * y) else Err(Overflow)
  }

  function UncheckedAdd(x: int, y: int): Outcome<int> {
    if Fits(x + y) then Ok(x + y) else Err(Trap)
  }

  function AssetOf(asset: ReservationAsset): Asset {
    match asset
    case Cash => Collateral
    case Token(token) => Outcome(token)
  }

  function HomeKey(asset: ReservationAsset): Key {
    Key(if asset.Cash? then CashAvailable else TokenAvailable, AssetOf(asset))
  }

  function HeldKey(id: Id, asset: ReservationAsset): Key {
    Key(if asset.Cash? then CashReserved(id) else TokenReserved(id), AssetOf(asset))
  }

  function CostKey(token: TokenKey): Key {
    Key(InventoryCost(token), Collateral)
  }

  function LockKey(id: Id, token: TokenKey): Key {
    Key(LockedToken(id), Outcome(token))
  }

  function LockCostKey(id: Id): Key {
    Key(LockedCost(id), Collateral)
  }

  function Money(account: Account): Key {
    Key(account, Collateral)
  }

  function Position(costs: map<TokenKey, CostPosition>, token: TokenKey): CostPosition {
    if token in costs then costs[token] else CostPosition(0, 0)
  }

  predicate Compatible(k: Key) {
    match k.account
    case TokenAvailable | TokenReserved(_) | LockedToken(_) => k.asset.Outcome?
    case External => true
    case _ => k.asset.Collateral?
  }

  predicate RequiresNonNegative(account: Account) {
    match account
    case TradingRevenue | CapitalContributed | External => false
    case _ => true
  }

  // Key orders of the sorted maps.

  predicate IdLess(x: Id, y: Id) {
    x < y
  }

  predicate TokenLess(x: TokenKey, y: TokenKey) {
    TextLess(x.conditionId, y.conditionId)
    || (x.conditionId == y.conditionId && TextLess(x.tokenId, y.tokenId))
  }

  predicate AccountLess(x: Account, y: Account) {
    Kind(x) < Kind(y) ||
    (Kind(x) == Kind(y) &&
     match x
     case CashReserved(id) => id < y.reservation
     case TokenReserved(id) => id < y.reservation
     case LockedToken(id) => id < y.lock
     case LockedCost(id) => id < y.lock
     case InventoryCost(token) => TokenLess(token, y.token)
     case _ => false)
  }

  predicate AssetLess(x: Asset, y: Asset) {
    y.Outcome? && (x.Collateral? || TokenLess(x.outcome, y.outcome))
  }

  predicate KeyLess(x: Key, y: Key) {
    AccountLess(x.account, y.account) || (x.account == y.account && AssetLess(x.asset, y.asset))
  }

  lemma IdOrder()
    ensures StrictTotalOrder(IdLess)
  {
  }

  lemma TokenOrder()
    ensures StrictTotalOrder(TokenLess)
  {
    forall x: TokenKey, y: TokenKey, z: TokenKey
      ensures !TokenLess(x, x)
      ensures x == y || TokenLess(x, y) || TokenLess(y, x)
      ensures TokenLess(x, y) && TokenLess(y, z) ==> TokenLess(x, z)
    {
      TokenOrderAt(x, y, z);
    }
  }

  lemma TokenOrderAt(x: TokenKey, y: TokenKey, z: TokenKey)
    ensures !TokenLess(x, x)
    ensures x == y || TokenLess(x, y) || TokenLess(y, x)
    ensures TokenLess(x, y) && TokenLess(y, z) ==> TokenLess(x, z)
  {
    TextIrreflexive(x.conditionId);
    TextIrreflexive(x.tokenId);
    TextTrichotomy(x.conditionId, y.conditionId);
    TextTrichotomy(x.tokenId, y.tokenId);
    if TextLess(x.conditionId, y.conditionId) && TextLess(y.conditionId, z.conditionId) {
      TextTransitive(x.conditionId, y.conditionId, z.conditionId);
    }
    if TextLess(x.tokenId, y.tokenId) && TextLess(y.tokenId, z.tokenId) {
      TextTransitive(x.tokenId, y.tokenId, z.tokenId);
    }
  }

  lemma AccountOrderAt(x: Account, y: Account, z: Account)
    ensures !AccountLess(x, x)
    ensures x == y || AccountLess(x, y) || AccountLess(y, x)
    ensures AccountLess(x, y) && AccountLess(y, z) ==> AccountLess(x, z)
  {
    if x.InventoryCost? {
      TokenOrderAt(x.token, x.token, x.token);
    }
    if x.InventoryCost? && y.InventoryCost? {
      TokenOrderAt(x.token, y.token, if z.InventoryCost? then z.token else y.token);
    }
  }

  lemma AssetOrderAt(x: Asset, y: Asset, z: Asset)
    ensures !AssetLess(x, x)
    ensures x == y || AssetLess(x, y) || AssetLess(y, x)
    ensures AssetLess(x, y) && AssetLess(y, z) ==> AssetLess(x, z)
  {
    if x.Outcome? {
      TokenOrderAt(x.outcome, x.outcome, x.outcome);
    }
    if x.Outcome? && y.Outcome? {
      TokenOrderAt(x.outcome, y.outcome, if z.Outcome? then z.outcome else y.outcome);
    }
  }

  lemma KeyOrder()
    ensures StrictTotalOrder(KeyLess)
  {
    forall x: Key, y: Key, z: Key
      ensures !KeyLess(x, x)
      ensures x == y || KeyLess(x, y) || KeyLess(y, x)
      ensures KeyLess(x, y) && KeyLess(y, z) ==> KeyLess(x, z)
    {
      AccountOrderAt(x.account, y.account, z.account);
      AssetOrderAt(x.asset, y.asset, z.asset);
    }
  }

  function SortedIds(s: set<Id>): seq<Id> {
    IdOrder();
    Sorted(s, IdLess)
  }

  function SortedTokens(s: set<TokenKey>): seq<TokenKey> {
    TokenOrder();
    Sorted(s, TokenLess)
  }

  /** The iteration order of the source's balance map: by account kind first. */
  function SortedKeys(s: set<Key>): (r: seq<Key>)
    ensures forall x :: x in r <==> x in s
    ensures forall i, j :: 0 <= i < j < |r| ==> r[i] != r[j] && Kind(r[i].account) <= Kind(r[j].account)
  {
    KeyOrder();
    assert forall x, y :: KeyLess(x, y) ==> x != y && Kind(x.account) <= Kind(y.account);
    Sorted(s, KeyLess)
  }
}
