/**
 * The four record types, the shapes callers insert (the store assigns the
 * omitted fields) and the constraints the tables declare.
 */
module Schema {
  import opened Wrappers
  import opened Tables

  /** `new Date()` readings, in clock ticks. */
  type Timestamp = nat

  /** Decimal columns travel as text; the server does no arithmetic on them. */
  type Decimal = string

  /** The status of a new transaction, which is also the column default. */
  const PENDING: string := "pending"

  /** A row of `users`. `userType` is absent when the insert record had none. */
  datatype User = User(
    id: Id,
    username: string,
    password: string,
    walletAddress: Option<string>,
    userType: Option<string>,
    createdAt: Timestamp)

  /** What a caller supplies for a new user: no `id`, no `createdAt`. */
  datatype InsertUser = InsertUser(
    username: string,
    password: string,
    walletAddress: Option<string>,
    userType: Option<string>)

  /** A row of `energy_offers`. */
  datatype EnergyOffer = EnergyOffer(
    id: Id,
    sellerId: Id,
    energyAmount: Decimal,
    pricePerKwh: Decimal,
    energyType: string,
    location: Option<string>,
    isActive: bool,
    contractAddress: Option<string>,
    transactionHash: Option<string>,
    createdAt: Timestamp)

  /**
   * What a caller supplies for a new offer: no `id`, `createdAt`,
   * `contractAddress` or `transactionHash`; `isActive` may be given.
   */
  datatype InsertEnergyOffer = InsertEnergyOffer(
    sellerId: Id,
    energyAmount: Decimal,
    pricePerKwh: Decimal,
    energyType: string,
    location: Option<string>,
    isActive: Option<bool>)

  /** A row of `energy_transactions`; `offerId`, `buyerId` and `sellerId` are required. */
  datatype EnergyTransaction = EnergyTransaction(
    id: Id,
    offerId: Id,
    buyerId: Id,
    sellerId: Id,
    energyAmount: Decimal,
    totalPrice: Decimal,
    transactionHash: Option<string>,
    blockNumber: Option<int>,
    status: string,
    createdAt: Timestamp)

  /** What a caller supplies for a new transaction: no `id`, no `createdAt`. */
  datatype InsertEnergyTransaction = InsertEnergyTransaction(
    offerId: Id,
    buyerId: Id,
    sellerId: Id,
    energyAmount: Decimal,
    totalPrice: Decimal,
    transactionHash: Option<string>,
    blockNumber: Option<int>,
    status: Option<string>)

  /** A row of `energy_generation`; every output column is required. */
  datatype EnergyGeneration = EnergyGeneration(
    id: Id,
    userId: Id,
    currentOutput: Decimal,
    dailyGeneration: Decimal,
    availableToSell: Decimal,
    energyType: string,
    lastUpdated: Timestamp)

  /** What a caller supplies for a generation row: no `id`, no `lastUpdated`. */
  datatype InsertEnergyGeneration = InsertEnergyGeneration(
    userId: Id,
    currentOutput: Decimal,
    dailyGeneration: Decimal,
    availableToSell: Decimal,
    energyType: string)

  /** `insertUserSchema`: a user without the columns the store fills in, `id` and `createdAt`. */
  function InsertOfUser(u: User): InsertUser
  {
    InsertUser(u.username, u.password, u.walletAddress, u.userType)
  }

  /** `{ ...insertUser, id, createdAt }`: the user `createUser` stores. */
  function NewUser(u: InsertUser, id: Id, now: Timestamp): (r: User)
    ensures r.id == id && r.createdAt == now
    ensures InsertOfUser(r) == u
  {
    User(id, u.username, u.password, u.walletAddress, u.userType, now)
  }

  /** Every user is its insert record plus its id and creation time. */
  lemma UserFromItsInsert(u: User)
    ensures NewUser(InsertOfUser(u), u.id, u.createdAt) == u
  {
  }

  /**
   * `insertEnergyOfferSchema`: an offer without `id`, `createdAt`,
   * `contractAddress` and `transactionHash`; `isActive` stays optional.
   */
  function InsertOfOffer(o: EnergyOffer): InsertEnergyOffer
  {
    InsertEnergyOffer(o.sellerId, o.energyAmount, o.pricePerKwh, o.energyType, o.location, Some(o.isActive))
  }

  /**
   * `{ ...insertOffer, id, isActive: true, createdAt }`: the offer
   * `createEnergyOffer` stores, active whatever the insert record says, with
   * no contract address or transaction hash yet.
   */
  function NewOffer(o: InsertEnergyOffer, id: Id, now: Timestamp): (r: EnergyOffer)
    ensures r.id == id && r.createdAt == now
    ensures r.isActive && r.contractAddress.None? && r.transactionHash.None?
    ensures InsertOfOffer(r) == o.(isActive := Some(true))
  {
    EnergyOffer(id, o.sellerId, o.energyAmount, o.pricePerKwh, o.energyType, o.location, true, None, None, now)
  }

  /** An active offer with no contract address or hash is its insert record plus its id and time. */
  lemma OfferFromItsInsert(o: EnergyOffer)
    requires o.isActive && o.contractAddress.None? && o.transactionHash.None?
    ensures NewOffer(InsertOfOffer(o), o.id, o.createdAt) == o
  {
  }

  /** `insertEnergyTransactionSchema`: a transaction without `id` and `createdAt`. */
  function InsertOfTransaction(tx: EnergyTransaction): InsertEnergyTransaction
  {
    InsertEnergyTransaction(tx.offerId, tx.buyerId, tx.sellerId, tx.energyAmount, tx.totalPrice,
                            tx.transactionHash, tx.blockNumber, Some(tx.status))
  }

  /**
   * `{ ...insertTransaction, id, status: "pending", createdAt }`: the
   * transaction `createTransaction` stores, pending whatever the insert
   * record says.
   */
  function NewTransaction(t: InsertEnergyTransaction, id: Id, now: Timestamp): (r: EnergyTransaction)
    ensures r.id == id && r.createdAt == now && r.status == PENDING
    ensures InsertOfTransaction(r) == t.(status := Some(PENDING))
  {
    EnergyTransaction(id, t.offerId, t.buyerId, t.sellerId, t.energyAmount, t.totalPrice,
                      t.transactionHash, t.blockNumber, PENDING, now)
  }

  /** A pending transaction is its insert record plus its id and creation time. */
  lemma TransactionFromItsInsert(tx: EnergyTransaction)
    requires tx.status == PENDING
    ensures NewTransaction(InsertOfTransaction(tx), tx.id, tx.createdAt) == tx
  {
  }

  /** `insertEnergyGenerationSchema`: a generation row without `id` and `lastUpdated`. */
  function InsertOfGeneration(g: EnergyGeneration): InsertEnergyGeneration
  {
    InsertEnergyGeneration(g.userId, g.currentOutput, g.dailyGeneration, g.availableToSell, g.energyType)
  }

  /** A generation row holding the insert record's columns under `id`, stamped `now`. */
  function NewGeneration(g: InsertEnergyGeneration, id: Id, now: Timestamp): (r: EnergyGeneration)
    ensures r.id == id && r.lastUpdated == now
    ensures InsertOfGeneration(r) == g
  {
    EnergyGeneration(id, g.userId, g.currentOutput, g.dailyGeneration, g.availableToSell, g.energyType, now)
  }

  /** Every generation row is its insert record plus its id and stamp. */
  lemma GenerationFromItsInsert(g: EnergyGeneration)
    ensures NewGeneration(InsertOfGeneration(g), g.id, g.lastUpdated) == g
  {
  }

  function OfferId(o: EnergyOffer): Id
  {
    o.id
  }

  function TransactionId(tx: EnergyTransaction): Id
  {
    tx.id
  }

  function OfferCreatedAt(o: EnergyOffer): int
  {
    o.createdAt
  }

  function TransactionCreatedAt(tx: EnergyTransaction): int
  {
    tx.createdAt
  }

  /** `users.username` is declared unique. */
  ghost predicate UsernamesUnique(users: map<Id, User>)
  {
    forall a, b :: a in users && b in users && users[a].username == users[b].username ==> a == b
  }

  /** `users.wallet_address` is declared unique among the users that have one. */
  ghost predicate WalletAddressesUnique(users: map<Id, User>)
  {
    forall a, b ::
      a in users && b in users && users[a].walletAddress.Some? && users[a].walletAddress == users[b].walletAddress
      ==> a == b
  }

  /** At most one generation row per user, which the upsert keyed by `userId` is meant to keep. */
  ghost predicate OneRowPerUser(rows: map<Id, EnergyGeneration>)
  {
    forall a, b :: a in rows && b in rows && rows[a].userId == rows[b].userId ==> a == b
  }
}
