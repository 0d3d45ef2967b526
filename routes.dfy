/**
 * The HTTP handlers of the marketplace API, as decisions over the store:
 * each takes the already-parsed request (a body that failed its schema is
 * `None`) and answers with a status code and a JSON body.
 */
module Routes {
  import opened Wrappers
  import opened Tables
  import opened Schema
  import opened Storage

  const OK: nat := 200
  const BAD_REQUEST: nat := 400
  const UNAUTHORIZED: nat := 401
  const NOT_FOUND: nat := 404

  /** The `user` object of the register response: no password, no wallet. */
  datatype RegisteredUser = RegisteredUser(id: Id, username: string, userType: Option<string>)

  /** The `user` object of the login and wallet responses: no password. */
  datatype Account = Account(id: Id, username: string, userType: Option<string>, walletAddress: Option<string>)

  /** The JSON bodies the handlers send. */
  datatype Body =
    | Message(message: string)
    | Registered(registered: RegisteredUser)
    | SignedIn(account: Account)
    | OfferList(offers: seq<EnergyOffer>)
    | OneOffer(offer: EnergyOffer)
    | TransactionList(transactions: seq<EnergyTransaction>)
    | OneTransaction(transaction: EnergyTransaction)
    | Generation(generation: Option<EnergyGeneration>)

  datatype Response = Response(status: nat, body: Body)

  /** The login body: both fields must be non-empty to pass the schema. */
  datatype Credentials = Credentials(username: string, password: string)

  /** The body of the transaction status update. */
  datatype StatusUpdate = StatusUpdate(status: string, transactionHash: Option<string>, blockNumber: Option<int>)

  function Error(status: nat, message: string): Response
  {
    Response(status, Message(message))
  }

  function AccountOf(u: User): (a: Account)
  {
    Account(u.id, u.username, u.userType, u.walletAddress)
  }

  /**
   * POST /api/auth/register. The username is checked against the store
   * before the user is created; this check is what keeps usernames unique.
   */
  method Register(store: MemStorage, body: Option<InsertUser>) returns (res: Response)
    requires store.Valid()
    modifies store
    ensures store.Valid()
    ensures body.None? ==> res == Error(BAD_REQUEST, "Invalid registration data") && unchanged(store)
    ensures body.Some? && old(store.HasUsername(body.value.username)) ==>
      res == Error(BAD_REQUEST, "Username already exists") && unchanged(store)
    ensures body.Some? && !old(store.HasUsername(body.value.username)) ==>
      && res.status == OK && res.body.Registered?
      && res.body.registered.username == body.value.username
      && res.body.registered.userType == body.value.userType
      && res.body.registered.id !in old(store.users.entries) && res.body.registered.id != ""
      && store.clock > old(store.clock)
      && store.users.order == old(store.users.order) + [res.body.registered.id]
      && store.users.entries == old(store.users.entries)[res.body.registered.id :=
           User(res.body.registered.id, body.value.username, body.value.password,
                body.value.walletAddress, body.value.userType, store.clock)]
      && store.offers == old(store.offers) && store.transactions == old(store.transactions)
      && store.generation == old(store.generation)
    ensures old(UsernamesUnique(store.users.entries)) ==> UsernamesUnique(store.users.entries)
  {
    if body.None? {
      return Error(BAD_REQUEST, "Invalid registration data");
    }
    var existing := store.GetUserByUsername(body.value.username);
    if existing.Some? {
      return Error(BAD_REQUEST, "Username already exists");
    }
    ghost var before := store.users.entries;
    var user := store.CreateUser(body.value);
    assert forall k :: k in before ==> before[k].username != user.username;
    res := Response(OK, Registered(RegisteredUser(user.id, user.username, user.userType)));
  }

  /**
   * POST /api/auth/login. 401 exactly when no user has the username or the
   * stored password differs; the store is only read.
   */
  method Login(store: MemStorage, body: Option<Credentials>) returns (res: Response)
    requires store.Valid()
    ensures body.None? || body.value.username == "" || body.value.password == "" ==>
      res == Error(BAD_REQUEST, "Invalid login data")
    ensures body.Some? && body.value.username != "" && body.value.password != "" ==>
      && (res == Error(UNAUTHORIZED, "Invalid credentials") <==>
            || store.GetUserByUsername(body.value.username).None?
            || store.GetUserByUsername(body.value.username).value.password != body.value.password)
      && (res.status == OK <==> res != Error(UNAUTHORIZED, "Invalid credentials"))
    ensures res.status == OK ==>
      && res.body.SignedIn?
      && exists k :: k in store.users.entries && res.body.account == AccountOf(store.users.entries[k])
                     && store.users.entries[k].username == body.value.username
                     && store.users.entries[k].password == body.value.password
  {
    if body.None? || body.value.username == "" || body.value.password == "" {
      return Error(BAD_REQUEST, "Invalid login data");
    }
    var user := store.GetUserByUsername(body.value.username);
    if user.None? || user.value.password != body.value.password {
      return Error(UNAUTHORIZED, "Invalid credentials");
    }
    res := Response(OK, SignedIn(AccountOf(user.value)));
  }

  /**
   * POST /api/wallet/connect. The body is parsed first, then the `user-id`
   * header is required, then the wallet of that user is replaced.
   */
  method ConnectWallet(store: MemStorage, walletAddress: Option<string>, userIdHeader: Option<string>)
    returns (res: Response)
    requires store.Valid()
    modifies store
    ensures store.Valid()
    ensures walletAddress.None? || walletAddress.value == "" ==>
      res == Error(BAD_REQUEST, "Failed to connect wallet") && unchanged(store)
    ensures walletAddress.Some? && walletAddress.value != "" && (userIdHeader.None? || userIdHeader.value == "") ==>
      res == Error(UNAUTHORIZED, "User ID required") && unchanged(store)
    ensures walletAddress.Some? && walletAddress.value != "" && userIdHeader.Some? && userIdHeader.value != "" ==>
      if userIdHeader.value !in old(store.users.entries) then
        res == Error(BAD_REQUEST, "Failed to connect wallet") && unchanged(store)
      else
        && store.users.entries ==
             old(store.users.entries)[userIdHeader.value :=
               old(store.users.entries[userIdHeader.value]).(walletAddress := walletAddress)]
        && res == Response(OK, SignedIn(AccountOf(store.users.entries[userIdHeader.value])))
        && store.users.order == old(store.users.order)
    ensures store.offers == old(store.offers) && store.transactions == old(store.transactions)
    ensures store.generation == old(store.generation) && store.clock == old(store.clock)
  {
    if walletAddress.None? || walletAddress.value == "" {
      return Error(BAD_REQUEST, "Failed to connect wallet");
    }
    if userIdHeader.None? || userIdHeader.value == "" {
      return Error(UNAUTHORIZED, "User ID required");
    }
    var r := store.UpdateUserWallet(userIdHeader.value, walletAddress.value);
    if r.Failure? {
      return Error(BAD_REQUEST, "Failed to connect wallet");
    }
    res := Response(OK, SignedIn(AccountOf(r.value)));
  }

  /** GET /api/energy/offers; without a `limit` query the storage default applies. */
  method ListOffers(store: MemStorage, limit: Option<nat>) returns (res: Response)
    requires store.Valid()
    ensures res.status == OK && res.body.OfferList?
    ensures res.body.offers == store.GetEnergyOffers(limit)
    ensures limit.None? ==> |res.body.offers| == Min(DEFAULT_LIMIT, |store.ActiveOffers()|)
    ensures forall o :: o in res.body.offers ==> o.isActive
  {
    res := Response(OK, OfferList(store.GetEnergyOffers(limit)));
  }

  /** GET /api/energy/offers/:id: 404 exactly when no offer has that id. */
  method GetOffer(store: MemStorage, id: Id) returns (res: Response)
    requires store.Valid()
    ensures res == Error(NOT_FOUND, "Offer not found") <==> id !in store.offers.entries
    ensures res.status == OK <==> id in store.offers.entries
    ensures res.status == OK ==> res.body == OneOffer(store.offers.entries[id]) && res.body.offer.id == id
  {
    var offer := store.GetEnergyOffer(id);
    if offer.None? {
      return Error(NOT_FOUND, "Offer not found");
    }
    res := Response(OK, OneOffer(offer.value));
  }

  /** POST /api/energy/offers: the new offer is active whatever the body says. */
  method CreateOffer(store: MemStorage, body: Option<InsertEnergyOffer>) returns (res: Response)
    requires store.Valid()
    modifies store
    ensures store.Valid()
    ensures body.None? ==> res == Error(BAD_REQUEST, "Invalid offer data") && unchanged(store)
    ensures body.Some? ==>
      && res.status == OK && res.body.OneOffer?
      && res.body.offer.isActive
      && res.body.offer == EnergyOffer(res.body.offer.id, body.value.sellerId, body.value.energyAmount,
                                       body.value.pricePerKwh, body.value.energyType, body.value.location,
                                       true, None, None, store.clock)
      && store.clock > old(store.clock)
      && res.body.offer.id !in old(store.offers.entries)
      && store.offers.entries == old(store.offers.entries)[res.body.offer.id := res.body.offer]
      && store.offers.order == old(store.offers.order) + [res.body.offer.id]
    ensures store.users == old(store.users) && store.transactions == old(store.transactions)
    ensures store.generation == old(store.generation)
  {
    if body.None? {
      return Error(BAD_REQUEST, "Invalid offer data");
    }
    var offer := store.CreateEnergyOffer(body.value);
    res := Response(OK, OneOffer(offer));
  }

  /** PATCH /api/energy/offers/:id/status; an unknown id gives 400, not 404. */
  method UpdateOfferStatus(store: MemStorage, id: Id, isActive: Option<bool>) returns (res: Response)
    requires store.Valid()
    modifies store
    ensures store.Valid()
    ensures isActive.None? || id !in old(store.offers.entries) ==>
      res == Error(BAD_REQUEST, "Failed to update offer status") && unchanged(store)
    ensures isActive.Some? && id in old(store.offers.entries) ==>
      && res == Response(OK, OneOffer(old(store.offers.entries[id]).(isActive := isActive.value)))
      && store.offers.entries == old(store.offers.entries)[id := res.body.offer]
      && store.offers.order == old(store.offers.order)
    ensures store.users == old(store.users) && store.transactions == old(store.transactions)
    ensures store.generation == old(store.generation)
  {
    if isActive.None? {
      return Error(BAD_REQUEST, "Failed to update offer status");
    }
    var r := store.UpdateOfferStatus(id, isActive.value);
    if r.Failure? {
      return Error(BAD_REQUEST, "Failed to update offer status");
    }
    res := Response(OK, OneOffer(r.value));
  }

  /** GET /api/transactions, optionally narrowed to one user's. */
  method ListTransactions(store: MemStorage, userId: Option<string>, limit: Option<nat>) returns (res: Response)
    requires store.Valid()
    ensures res.status == OK && res.body.TransactionList?
    ensures res.body.transactions == store.GetTransactions(userId, limit)
    ensures limit.None? ==> |res.body.transactions| == Min(DEFAULT_LIMIT, |store.InvolvedTransactions(userId)|)
    ensures userId.Some? && userId.value != "" ==>
      forall tx :: tx in res.body.transactions ==> tx.buyerId == userId.value || tx.sellerId == userId.value
  {
    res := Response(OK, TransactionList(store.GetTransactions(userId, limit)));
  }

  /** POST /api/transactions: the new transaction is pending whatever the body says. */
  method CreateTransaction(store: MemStorage, body: Option<InsertEnergyTransaction>) returns (res: Response)
    requires store.Valid()
    modifies store
    ensures store.Valid()
    ensures body.None? ==> res == Error(BAD_REQUEST, "Invalid transaction data") && unchanged(store)
    ensures body.Some? ==>
      && res.status == OK && res.body.OneTransaction?
      && res.body.transaction.status == PENDING
      && res.body.transaction == EnergyTransaction(res.body.transaction.id, body.value.offerId, body.value.buyerId,
                                                   body.value.sellerId, body.value.energyAmount, body.value.totalPrice,
                                                   body.value.transactionHash, body.value.blockNumber, PENDING,
                                                   store.clock)
      && store.clock > old(store.clock)
      && res.body.transaction.id !in old(store.transactions.entries)
      && store.transactions.entries ==
           old(store.transactions.entries)[res.body.transaction.id := res.body.transaction]
      && store.transactions.order == old(store.transactions.order) + [res.body.transaction.id]
    ensures store.users == old(store.users) && store.offers == old(store.offers)
    ensures store.generation == old(store.generation)
  {
    if body.None? {
      return Error(BAD_REQUEST, "Invalid transaction data");
    }
    var tx := store.CreateTransaction(body.value);
    res := Response(OK, OneTransaction(tx));
  }

  /**
   * PATCH /api/transactions/:id/status: status, hash and block number are
   * replaced together, so an omitted hash or block number becomes absent.
   */
  method UpdateTransactionStatus(store: MemStorage, id: Id, body: Option<StatusUpdate>) returns (res: Response)
    requires store.Valid()
    modifies store
    ensures store.Valid()
    ensures body.None? || id !in old(store.transactions.entries) ==>
      res == Error(BAD_REQUEST, "Failed to update transaction status") && unchanged(store)
    ensures body.Some? && id in old(store.transactions.entries) ==>
      && res == Response(OK, OneTransaction(old(store.transactions.entries[id]).(
                  status := body.value.status, transactionHash := body.value.transactionHash,
                  blockNumber := body.value.blockNumber)))
      && store.transactions.entries == old(store.transactions.entries)[id := res.body.transaction]
      && store.transactions.order == old(store.transactions.order)
    ensures store.users == old(store.users) && store.offers == old(store.offers)
    ensures store.generation == old(store.generation)
  {
    if body.None? {
      return Error(BAD_REQUEST, "Failed to update transaction status");
    }
    var u := body.value;
    var r := store.UpdateTransactionStatus(id, u.status, u.transactionHash, u.blockNumber);
    if r.Failure? {
      return Error(BAD_REQUEST, "Failed to update transaction status");
    }
    res := Response(OK, OneTransaction(r.value));
  }

  /** GET /api/energy/generation/:userId: 200 even when the user has no row. */
  method GetGeneration(store: MemStorage, userId: Id) returns (res: Response)
    requires store.Valid()
    ensures res.status == OK && res.body.Generation?
    ensures res.body.generation == store.GetEnergyGeneration(userId)
    ensures res.body.generation.None? <==>
      forall k :: k in store.generation.entries ==> store.generation.entries[k].userId != userId
    ensures res.body.generation.Some? ==>
      res.body.generation.value in store.generation.entries.Values && res.body.generation.value.userId == userId
  {
    res := Response(OK, Generation(store.GetEnergyGeneration(userId)));
  }

  /**
   * POST /api/energy/generation: the upsert is keyed by the body's own
   * `userId`, so the row stays the one a lookup finds and no user gets a
   * second row.
   */
  method PostGeneration(store: MemStorage, body: Option<InsertEnergyGeneration>) returns (res: Response)
    requires store.Valid()
    modifies store
    ensures store.Valid()
    ensures body.None? ==> res == Error(BAD_REQUEST, "Invalid generation data") && unchanged(store)
    ensures body.Some? ==>
      && res.status == OK && res.body.Generation? && res.body.generation.Some?
      && res.body.generation.value ==
           EnergyGeneration(res.body.generation.value.id, body.value.userId, body.value.currentOutput,
                            body.value.dailyGeneration, body.value.availableToSell, body.value.energyType,
                            store.clock)
      && store.clock > old(store.clock)
      && store.generation.entries == old(store.generation.entries)[res.body.generation.value.id := res.body.generation.value]
      && (old(store.GetEnergyGeneration(body.value.userId)).Some? ==>
            && res.body.generation.value.id == old(store.GetEnergyGeneration(body.value.userId)).value.id
            && store.generation.order == old(store.generation.order))
      && (old(store.GetEnergyGeneration(body.value.userId)).None? ==>
            && res.body.generation.value.id !in old(store.generation.entries)
            && store.generation.order == old(store.generation.order) + [res.body.generation.value.id])
      && store.GetEnergyGeneration(body.value.userId) == res.body.generation
    ensures old(OneRowPerUser(store.generation.entries)) ==> OneRowPerUser(store.generation.entries)
    ensures store.users == old(store.users) && store.offers == old(store.offers)
    ensures store.transactions == old(store.transactions)
  {
    if body.None? {
      return Error(BAD_REQUEST, "Invalid generation data");
    }
    var row := store.UpdateEnergyGeneration(body.value.userId, body.value);
    res := Response(OK, Generation(Some(row)));
  }
}
