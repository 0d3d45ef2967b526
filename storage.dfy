/**
 * `MemStorage`: the in-memory store behind the routes. Four tables keyed by
 * id (users, energy offers, energy transactions, energy generation), a clock
 * for timestamps, lookups and listings that read them and operations that
 * create and update rows in place.
 */
module Storage {
  import opened Wrappers
  import opened Listing
  import opened Tables
  import opened Schema

  /** What the update operations throw when the id is unknown. */
  datatype StoreError = UserNotFound | OfferNotFound | TransactionNotFound
  {
    function Message(): string
    {
      match this
      case UserNotFound => "User not found"
      case OfferNotFound => "Offer not found"
      case TransactionNotFound => "Transaction not found"
    }
  }

  /** The default of the `limit` parameter of the listings. */
  const DEFAULT_LIMIT: nat := 50

  function LimitOrDefault(limit: Option<nat>): nat
  {
    if limit.Some? then limit.value else DEFAULT_LIMIT
  }

  /**
   * Whether a transaction belongs in `getTransactions(userId)`: every one does
   * when `userId` is absent or empty, otherwise those where the user is buyer
   * or seller.
   */
  predicate Involves(userId: Option<string>, tx: EnergyTransaction)
  {
    userId.None? || userId.value == "" || tx.buyerId == userId.value || tx.sellerId == userId.value
  }

  class MemStorage {
    var users: Table<User>
    var offers: Table<EnergyOffer>
    var transactions: Table<EnergyTransaction>
    var generation: Table<EnergyGeneration>
    /** The latest reading of the clock; every timestamp stored is at most this. */
    var clock: Timestamp

    /** Each row is stored under its own id and was stamped no later than `clock`. */
    ghost predicate Valid()
      reads this
    {
      && UsersStored(users, clock) && OffersStored(offers, clock)
      && TransactionsStored(transactions, clock) && GenerationStored(generation, clock)
    }

    constructor ()
      ensures Valid()
      ensures users == Empty() && offers == Empty() && transactions == Empty() && generation == Empty()
    {
      users, offers, transactions, generation := Empty(), Empty(), Empty(), Empty();
      clock := 0;
    }

    // ---------------------------------------------------------------- users

    ghost predicate HasUsername(name: string)
      reads this
    {
      exists k :: k in users.entries && users.entries[k].username == name
    }

    function GetUser(id: Id): (r: Option<User>)
      reads this
      requires Valid()
      ensures r.Some? <==> id in users.entries
      ensures r.Some? ==> r.value == users.entries[id] && r.value.id == id
    {
      if id in users.entries then Some(users.entries[id]) else None
    }

    /** The first user, in insertion order, with this exact username. */
    function GetUserByUsername(name: string): (r: Option<User>)
      reads this
      requires Valid()
      ensures r.None? <==> !HasUsername(name)
      ensures r.Some? ==> r.value.username == name && r.value.id in users.entries && users.entries[r.value.id] == r.value
      ensures r.Some? && UsernamesUnique(users.entries) ==>
        forall k :: k in users.entries && users.entries[k].username == name ==> users.entries[k] == r.value
      ensures forall i :: FirstMatchAt(users, (u: User) => u.username == name, i) ==>
        r == Some(users.entries[users.order[i]])
    {
      FirstWhere(users, (u: User) => u.username == name)
    }

    /** The first user, in insertion order, whose wallet address is `walletAddress`. */
    function GetUserByWalletAddress(walletAddress: string): (r: Option<User>)
      reads this
      requires Valid()
      ensures r.None? <==> forall k :: k in users.entries ==> users.entries[k].walletAddress != Some(walletAddress)
      ensures r.Some? ==>
        r.value.walletAddress == Some(walletAddress) && r.value.id in users.entries && users.entries[r.value.id] == r.value
      ensures forall i :: FirstMatchAt(users, (u: User) => u.walletAddress == Some(walletAddress), i) ==>
        r == Some(users.entries[users.order[i]])
    {
      FirstWhere(users, (u: User) => u.walletAddress == Some(walletAddress))
    }

    /** Stores the insert record as given, under a fresh id and the current time; nothing is checked. */
    method CreateUser(u: InsertUser) returns (user: User)
      requires Valid()
      modifies this
      ensures Valid()
      ensures user.id !in old(users.entries) && user.id != ""
      ensures user == User(user.id, u.username, u.password, u.walletAddress, u.userType, clock)
      ensures clock > old(clock)
      ensures users.entries == old(users.entries)[user.id := user]
      ensures users.order == old(users.order) + [user.id]
      ensures offers == old(offers) && transactions == old(transactions) && generation == old(generation)
    {
      var id := FreshKey(users);
      ClockAdvances(users, offers, transactions, generation, clock, clock + 1);
      clock := clock + 1;
      user := NewUser(u, id, clock);
      users := Set(users, id, user);
    }

    /** Replaces the wallet address of one user (last write wins); throws "User not found". */
    method UpdateUserWallet(id: Id, walletAddress: string) returns (r: Result<User, StoreError>)
      requires Valid()
      modifies this
      ensures Valid()
      ensures id !in old(users.entries) ==> r == Failure(UserNotFound) && unchanged(this)
      ensures id in old(users.entries) ==>
        && r == Success(old(users.entries[id]).(walletAddress := Some(walletAddress)))
        && users.entries == old(users.entries)[id := r.value]
        && users.order == old(users.order)
      ensures offers == old(offers) && transactions == old(transactions) && generation == old(generation)
      ensures clock == old(clock)
    {
      if id !in users.entries {
        return Failure(UserNotFound);
      }
      var updated := users.entries[id].(walletAddress := Some(walletAddress));
      users := Set(users, id, updated);
      r := Success(updated);
    }

    // --------------------------------------------------------------- offers

    /** The active offers, in insertion order. */
    function ActiveOffers(): (r: seq<EnergyOffer>)
      reads this
      requires Valid()
      ensures forall o :: o in r <==> o in offers.entries.Values && o.isActive
      ensures r == [] <==> forall o :: o in offers.entries.Values ==> !o.isActive
      ensures forall i, j :: 0 <= i < j < |r| ==> r[i].id != r[j].id
    {
      var r := ValuesWhere(offers, (o: EnergyOffer) => o.isActive);
      assert r != [] ==> r[0] in r;
      ValuesDistinct(offers, OfferId);
      SubMultisetKeepsDistinct(r, Values(offers), OfferId);
      r
    }

    /**
     * `getEnergyOffers(limit = 50)`: the `limit` newest active offers, newest
     * first. Inactive offers never appear; an active offer is left out only
     * when the page is full of offers at least as new.
     */
    function GetEnergyOffers(limit: Option<nat>): (r: seq<EnergyOffer>)
      reads this
      requires Valid()
      ensures |r| == Min(LimitOrDefault(limit), |ActiveOffers()|)
      ensures forall o :: o in r ==> o.isActive && o.id in offers.entries && offers.entries[o.id] == o
      ensures forall i, j :: 0 <= i < j < |r| ==> r[i].createdAt >= r[j].createdAt
      ensures |r| < LimitOrDefault(limit) ==> forall o :: o in ActiveOffers() ==> o in r
      ensures forall left, o :: left in ActiveOffers() && left !in r && o in r ==> o.createdAt >= left.createdAt
      ensures multiset(r) <= multiset(ActiveOffers())
      ensures forall i, j :: 0 <= i < j < |r| ==> r[i].id != r[j].id
    {
      var active := ActiveOffers();
      var r := NewestFirst(active, OfferCreatedAt, LimitOrDefault(limit));
      OfferIdsStayDistinct(r, active);
      assert forall o :: o in r ==> o.isActive && o.id in offers.entries && offers.entries[o.id] == o by {
        forall o | o in r
          ensures o.isActive && o.id in offers.entries && offers.entries[o.id] == o
        {
          StoredOffer(o);
        }
      }
      forall left, o | left in active && left !in r && o in r
        ensures o.createdAt >= left.createdAt
      {
        assert OfferCreatedAt(o) >= OfferCreatedAt(left);
      }
      r
    }

    lemma StoredOffer(o: EnergyOffer)
      requires Valid() && o in offers.entries.Values
      ensures o.id in offers.entries && offers.entries[o.id] == o
    {
      var k :| k in offers.entries && offers.entries[k] == o;
    }

    function GetEnergyOffer(id: Id): (r: Option<EnergyOffer>)
      reads this
      requires Valid()
      ensures r.Some? <==> id in offers.entries
      ensures r.Some? ==> r.value == offers.entries[id] && r.value.id == id
    {
      if id in offers.entries then Some(offers.entries[id]) else None
    }

    /** Every offer of one seller, active or not, in insertion order. */
    function GetOffersBySeller(sellerId: Id): (r: seq<EnergyOffer>)
      reads this
      requires Valid()
      ensures forall o :: o in r <==> o in offers.entries.Values && o.sellerId == sellerId
      ensures forall i, j :: 0 <= i < j < |r| ==> r[i].id != r[j].id
    {
      var r := ValuesWhere(offers, (o: EnergyOffer) => o.sellerId == sellerId);
      ValuesDistinct(offers, OfferId);
      SubMultisetKeepsDistinct(r, Values(offers), OfferId);
      r
    }

    /**
     * Stores the offer under a fresh id and the current time, active whatever
     * the insert record says; it heads the default listing.
     */
    method CreateEnergyOffer(o: InsertEnergyOffer) returns (offer: EnergyOffer)
      requires Valid()
      modifies this
      ensures Valid()
      ensures offer.id !in old(offers.entries)
      ensures offer.isActive
      ensures offer == EnergyOffer(offer.id, o.sellerId, o.energyAmount, o.pricePerKwh, o.energyType, o.location,
                                   true, None, None, clock)
      ensures clock > old(clock)
      ensures offers.entries == old(offers.entries)[offer.id := offer]
      ensures offers.order == old(offers.order) + [offer.id]
      ensures users == old(users) && transactions == old(transactions) && generation == old(generation)
      ensures GetEnergyOffers(None) != [] && GetEnergyOffers(None)[0] == offer
      ensures offer in GetOffersBySeller(o.sellerId)
    {
      var id := FreshKey(offers);
      ClockAdvances(users, offers, transactions, generation, clock, clock + 1);
      clock := clock + 1;
      offer := NewOffer(o, id, clock);
      offers := Set(offers, id, offer);
      assert Valid();
      NewestOfferHeadsListing(offer);
    }

    /** An active offer strictly newer than every other heads the default listing. */
    lemma NewestOfferHeadsListing(offer: EnergyOffer)
      requires Valid()
      requires offer.id in offers.entries && offers.entries[offer.id] == offer && offer.isActive
      requires forall k :: k in offers.entries && k != offer.id ==> offers.entries[k].createdAt < offer.createdAt
      ensures GetEnergyOffers(None) != [] && GetEnergyOffers(None)[0] == offer
    {
      var page := GetEnergyOffers(None);
      assert offer in ActiveOffers();
      assert page != [];
      var first := page[0];
      assert first in page;
      assert offer in page ==> first.createdAt >= offer.createdAt by {
        if offer in page {
          var i :| 0 <= i < |page| && page[i] == offer;
          assert page[0].createdAt >= page[i].createdAt;
        }
      }
      assert first.createdAt >= offer.createdAt;
      assert first.id == offer.id;
    }

    /**
     * Sets one offer's `isActive` and nothing else; throws "Offer not found".
     * A deactivated offer leaves every listing of active offers but stays
     * among its seller's offers.
     */
    method UpdateOfferStatus(id: Id, isActive: bool) returns (r: Result<EnergyOffer, StoreError>)
      requires Valid()
      modifies this
      ensures Valid()
      ensures id !in old(offers.entries) ==> r == Failure(OfferNotFound) && unchanged(this)
      ensures id in old(offers.entries) ==>
        && r == Success(old(offers.entries[id]).(isActive := isActive))
        && offers.entries == old(offers.entries)[id := r.value]
        && offers.order == old(offers.order)
      ensures users == old(users) && transactions == old(transactions) && generation == old(generation)
      ensures clock == old(clock)
      ensures r.Success? && !isActive ==> forall limit, o :: o in GetEnergyOffers(limit) ==> o.id != id
      ensures r.Success? ==> r.value in GetOffersBySeller(r.value.sellerId)
    {
      if id !in offers.entries {
        return Failure(OfferNotFound);
      }
      var updated := offers.entries[id].(isActive := isActive);
      offers := Set(offers, id, updated);
      r := Success(updated);
    }

    // --------------------------------------------------------- transactions

    /** The transactions `getTransactions(userId)` keeps, in insertion order. */
    function InvolvedTransactions(userId: Option<string>): (r: seq<EnergyTransaction>)
      reads this
      requires Valid()
      ensures forall tx :: tx in r <==> tx in transactions.entries.Values && Involves(userId, tx)
      ensures |r| <= |transactions.order|
      ensures forall i, j :: 0 <= i < j < |r| ==> r[i].id != r[j].id
    {
      ValuesDistinct(transactions, TransactionId);
      if userId.Some? && userId.value != "" then
        var r := ValuesWhere(transactions, (tx: EnergyTransaction) => tx.buyerId == userId.value || tx.sellerId == userId.value);
        SubMultisetKeepsDistinct(r, Values(transactions), TransactionId);
        r
      else
        Values(transactions)
    }

    /**
     * `getTransactions(userId, limit = 50)`: the `limit` newest transactions
     * of the user (as buyer or seller; all of them when `userId` is absent or
     * empty), newest first.
     */
    function GetTransactions(userId: Option<string>, limit: Option<nat>): (r: seq<EnergyTransaction>)
      reads this
      requires Valid()
      ensures |r| == Min(LimitOrDefault(limit), |InvolvedTransactions(userId)|)
      ensures forall tx :: tx in r ==>
        Involves(userId, tx) && tx.id in transactions.entries && transactions.entries[tx.id] == tx
      ensures forall i, j :: 0 <= i < j < |r| ==> r[i].createdAt >= r[j].createdAt
      ensures |r| < LimitOrDefault(limit) ==> forall tx :: tx in InvolvedTransactions(userId) ==> tx in r
      ensures forall left, tx :: left in InvolvedTransactions(userId) && left !in r && tx in r ==>
        tx.createdAt >= left.createdAt
      ensures multiset(r) <= multiset(InvolvedTransactions(userId))
      ensures forall i, j :: 0 <= i < j < |r| ==> r[i].id != r[j].id
    {
      var involved := InvolvedTransactions(userId);
      var r := NewestFirst(involved, TransactionCreatedAt, LimitOrDefault(limit));
      TransactionIdsStayDistinct(r, involved);
      assert forall tx :: tx in r ==>
        Involves(userId, tx) && tx.id in transactions.entries && transactions.entries[tx.id] == tx
      by {
        forall tx | tx in r
          ensures Involves(userId, tx) && tx.id in transactions.entries && transactions.entries[tx.id] == tx
        {
          StoredTransaction(tx);
        }
      }
      forall left, tx | left in involved && left !in r && tx in r
        ensures tx.createdAt >= left.createdAt
      {
        assert TransactionCreatedAt(tx) >= TransactionCreatedAt(left);
      }
      r
    }

    lemma StoredTransaction(tx: EnergyTransaction)
      requires Valid() && tx in transactions.entries.Values
      ensures tx.id in transactions.entries && transactions.entries[tx.id] == tx
    {
      var k :| k in transactions.entries && transactions.entries[k] == tx;
    }

    /**
     * Stores the transaction under a fresh id and the current time with
     * status "pending", whatever status the insert record carries; it heads
     * the listings of everyone and of its buyer and its seller.
     */
    method CreateTransaction(t: InsertEnergyTransaction) returns (tx: EnergyTransaction)
      requires Valid()
      modifies this
      ensures Valid()
      ensures tx.id !in old(transactions.entries)
      ensures tx.status == PENDING
      ensures tx == EnergyTransaction(tx.id, t.offerId, t.buyerId, t.sellerId, t.energyAmount, t.totalPrice,
                                      t.transactionHash, t.blockNumber, PENDING, clock)
      ensures clock > old(clock)
      ensures transactions.entries == old(transactions.entries)[tx.id := tx]
      ensures transactions.order == old(transactions.order) + [tx.id]
      ensures users == old(users) && offers == old(offers) && generation == old(generation)
      ensures forall userId :: Involves(userId, tx) ==>
        GetTransactions(userId, None) != [] && GetTransactions(userId, None)[0] == tx
    {
      var id := FreshKey(transactions);
      ClockAdvances(users, offers, transactions, generation, clock, clock + 1);
      clock := clock + 1;
      tx := NewTransaction(t, id, clock);
      transactions := Set(transactions, id, tx);
      assert Valid();
      NewestTransactionHeadsListings(tx);
    }

    /** A transaction strictly newer than every other heads the default listing of each user it involves. */
    lemma NewestTransactionHeadsListings(tx: EnergyTransaction)
      requires Valid()
      requires tx.id in transactions.entries && transactions.entries[tx.id] == tx
      requires forall k :: k in transactions.entries && k != tx.id ==> transactions.entries[k].createdAt < tx.createdAt
      ensures forall userId :: Involves(userId, tx) ==>
        GetTransactions(userId, None) != [] && GetTransactions(userId, None)[0] == tx
    {
      forall userId | Involves(userId, tx)
        ensures GetTransactions(userId, None) != [] && GetTransactions(userId, None)[0] == tx
      {
        var page := GetTransactions(userId, None);
        assert tx in InvolvedTransactions(userId);
        assert page != [];
        var first := page[0];
        assert first in page;
        assert tx in page ==> first.createdAt >= tx.createdAt by {
          if tx in page {
            var i :| 0 <= i < |page| && page[i] == tx;
            assert page[0].createdAt >= page[i].createdAt;
          }
        }
        assert first.createdAt >= tx.createdAt;
        assert first.id == tx.id;
      }
    }

    /**
     * Overwrites status, hash and block number of one transaction (an absent
     * hash or block number becomes absent); throws "Transaction not found".
     */
    method UpdateTransactionStatus(id: Id, status: string, transactionHash: Option<string>, blockNumber: Option<int>)
      returns (r: Result<EnergyTransaction, StoreError>)
      requires Valid()
      modifies this
      ensures Valid()
      ensures id !in old(transactions.entries) ==> r == Failure(TransactionNotFound) && unchanged(this)
      ensures id in old(transactions.entries) ==>
        && r == Success(old(transactions.entries[id]).(status := status, transactionHash := transactionHash,
                                                       blockNumber := blockNumber))
        && transactions.entries == old(transactions.entries)[id := r.value]
        && transactions.order == old(transactions.order)
      ensures users == old(users) && offers == old(offers) && generation == old(generation)
      ensures clock == old(clock)
    {
      if id !in transactions.entries {
        return Failure(TransactionNotFound);
      }
      var updated := transactions.entries[id].(status := status, transactionHash := transactionHash,
                                               blockNumber := blockNumber);
      transactions := Set(transactions, id, updated);
      r := Success(updated);
    }

    // ----------------------------------------------------------- generation

    /** The first generation row, in insertion order, of one user. */
    function GetEnergyGeneration(userId: Id): (r: Option<EnergyGeneration>)
      reads this
      requires Valid()
      ensures r.None? <==> forall k :: k in generation.entries ==> generation.entries[k].userId != userId
      ensures r.Some? ==> r.value in generation.entries.Values && r.value.userId == userId
      ensures forall i :: FirstRowAt(generation, userId, i) ==> r == Some(generation.entries[generation.order[i]])
    {
      FirstRow(generation, userId)
    }

    /**
     * The upsert keyed by `userId`: the user's first row takes every field of
     * `g` (its `userId` included) and keeps its id; without one, a row for
     * `userId` is added. Both get the current time. When `g.userId` is
     * `userId`, the row is what a later lookup returns and no user gets a
     * second row.
     */
    method UpdateEnergyGeneration(userId: Id, g: InsertEnergyGeneration) returns (row: EnergyGeneration)
      requires Valid()
      modifies this
      ensures Valid()
      ensures clock > old(clock) && row.lastUpdated == clock
      ensures row.currentOutput == g.currentOutput && row.dailyGeneration == g.dailyGeneration
      ensures row.availableToSell == g.availableToSell && row.energyType == g.energyType
      ensures generation.entries == old(generation.entries)[row.id := row]
      ensures old(GetEnergyGeneration(userId)).Some? ==>
        && row.id == old(GetEnergyGeneration(userId)).value.id
        && row.userId == g.userId
        && generation.order == old(generation.order)
      ensures old(GetEnergyGeneration(userId)).None? ==>
        && row.id !in old(generation.entries)
        && row.userId == userId
        && generation.order == old(generation.order) + [row.id]
      ensures g.userId == userId ==> GetEnergyGeneration(userId) == Some(row)
      ensures g.userId == userId && old(OneRowPerUser(generation.entries)) ==> OneRowPerUser(generation.entries)
      ensures users == old(users) && offers == old(offers) && transactions == old(transactions)
    {
      clock := clock + 1;
      assert Valid();
      generation, row := UpsertRow(generation, userId, g, clock);
    }
  }

  /** Each user is stored under its own id and was created no later than `now`. */
  ghost predicate UsersStored(t: Table<User>, now: Timestamp)
  {
    Tables.Valid(t) && forall k :: k in t.entries ==> t.entries[k].id == k && t.entries[k].createdAt <= now
  }

  /** Each offer is stored under its own id and was created no later than `now`. */
  ghost predicate OffersStored(t: Table<EnergyOffer>, now: Timestamp)
  {
    Tables.Valid(t) && forall k :: k in t.entries ==> t.entries[k].id == k && t.entries[k].createdAt <= now
  }

  /** Each transaction is stored under its own id and was created no later than `now`. */
  ghost predicate TransactionsStored(t: Table<EnergyTransaction>, now: Timestamp)
  {
    Tables.Valid(t) && forall k :: k in t.entries ==> t.entries[k].id == k && t.entries[k].createdAt <= now
  }

  /** Each generation row is stored under its own id and was updated no later than `now`. */
  ghost predicate GenerationStored(t: Table<EnergyGeneration>, now: Timestamp)
  {
    Tables.Valid(t) && KeyedById(t) && StampedBy(t, now)
  }

  /** Taking offers from a sequence without two of the same id keeps their ids distinct. */
  lemma OfferIdsStayDistinct(r: seq<EnergyOffer>, s: seq<EnergyOffer>)
    requires multiset(r) <= multiset(s)
    requires forall i, j :: 0 <= i < j < |s| ==> s[i].id != s[j].id
    ensures forall i, j :: 0 <= i < j < |r| ==> r[i].id != r[j].id
  {
    assert DistinctBy(s, OfferId);
    SubMultisetKeepsDistinct(r, s, OfferId);
  }

  /** Taking transactions from a sequence without two of the same id keeps their ids distinct. */
  lemma TransactionIdsStayDistinct(r: seq<EnergyTransaction>, s: seq<EnergyTransaction>)
    requires multiset(r) <= multiset(s)
    requires forall i, j :: 0 <= i < j < |s| ==> s[i].id != s[j].id
    ensures forall i, j :: 0 <= i < j < |r| ==> r[i].id != r[j].id
  {
    assert DistinctBy(s, TransactionId);
    SubMultisetKeepsDistinct(r, s, TransactionId);
  }

  /** The invariant of every table survives the clock moving forward. */
  lemma ClockAdvances(users: Table<User>, offers: Table<EnergyOffer>, transactions: Table<EnergyTransaction>,
                      generation: Table<EnergyGeneration>, now: Timestamp, later: Timestamp)
    requires now <= later
    requires UsersStored(users, now) && OffersStored(offers, now)
    requires TransactionsStored(transactions, now) && GenerationStored(generation, now)
    ensures UsersStored(users, later) && OffersStored(offers, later)
    ensures TransactionsStored(transactions, later) && GenerationStored(generation, later)
  {
  }

  /** The first row of `userId` in `t`, in insertion order. */
  function FirstRow(t: Table<EnergyGeneration>, userId: Id): (r: Option<EnergyGeneration>)
    requires Tables.Valid(t)
    ensures r.None? <==> forall k :: k in t.entries ==> t.entries[k].userId != userId
    ensures r.Some? ==> exists i :: FirstRowAt(t, userId, i) && r.value == t.entries[t.order[i]]
    ensures r.Some? ==> r.value in t.entries.Values && r.value.userId == userId
    ensures forall i :: FirstRowAt(t, userId, i) ==> r == Some(t.entries[t.order[i]])
  {
    var r := FirstWhere(t, (row: EnergyGeneration) => row.userId == userId);
    assert forall i :: FirstRowAt(t, userId, i) <==>
      FirstMatchAt(t, (row: EnergyGeneration) => row.userId == userId, i);
    r
  }

  /** Every row of `t` is stored under its own id. */
  ghost predicate KeyedById(t: Table<EnergyGeneration>)
  {
    forall k :: k in t.entries ==> t.entries[k].id == k
  }

  /** Every row of `t` was updated no later than `now`. */
  ghost predicate StampedBy(t: Table<EnergyGeneration>, now: Timestamp)
  {
    forall k :: k in t.entries ==> t.entries[k].lastUpdated <= now
  }

  /**
   * The upsert on the generation table, stamped `now`: it overwrites the
   * user's first row under that row's id, or adds a row under a fresh id.
   */
  method UpsertRow(t: Table<EnergyGeneration>, userId: Id, g: InsertEnergyGeneration, now: Timestamp)
    returns (t': Table<EnergyGeneration>, row: EnergyGeneration)
    requires Tables.Valid(t) && KeyedById(t) && StampedBy(t, now)
    ensures Tables.Valid(t') && KeyedById(t') && StampedBy(t', now)
    ensures row.lastUpdated == now
    ensures row.currentOutput == g.currentOutput && row.dailyGeneration == g.dailyGeneration
    ensures row.availableToSell == g.availableToSell && row.energyType == g.energyType
    ensures t'.entries == t.entries[row.id := row]
    ensures FirstRow(t, userId).Some? ==>
      && row.id == FirstRow(t, userId).value.id
      && row.userId == g.userId
      && t'.order == t.order
    ensures FirstRow(t, userId).None? ==>
      && row.id !in t.entries
      && row.userId == userId
      && t'.order == t.order + [row.id]
    ensures g.userId == userId ==> FirstRow(t', userId) == Some(row)
    ensures g.userId == userId && OneRowPerUser(t.entries) ==> OneRowPerUser(t'.entries)
  {
    var existing := FirstRow(t, userId);
    if existing.Some? {
      row := NewGeneration(g, existing.value.id, now);
      t' := Set(t, row.id, row);
      if g.userId == userId {
        OverwriteFirstRow(t, userId, row);
      }
    } else {
      var id := FreshKey(t);
      row := NewGeneration(g.(userId := userId), id, now);
      t' := Set(t, id, row);
      AddFirstRow(t, userId, row);
    }
    StoredUnderOwnId(t, row);
  }

  /** Storing a row under its own id, stamped `now`, keeps the table's invariant. */
  lemma StoredUnderOwnId(t: Table<EnergyGeneration>, row: EnergyGeneration)
    requires Tables.Valid(t) && KeyedById(t) && StampedBy(t, row.lastUpdated)
    ensures KeyedById(Set(t, row.id, row)) && StampedBy(Set(t, row.id, row), row.lastUpdated)
  {
  }

  /** Overwriting a user's first row with another row of that user: the lookup finds the new row. */
  lemma OverwriteFirstRow(t: Table<EnergyGeneration>, userId: Id, row: EnergyGeneration)
    requires Tables.Valid(t) && KeyedById(t)
    requires FirstRow(t, userId).Some? && row.id == FirstRow(t, userId).value.id && row.userId == userId
    ensures FirstRow(Set(t, row.id, row), userId) == Some(row)
    ensures OneRowPerUser(t.entries) ==> OneRowPerUser(Set(t, row.id, row).entries)
  {
    var pos := FirstRowIndex(t, userId, FirstRow(t, userId).value);
    assert t.order[pos] == row.id;
    UpsertedRowStaysFirst(t, userId, pos, row);
    OverwriteKeepsOneRowPerUser(t, row);
  }

  /** Adding a row for a user who had none: the lookup finds it. */
  lemma AddFirstRow(t: Table<EnergyGeneration>, userId: Id, row: EnergyGeneration)
    requires Tables.Valid(t)
    requires FirstRow(t, userId).None? && row.id !in t.entries && row.userId == userId
    ensures FirstRow(Set(t, row.id, row), userId) == Some(row)
    ensures OneRowPerUser(t.entries) ==> OneRowPerUser(Set(t, row.id, row).entries)
  {
    AddedRowIsFirst(t, userId, row);
    AddingKeepsOneRowPerUser(t, row);
  }

  /** The `i`-th row of `t` in insertion order is the first one of `userId`. */
  ghost predicate FirstRowAt(t: Table<EnergyGeneration>, userId: Id, i: int)
    requires Tables.Valid(t)
  {
    && 0 <= i < |t.order|
    && t.entries[t.order[i]].userId == userId
    && forall j :: 0 <= j < i ==> t.entries[t.order[j]].userId != userId
  }

  lemma FirstRowIndex(t: Table<EnergyGeneration>, userId: Id, row: EnergyGeneration) returns (pos: int)
    requires Tables.Valid(t)
    requires exists i :: FirstRowAt(t, userId, i) && row == t.entries[t.order[i]]
    ensures FirstRowAt(t, userId, pos) && row == t.entries[t.order[pos]]
  {
    pos :| FirstRowAt(t, userId, pos) && row == t.entries[t.order[pos]];
  }

  /** Overwriting a user's first row with another row of that user keeps it first. */
  lemma UpsertedRowStaysFirst(t: Table<EnergyGeneration>, userId: Id, pos: int, row: EnergyGeneration)
    requires Tables.Valid(t) && FirstRowAt(t, userId, pos) && row.userId == userId
    ensures FirstRowAt(Set(t, t.order[pos], row), userId, pos)
  {
    var t' := Set(t, t.order[pos], row);
    forall j | 0 <= j < pos
      ensures t'.entries[t'.order[j]].userId != userId
    {
      assert t'.order[j] == t.order[j] != t.order[pos];
    }
  }

  /** A row added for a user who had none comes first among that user's rows. */
  lemma AddedRowIsFirst(t: Table<EnergyGeneration>, userId: Id, row: EnergyGeneration)
    requires Tables.Valid(t) && row.id !in t.entries && row.userId == userId
    requires forall k :: k in t.entries ==> t.entries[k].userId != userId
    ensures FirstRowAt(Set(t, row.id, row), userId, |t.order|)
  {
    var t' := Set(t, row.id, row);
    forall j | 0 <= j < |t.order|
      ensures t'.entries[t'.order[j]].userId != userId
    {
      assert t'.order[j] == t.order[j] && t.order[j] in t.entries;
    }
  }

  /** Overwriting a row with one of the same user leaves every user with at most one row. */
  lemma OverwriteKeepsOneRowPerUser(t: Table<EnergyGeneration>, row: EnergyGeneration)
    requires row.id in t.entries && t.entries[row.id].userId == row.userId
    ensures OneRowPerUser(t.entries) ==> OneRowPerUser(t.entries[row.id := row])
  {
  }

  /** Adding the first row of a user leaves every user with at most one row. */
  lemma AddingKeepsOneRowPerUser(t: Table<EnergyGeneration>, row: EnergyGeneration)
    requires row.id !in t.entries
    requires forall k :: k in t.entries ==> t.entries[k].userId != row.userId
    ensures OneRowPerUser(t.entries) ==> OneRowPerUser(t.entries[row.id := row])
  {
  }
}
