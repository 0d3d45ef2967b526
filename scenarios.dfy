/**
 * Request sequences run against a fresh store, showing what the handlers
 * guarantee together and where the declared constraints are not enforced.
 */
module Scenarios {
  import opened Wrappers
  import opened Tables
  import opened Schema
  import opened Storage
  import opened Routes

  function Newcomer(name: string): InsertUser
  {
    InsertUser(name, "secret", None, None)
  }

  /**
   * Registering the same username twice: the second request is refused and
   * the first user keeps the only row. The first response carries no user
   * type, since the in-memory store does not apply the column default.
   */
  method DuplicateRegistration() returns (first: Response, second: Response, login: Response)
    ensures first.status == OK && first.body.Registered? && first.body.registered.userType.None?
    ensures second == Error(BAD_REQUEST, "Username already exists")
    ensures login.status == OK && login.body.SignedIn?
    ensures login.body.account.id == first.body.registered.id
  {
    var store := new MemStorage();
    first := Register(store, Some(Newcomer("alice")));
    second := Register(store, Some(Newcomer("alice")));
    assert store.users.entries.Keys == {first.body.registered.id};
    login := Login(store, Some(Credentials("alice", "secret")));
  }

  /**
   * Two users connect the same wallet address and both requests succeed,
   * although the column is declared unique: nothing on this path checks it.
   */
  method SharedWalletAddress() returns (a: Response, b: Response, store: MemStorage)
    ensures a.status == OK && b.status == OK
    ensures store.Valid() && !WalletAddressesUnique(store.users.entries)
  {
    store := new MemStorage();
    var alice := Register(store, Some(Newcomer("alice")));
    var bob := Register(store, Some(Newcomer("bob")));
    var aliceId, bobId := alice.body.registered.id, bob.body.registered.id;
    assert aliceId != bobId;
    a := ConnectWallet(store, Some("0xabc"), Some(aliceId));
    b := ConnectWallet(store, Some("0xabc"), Some(bobId));
    assert store.users.entries[aliceId].walletAddress == Some("0xabc");
    assert store.users.entries[bobId].walletAddress == Some("0xabc");
  }

  /**
   * A purchase recorded against an offer is pending whatever the request
   * said, and it is the buyer's whole history.
   */
  method Purchase() returns (bought: Response, history: Response)
    ensures bought.status == OK && bought.body.OneTransaction? && bought.body.transaction.status == PENDING
    ensures history == Response(OK, TransactionList([bought.body.transaction]))
  {
    var store := new MemStorage();
    bought := CreateTransaction(store, Some(InsertEnergyTransaction(
      "offer", "buyer", "seller", "10", "0.5", None, None, Some("completed"))));
    assert store.transactions.entries.Keys == {bought.body.transaction.id};
    assert store.transactions.order == [bought.body.transaction.id];
    var involved := store.InvolvedTransactions(Some("buyer"));
    assert bought.body.transaction in involved;
    assert |involved| == 1;
    history := ListTransactions(store, Some("buyer"), None);
    assert history.body.transactions[0] in involved;
  }

  /**
   * An offer listed as inactive is active once stored; after its seller
   * withdraws it, the market listing is empty.
   */
  method Withdrawal() returns (listed: Response, withdrawn: Response, market: Response)
    ensures listed.status == OK && listed.body.OneOffer? && listed.body.offer.isActive
    ensures withdrawn.status == OK
    ensures market == Response(OK, OfferList([]))
  {
    var store := new MemStorage();
    listed := CreateOffer(store, Some(InsertEnergyOffer("seller", "10", "0.05", "solar", None, Some(false))));
    var offerId := listed.body.offer.id;
    assert store.offers.entries.Keys == {offerId};
    withdrawn := UpdateOfferStatus(store, offerId, Some(false));
    assert store.offers.entries.Keys == {offerId} && !store.offers.entries[offerId].isActive;
    assert store.offers.entries.Values == {store.offers.entries[offerId]};
    market := ListOffers(store, None);
  }
}
