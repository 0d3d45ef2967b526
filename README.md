# Energy marketplace data layer, in Dafny

A model of the server side of a peer-to-peer energy-trading web application:
the in-memory store `MemStorage` with its four tables (users, energy offers,
energy transactions, energy-generation readings), the HTTP handlers that sit
on top of it, and the record shapes they share. Proofs cover what each
operation does to the tables and what each endpoint answers.

- `wrappers.dfy`: `Option`, `Result` and `Min`.
- `listing.dfy` (module `Listing`): the array pipelines the store uses.
  - `filter` and `find`.
  - The newest-first sort, modelled as a stable insertion sort.
  - `slice(0, limit)`.
  - Proofs: sorted, a permutation, top-`limit` selection, stability.
- `tables.dfy` (module `Tables`): a JavaScript `Map<string, V>`.
  - Its entries, plus the order in which keys were first set. `values()` iterates in that order.
  - `set` keeps an existing key in place and appends a new one.
  - `randomUUID()` is `FreshKey`, an id not yet in the map.
- `schema.dfy` (module `Schema`): the four record types and their insert shapes.
  - An insert shape leaves out the fields the store assigns.
  - The record each create builds from its insert shape, with the round trip between the two.
  - The declared uniqueness constraints.
- `storage.dfy` (module `Storage`): class `MemStorage` has one field per table and a `clock`.
  - `new Date()` is the clock moving one tick forward, so timestamps are naturals.
  - The class invariant `Valid` says three things: each table's iteration order lists exactly its keys, each once; every row is stored under its own id; and no timestamp is later than the clock.
  - Operations that throw return `Failure(StoreError)`; `StoreError.Message` gives the thrown text.
- `routes.dfy` (module `Routes`): one method per Express handler. Each takes the store and the request after parsing.
  - A body that fails its zod schema arrives as `None`.
  - Each returns the status code and the JSON body.
- `scenarios.dfy` (module `Scenarios`): request sequences on a fresh store.

Where the code and the declared design differ, the model follows the code:

- `createUser` checks nothing. Username uniqueness comes only from the register handler's check-then-create.
- Nothing checks `wallet_address` uniqueness.
- The in-memory store does not apply the `user_type` default `"consumer"`. A user registered without a type has none.
- `updateTransactionStatus` replaces `transactionHash` and `blockNumber` wholesale. It does not patch them.
- `updateEnergyGeneration` copies the body's own `userId` into the existing row. The key it looks up by may differ from it.
- Login compares the stored password with the submitted one directly.

## Model

| member | source | states |
|---|---|---|
| Listing.Filter | server/storage.ts:98-102 | the kept elements are exactly those of the input that satisfy the predicate, each exactly as often as it occurs in the input |
| Listing.FilterOfConcat | server/storage.ts:98-102 | filtering distributes over concatenation, so the kept elements stay in input order |
| Listing.SubMultisetKeepsDistinct | server/storage.ts:88-91 | taking some of the elements of a sequence whose elements differ on a key (filter, sort, slice) never produces two with the same key |
| Listing.FirstIndex | server/storage.ts:55-59 | the index found is the first one satisfying the predicate; none satisfies it when nothing is found |
| Listing.Find | server/storage.ts:55-59 | `find` returns nothing exactly when no element matches, otherwise the element at the first matching position |
| Listing.InsertByKey | server/storage.ts:90 | inserting into a newest-first sequence keeps it newest first and adds exactly that element |
| Listing.SortNewestFirst | server/storage.ts:88-90 | the sort by descending timestamp yields a newest-first permutation of its input |
| Listing.Take | server/storage.ts:91 | `slice(0, n)` is the prefix of length min(n, length) |
| Listing.NewestFirst | server/storage.ts:87-92 | sort then slice: the result is newest first, at most `limit` long, drawn from the input; everything left out is no newer than anything kept; a short page leaves nothing out |
| Listing.SortKeepsTies | server/storage.ts:90 | the sort is stable: elements with equal timestamps keep their relative order |
| Listing.TiesAreFilter | server/storage.ts:90 | the elements with a given timestamp, whose order stability preserves, are what `filter` keeps for that timestamp |
| Listing.InsertByKeyKeepsTies | server/storage.ts:90 | one insertion step keeps the relative order of elements with equal keys |
| Listing.NewestHeadsPage | server/storage.ts:87-92 | an element strictly newer than all others heads every non-empty page |
| Tables.Empty | server/storage.ts:44-49 | `new Map()` has no entries and an empty iteration order |
| Tables.Set | server/storage.ts:74 | `map.set` stores the value under the key, keeps an existing key's place and appends a new key |
| Tables.Values | server/storage.ts:56 | `Array.from(map.values())` lists every stored value once, in iteration order |
| Tables.FirstWhere | server/storage.ts:55-59 | `find` over the values: nothing exactly when no entry matches, otherwise the first match in iteration order |
| Tables.ValuesWhere | server/storage.ts:98-102 | `filter` over the values keeps exactly the stored values that satisfy the predicate, each as often as it is stored |
| Tables.ValuesOfNewKey | server/storage.ts:74 | after setting a new key, `values()` yields the old values in their order and then the new value |
| Tables.ValuesWhereOfNewKey | server/storage.ts:98-102 | after setting a new key, `filter` over the values gives the old result followed by the new value when it matches: results follow insertion order |
| Tables.ValuesDistinct | server/storage.ts:56 | when every value carries its own key, no two values in `values()` carry the same one |
| Tables.FreshKey | server/storage.ts:68 | `randomUUID()` yields a non-empty id not yet used as a key |
| Schema.NewUser | shared/schema.ts:51-54 | the user `createUser` builds carries the given id and time, and omitting those two columns gives back the insert record |
| Schema.UserFromItsInsert | shared/schema.ts:6-13 | every user row is its insert record plus its id and creation time |
| Schema.NewOffer | shared/schema.ts:56-61 | the offer `createEnergyOffer` builds carries the given id and time, is active, has no contract address or hash, and omitting those columns gives back the insert record with `isActive` set |
| Schema.OfferFromItsInsert | shared/schema.ts:15-26 | every active offer without contract address or hash is its insert record plus its id and time |
| Schema.NewTransaction | shared/schema.ts:63-66 | the transaction `createTransaction` builds carries the given id and time, is pending, and omitting those columns gives back the insert record with status "pending" |
| Schema.TransactionFromItsInsert | shared/schema.ts:28-39 | every pending transaction is its insert record plus its id and time |
| Schema.NewGeneration | shared/schema.ts:68-71 | a generation row built from an insert record carries the given id and stamp, and omitting those gives back the insert record |
| Schema.GenerationFromItsInsert | shared/schema.ts:41-49 | every generation row is its insert record plus its id and stamp |
| Schema.UsernamesUnique | shared/schema.ts:8 | the declared uniqueness of `username`: no two stored users share one |
| Schema.WalletAddressesUnique | shared/schema.ts:10 | the declared uniqueness of `wallet_address` among users that have one |
| Schema.OneRowPerUser | server/storage.ts:176-198 | at most one generation row per user, what the upsert keyed by user id is meant to keep |
| Storage.LimitOrDefault | server/storage.ts:87 | the `limit = 50` default of the listings |
| Storage.Involves | server/storage.ts:128-131 | a transaction belongs to a user's listing when the user is its buyer or its seller; every one does when the user id is absent or empty |
| Storage.MemStorage.constructor | server/storage.ts:44-49 | the four tables start empty (and the invariant holds) |
| Storage.MemStorage.GetUser | server/storage.ts:51-53 | a user is returned exactly when the id is a key, and it is the one stored under it |
| Storage.MemStorage.GetUserByUsername | server/storage.ts:55-59 | nothing exactly when no user has the name; otherwise the first user with that name in insertion order, the only one while usernames are unique |
| Storage.MemStorage.GetUserByWalletAddress | server/storage.ts:61-65 | nothing exactly when no user has that wallet address; otherwise the stored user with it that was inserted first |
| Storage.MemStorage.CreateUser | server/storage.ts:67-76 | the user is stored under a fresh id with the insert fields as given and the current time; no other row of any table changes |
| Storage.MemStorage.UpdateUserWallet | server/storage.ts:78-85 | an unknown id fails with "User not found" and changes nothing; otherwise only that user's wallet address is replaced |
| Storage.MemStorage.ActiveOffers | server/storage.ts:89 | the active offers and no others, no offer twice; empty exactly when no stored offer is active |
| Storage.MemStorage.GetEnergyOffers | server/storage.ts:87-92 | stored, active offers drawn from the active list, no offer twice, newest first, min(limit, active count) of them (limit 50 by default); every active offer left out is no newer than any listed |
| Storage.MemStorage.GetEnergyOffer | server/storage.ts:94-96 | an offer is returned exactly when the id is a key, and it is the one stored under it |
| Storage.MemStorage.GetOffersBySeller | server/storage.ts:98-102 | exactly the stored offers of that seller, active or not, each once |
| Storage.MemStorage.CreateEnergyOffer | server/storage.ts:104-114 | the offer is stored under a fresh id and is active whatever the input said; it heads the default listing and appears among its seller's offers; nothing else changes |
| Storage.MemStorage.NewestOfferHeadsListing | server/storage.ts:87-92 | an active offer newer than every other one is the first of the default listing |
| Storage.MemStorage.UpdateOfferStatus | server/storage.ts:116-123 | an unknown id fails with "Offer not found" and changes nothing; otherwise only that offer's `isActive` changes; once deactivated it is in no listing but still among its seller's offers |
| Storage.MemStorage.InvolvedTransactions | server/storage.ts:126-131 | with a non-empty user id, exactly the transactions where that user buys or sells; with none or an empty one, all of them; each once |
| Storage.MemStorage.GetTransactions | server/storage.ts:125-137 | stored, involved transactions drawn from the involved list, none twice, newest first, min(limit, involved count) of them; every involved transaction left out is no newer than any listed |
| Storage.MemStorage.CreateTransaction | server/storage.ts:139-149 | the transaction is stored under a fresh id with status "pending" whatever the input said; it heads the default listing of both its buyer and its seller; nothing else changes |
| Storage.MemStorage.NewestTransactionHeadsListings | server/storage.ts:125-137 | a transaction newer than every other one heads the default listing of every user it involves |
| Storage.MemStorage.UpdateTransactionStatus | server/storage.ts:151-168 | an unknown id fails with "Transaction not found" and changes nothing; otherwise status, hash and block number are replaced together (omitted ones become absent) and nothing else changes |
| Storage.MemStorage.GetEnergyGeneration | server/storage.ts:170-174 | nothing exactly when the user has no row; otherwise that user's first row in insertion order |
| Storage.MemStorage.UpdateEnergyGeneration | server/storage.ts:176-198 | upsert by user id: an existing first row is overwritten in place under its id (table size unchanged), otherwise one row with the argument's user id is added; both are stamped now; when the body's user id is the key, the lookup then finds this row and one row per user is kept |
| Storage.FirstRow | server/storage.ts:170-174 | the first row of a user in the generation table, or nothing exactly when the user has none |
| Storage.UpsertRow | server/storage.ts:176-198 | the upsert on the generation table alone: the row it writes, the id it keeps or draws fresh, and the row a later lookup finds |
| Storage.OverwriteFirstRow | server/storage.ts:179-186 | overwriting a user's first row with a row of the same user leaves it first and keeps one row per user |
| Storage.AddFirstRow | server/storage.ts:187-196 | a row added for a user without one is what the lookup finds, and one row per user is kept |
| Routes.Register | server/routes.ts:24-38 | an unparsable body gives 400 "Invalid registration data", a taken username 400 "Username already exists", both with the store unchanged; otherwise 200 with id, username and user type only (no password), the full user stored under a fresh id appended to the iteration order at the advanced clock; usernames stay unique |
| Routes.Login | server/routes.ts:40-53 | an empty or missing field gives 400 "Invalid login data"; 401 "Invalid credentials" exactly when no user has the name or the password differs; 200 returns that user with the wallet address |
| Routes.ConnectWallet | server/routes.ts:56-70 | the body is checked first (400), then the `user-id` header (401 "User ID required"), then the user (400 for an unknown id), none of which changes anything; otherwise only that user's wallet changes and the response echoes the new wallet address |
| Routes.ListOffers | server/routes.ts:73-81 | 200 with the storage listing; without a `limit` at most 50 offers, all active |
| Routes.GetOffer | server/routes.ts:83-93 | 404 "Offer not found" exactly when the store has no offer with that id; otherwise 200 with that offer |
| Routes.CreateOffer | server/routes.ts:95-103 | an unparsable body gives 400 "Invalid offer data" and changes nothing; otherwise 200 with the offer stored under a fresh id: the body's seller, amount, price, energy type and location, active, no contract address or hash, stamped now |
| Routes.UpdateOfferStatus | server/routes.ts:105-113 | an unparsable body or an unknown id gives 400 "Failed to update offer status" and changes nothing; otherwise only that offer's `isActive` changes |
| Routes.ListTransactions | server/routes.ts:116-125 | 200 with the storage listing; with a non-empty user id only that user's transactions; without a `limit` at most 50 |
| Routes.CreateTransaction | server/routes.ts:127-135 | an unparsable body gives 400 "Invalid transaction data" and changes nothing; otherwise 200 with the transaction stored under a fresh id: every column of the body, status "pending", stamped now |
| Routes.UpdateTransactionStatus | server/routes.ts:137-155 | an unparsable body or an unknown id gives 400 "Failed to update transaction status" and changes nothing; otherwise status, hash and block number are replaced |
| Routes.GetGeneration | server/routes.ts:158-165 | always 200 with exactly the storage lookup: no row exactly when the user has none, otherwise that user's first row in insertion order |
| Routes.PostGeneration | server/routes.ts:167-175 | an unparsable body gives 400 "Invalid generation data"; otherwise the upsert keyed by the body's own user id: the row holds the body's columns stamped now, keeps the id of the user's existing row or takes a fresh one, the lookup then finds it and one row per user is kept |
| Scenarios.DuplicateRegistration | server/routes.ts:27-33 | a second registration of the same name is refused, and the first user still logs in; a user registered without a type has none |
| Scenarios.SharedWalletAddress | shared/schema.ts:10 | two users can connect the same wallet address, so the declared uniqueness of `wallet_address` does not hold in the store |
| Scenarios.Purchase | server/storage.ts:139-149 | a purchase submitted as "completed" is stored as pending and is the buyer's whole history |
| Scenarios.Withdrawal | server/storage.ts:116-123 | an offer submitted as inactive is listed as active; once its seller deactivates it, the market listing is empty |

## Left out

- HTTP itself is left out: Express routing, `createServer`, status and JSON serialisation. A handler returns a `Response` value.
- zod and drizzle parsing is left out. Any body that fails its schema is `None`.
  - The `min(1)` rules of the login and wallet-connect schemas are modelled: empty strings are refused.
  - The insert schemas generated from the tables are modelled only as parse-or-fail. Their field-level rules are not.
- The `error` object attached to 400 and 500 responses is left out; only `message` is modelled.
- The 500 paths of the read handlers are left out. The in-memory getters never throw, so those paths cannot be reached here.
- `parseInt` on the `limit` query is left out. The limit arrives as a natural number; `NaN` and negative values are not modelled.
- `null` and `undefined` are both modelled as `None`.
- The JSON number `blockNumber` is modelled as an integer.
- Decimal columns are opaque strings. The server does no arithmetic on them.
- `Date` is modelled as a natural-number clock that advances on every create and upsert. Two records never share a timestamp.
  - The sort is still proved stable (`Listing.SortKeepsTies`), so equal timestamps would keep insertion order.
- `randomUUID()` is any id not yet used in that table. Its format and randomness are not modelled.
- Calls are sequential. Requests that interleave at `await` points are not modelled.
- The relational backend is not part of this model: drizzle tables, `gen_random_uuid()`, `defaultNow()`, foreign keys and column defaults.
  - This includes the `user_type` default `"consumer"`.
- The foreign-key references (`sellerId`, `buyerId`, `offerId`, generation `userId`) are carried as plain ids. The in-memory store does not check them either.
- `Routes.ListOffers`: without a `limit`, it states the default of 50 and that every listed offer is active. The ordering and top-50 facts live in `Storage.MemStorage.GetEnergyOffers`.
- `Routes.CreateOffer`: it does not repeat that the new offer heads the market listing. `Storage.MemStorage.CreateEnergyOffer` states that.
- `Storage.MemStorage.CreateEnergyOffer`: that the new offer heads the default listing holds because the model's clock ticks on every create. With `new Date()` two offers created in the same millisecond tie. The stable sort then keeps the older one first, and the new offer comes second.
- `Storage.MemStorage.CreateTransaction`: that the new transaction heads its buyer's and seller's default listings depends on the strictly ticking clock in the same way. A transaction created in the same millisecond as an older one of the same user would come second.
