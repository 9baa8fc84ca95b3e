# Customer management backend — a Dafny model

This project models the server of a small customer management
application. It is an Express server over a SQLite database with two
tables:
- `customers`: first name, last name, a unique phone number and a
  creation time;
- `addresses`: owned by a customer through a foreign key with
  `ON DELETE CASCADE`.

The HTTP routes list customers with a search filter, sorting and paging.
They also read, create, update and delete customers, and list, create,
update and delete a customer's addresses. A CORS callback decides which
browser origins may call the API, and on start-up the server seeds three
sample customers into an empty table.

The model has seven modules in six files:

- `Records` (`records.dfy`): the rows of both tables and the handler
  outcome. `Ok`, `BadRequest`, `NotFound` and `StoreError` stand for
  statuses 200, 400, 404 and 500. Request fields are `Option`s, and
  JavaScript's `!field` test is the `Present` / `PresentId` predicates.
- `Text` (`text.dfy`): substring search (`includes`, `LIKE '%s%'`), ASCII
  case mapping, and the BINARY collation order SQLite sorts TEXT by.
- `Cors` and `CorsIntended` (`cors.dfy`): the origin callback as written,
  the allow-list as its `*` entries evidently mean it, and the
  counterexamples that separate the two.
- `Listing` (`listing.dfy`): the `GET /api/customers` engine. It fills in
  the defaults, resolves `sortBy`/`sortOrder`, applies the LIKE filter
  over three columns, sorts with `ORDER BY`, takes the `LIMIT`/`OFFSET`
  window, and computes `total` and `totalPages = ceil(total / limit)`.
  The sort is an insertion sort proved to produce the one ordered
  arrangement of the matches.
- `Schema` (`schema.dfy`): the columns the tables declare and the columns
  the two UPDATE statements assign.
- `Store` (`store.dfy`): `class Store` holds the two tables as maps from
  id to row, plus the AUTOINCREMENT counters. Its methods are the route
  handlers that change the tables; its functions are the ones that only
  read. `Valid()` states the table invariants:
  - keys are ids, and ids lie below the next id;
  - phone numbers are unique;
  - every address's `customer_id` names a customer;
  - no stored text field is empty.

  Every handler preserves `Valid()` and states its whole new state.

## Model

| member | source | states |
|---|---|---|
| Cors.AllowOrigin | customer-management-app/server/index.js:12-24 | the origin callback: allowed when `!origin` holds (no origin or an empty one), otherwise when some allow-list entry, with `*.` removed, is contained in the origin |
| Cors.SomeIncluded | customer-management-app/server/index.js:19 | `allowedOrigins.some(allowed => origin.includes(allowed.replace('*.', '')))` over the list in order |
| Cors.ReplaceFirst | customer-management-app/server/index.js:19 | `String.prototype.replace` with a string pattern: the first occurrence is replaced, and without one the text is returned unchanged |
| Cors.AllowOriginIsSubstringTest | customer-management-app/server/index.js:12-24 | the origin callback allows a request without an origin or with an empty one, and otherwise exactly the origins containing one of `http://localhost:3000`, `https://github.dev`, `https://app.github.dev`: `replace('*.', '')` turns the wildcard entries into plain literals |
| Text.FirstIndex | customer-management-app/server/index.js:19 | the first occurrence of a pattern, or None exactly when the text does not contain it (the search behind `String.replace` with a string pattern) |
| Cors.FirstIndexAfter | customer-management-app/server/index.js:19 | in `pre + pat + post`, when the first character of `pat` does not occur in `pre`, the first occurrence is right after `pre` |
| Cors.ReplaceWildcard | customer-management-app/server/index.js:19 | replacing the first `*.` in `pre + "*." + post` gives `pre + post` when `pre` has no `*` |
| Cors.StrippedLocalhost | customer-management-app/server/index.js:15 | the localhost entry has no `*.` and is kept as it is |
| Cors.StrippedGithubDev | customer-management-app/server/index.js:16 | `https://*.github.dev` becomes the literal `https://github.dev` |
| Cors.StrippedAppGithubDev | customer-management-app/server/index.js:17 | `https://*.app.github.dev` becomes the literal `https://app.github.dev` |
| CorsIntended.AllowOriginIntended | customer-management-app/server/index.js:12-24 | the corrected callback: `!origin` still allows, and a `*.` entry stands for a non-empty subdomain between its prefix and suffix |
| CorsIntended.IntendedIsSubdomainTest | customer-management-app/server/index.js:14-19 | the corrected test allows exactly the empty origin, the origins containing the localhost literal, or of the form `https://<non-empty>.github.dev` or `https://<non-empty>.app.github.dev` |
| CorsIntended.EntryLocalhost | customer-management-app/server/index.js:15 | the corrected test judges the localhost entry by substring |
| CorsIntended.EntryGithubDev | customer-management-app/server/index.js:16 | the corrected test reads `https://*.github.dev` as a non-empty subdomain between `https://` and `.github.dev` |
| CorsIntended.EntryAppGithubDev | customer-management-app/server/index.js:17 | the same for `https://*.app.github.dev` |
| CorsIntended.IntendedAllowsSubdomains | customer-management-app/server/index.js:16 | every `https://<sub>.github.dev` with a non-empty `sub` is allowed by the corrected test |
| CorsIntended.IntendedKeepsLocalhost | customer-management-app/server/index.js:15 | on the entry without `*`, the corrected test and the test as written agree |
| CorsIntended.IntendedRefuses | customer-management-app/server/index.js:14-23 | the corrected test refuses a non-empty origin with no `3` that does not end in `.github.dev` |
| CorsIntended.AsWrittenAllowsAnyContinuation | customer-management-app/server/index.js:19 | as written, every origin starting with `https://github.dev` is allowed, whatever host follows |
| CorsIntended.AsWrittenAllowsForeignHost | customer-management-app/server/index.js:19 | a foreign host continuing `https://github.dev` (e.g. `https://github.dev.example.com`) is allowed as written and refused by the corrected test |
| CorsIntended.AsWrittenRefusesSubdomain | customer-management-app/server/index.js:16-19 | an `https://<sub>.github.dev` origin whose `sub` has no `/` and starts with neither `g` nor `a` is refused as written and allowed by the corrected test |
| CorsIntended.AsWrittenRefuses | customer-management-app/server/index.js:19 | none of the three stripped literals occurs in `https://<sub><tail>` when neither `sub` nor `tail` has a `/` and `sub` starts with neither `g` nor `a` |
| CorsIntended.NoLiteralAt | customer-management-app/server/index.js:19 | a literal holding `//` cannot occur in an https origin with no further `/` unless it lines up with the scheme |
| Text.OccursAt | customer-management-app/server/index.js:19 | the needle sits in the text at the given position |
| Text.Contains | customer-management-app/server/index.js:19 | the substring test holds exactly when the needle occurs at some position |
| Text.ContainsEmpty | customer-management-app/server/routes/customers.js:16 | every text contains the empty text (`LIKE '%%'` matches every value) |
| Text.ContainsInside | customer-management-app/server/index.js:19 | a text built around a needle contains it |
| Text.Lower | customer-management-app/server/routes/customers.js:20 | ASCII lower-casing, as SQLite's LIKE folds case; the length is kept |
| Text.Upper | customer-management-app/server/routes/customers.js:21 | ASCII `toUpperCase`; the length is kept |
| Text.UpperIdempotent | customer-management-app/server/routes/customers.js:21 | upper-casing twice is upper-casing once |
| Text.TextBefore | customer-management-app/server/routes/customers.js:21 | the BINARY collation: character by character, a proper prefix first |
| Text.TextBeforeIrreflexive | customer-management-app/server/routes/customers.js:21 | no text sorts before itself under the BINARY collation |
| Text.TextBeforeTrichotomy | customer-management-app/server/routes/customers.js:21 | two texts are equal exactly when neither sorts before the other, and never does each sort before the other |
| Text.TextBeforeTransitive | customer-management-app/server/routes/customers.js:21 | the BINARY collation order is transitive |
| Listing.ParseColumn | customer-management-app/server/routes/customers.js:21 | `sortBy` names a column exactly when its lower-cased text is that column's name; anything else names none |
| Listing.ParseDirection | customer-management-app/server/routes/customers.js:21 | `sortOrder` upper-cases to `ASC` (or is empty) for ascending, or to `DESC` for descending; anything else is refused |
| Listing.ColumnNameRoundTrip | customer-management-app/server/index.js:43-49 | every declared column's own name parses back to that column |
| Listing.DefaultQuery | customer-management-app/server/routes/customers.js:7-13 | a query without parameters asks for page 1 of 10 rows, empty search, by `created_at` descending |
| Listing.DirectionIgnoresCase | customer-management-app/server/routes/customers.js:21 | `sortOrder` is read without regard to case |
| Listing.ColumnIgnoresCase | customer-management-app/server/routes/customers.js:21 | `sortBy` is read without regard to case |
| Listing.Like | customer-management-app/server/routes/customers.js:16-20 | `field LIKE '%search%'`: the field contains the search text, ASCII case folded on both sides |
| Listing.Matches | customer-management-app/server/routes/customers.js:20 | the WHERE clause: first name, last name or phone number is LIKE the search |
| Listing.EmptySearchMatchesAll | customer-management-app/server/routes/customers.js:16-20 | the default empty search matches every customer |
| Listing.Filter | customer-management-app/server/routes/customers.js:19-20 | a row is kept exactly when it is in the table and one of first name, last name, phone number contains the search text, ignoring ASCII case; ids stay distinct and no rows are added |
| Listing.FilterKeepsOrder | customer-management-app/server/routes/customers.js:19-20 | the kept rows stay in the order of the scan: ascending ids stay ascending |
| Listing.FilterEmptySearch | customer-management-app/server/routes/customers.js:16-20 | with the empty search the filter keeps the table as it is |
| Listing.KeyBefore | customer-management-app/server/routes/customers.js:21 | the order on one column: numbers by value, text by the BINARY collation |
| Listing.Precedes | customer-management-app/server/routes/customers.js:21 | `ORDER BY col dir`: the column order or its reverse, with ties broken by ascending id |
| Listing.SameKeyIsEqualValue | customer-management-app/server/routes/customers.js:21 | two rows tie on a sort column exactly when they hold the same value there |
| Listing.KeyBeforeAsymmetric | customer-management-app/server/routes/customers.js:21 | no two rows each sort before the other on a column |
| Listing.KeyBeforeTransitive | customer-management-app/server/routes/customers.js:21 | sorting on a column is transitive |
| Listing.PrecedesAsymmetric | customer-management-app/server/routes/customers.js:21 | the listing order is irreflexive and asymmetric |
| Listing.PrecedesTotal | customer-management-app/server/routes/customers.js:21 | of two rows with different ids, one comes first |
| Listing.PrecedesTransitive | customer-management-app/server/routes/customers.js:21 | the listing order is transitive, in both directions and on every column |
| Listing.Insert | customer-management-app/server/routes/customers.js:21 | inserting a row into a sorted sequence keeps it sorted and adds exactly that row |
| Listing.ConsSorted | customer-management-app/server/routes/customers.js:21 | a row that precedes all rows of a sorted sequence may be put in front of it |
| Listing.FirstPrecedesAll | customer-management-app/server/routes/customers.js:21 | a row preceding the head of a sorted sequence precedes all its rows |
| Listing.HeadPrecedesInserted | customer-management-app/server/routes/customers.js:21 | the head of a sorted sequence precedes everything inserted behind it |
| Listing.Sort | customer-management-app/server/routes/customers.js:21 | `ORDER BY` yields a sorted permutation of the matching rows |
| Listing.SortedUnique | customer-management-app/server/routes/customers.js:21 | two sorted arrangements of the same rows are equal, so the page does not depend on how the sort is done |
| Listing.Window | customer-management-app/server/routes/customers.js:15-22 | `LIMIT ... OFFSET ...` yields the rows from the offset on, at most `limit` of them, none past the end |
| Listing.CeilDiv | customer-management-app/server/routes/customers.js:44 | `Math.ceil(n / d)`: the least `r` with `n <= r * d` |
| Listing.Resolve | customer-management-app/server/routes/customers.js:7-16 | the defaults are filled in, and the query resolves exactly when both `sortBy` and `sortOrder` parse |
| Listing.Offset | customer-management-app/server/routes/customers.js:15 | `(page - 1) * limit` |
| Listing.Run | customer-management-app/server/routes/customers.js:30-45 | the response echoes the page asked for and holds at most `limit` rows |
| Listing.List | customer-management-app/server/routes/customers.js:6-48 | the handler answers 200 exactly when the sort column and direction resolve, and 500 otherwise; the 200 body is the two statements' result |
| Listing.RunRowsAreSortedMatches | customer-management-app/server/routes/customers.js:18-23 | every listed row is a matching row of the table; the page is in `(sortBy, sortOrder)` order and holds at most `limit` rows |
| Listing.RunRowsAreWindowOfOrder | customer-management-app/server/routes/customers.js:15-23 | the page is the window at `(page - 1) * limit` of ANY ordered arrangement of the matches |
| Listing.RunTotalIgnoresPage | customer-management-app/server/routes/customers.js:25-44 | `total` is the number of matching rows, whatever page, sort or direction is asked for; so is `totalPages` for a given limit |
| Listing.RunCounts | customer-management-app/server/routes/customers.js:25-44 | `total` is the number of matching rows and `totalPages` is `ceil(total / limit)` |
| Listing.RunEmptySearchTotal | customer-management-app/server/routes/customers.js:10-28 | with the empty search, `total` is the number of rows in the table |
| Listing.RunPageEmptyIffPastLast | customer-management-app/server/routes/customers.js:15-44 | a page is empty exactly when it lies past `totalPages` |
| Listing.RunRowsEmptyIff | customer-management-app/server/routes/customers.js:15-22 | a page is empty exactly when its offset reaches `total` |
| Listing.RunOffsetPastTotal | customer-management-app/server/routes/customers.js:15-44 | the offset reaches `total` exactly when the page lies past `totalPages` |
| Listing.PastLastPage | customer-management-app/server/routes/customers.js:15-44 | for any number of rows `n`, `(page - 1) * limit >= n` exactly when `page > ceil(n / limit)` |
| Listing.EmptyWindow | customer-management-app/server/routes/customers.js:22 | the window is empty exactly when the offset is at or past the end |
| Listing.OffsetPastTotal | customer-management-app/server/routes/customers.js:15-44 | `(page - 1) * limit >= total` exactly when `page > ceil(total / limit)` |
| Schema.UpdatedAtUndeclared | customer-management-app/server/index.js:43-60 | `updated_at` is a column of neither table |
| Schema.UpdatesAsWrittenNeverPrepare | customer-management-app/server/routes/customers.js:102-106 | the customer and address UPDATE statements as written assign an undeclared column; without it they only assign declared ones |
| Schema.UpdateCustomerAsWritten | customer-management-app/server/routes/customers.js:94-121 | as written, the customer update answers 400 exactly when a field is missing, and 500 in every other case |
| Schema.UpdateAddressAsWritten | customer-management-app/server/routes/addresses.js:48-72 | as written, the address update answers 400 exactly when a field is missing, and 500 in every other case |
| Records.Present | customer-management-app/server/routes/customers.js:69 | a JSON text field passes `!field`: it is there and is not the empty string |
| Records.PresentId | customer-management-app/server/routes/addresses.js:21 | a numeric field passes `!field`: it is there and is not 0 |
| Store.IdsBelow | customer-management-app/server/index.js:43-60 | a rowid scan visits the ids in the table below the next id, each once, in ascending order |
| Store.InIdOrder | customer-management-app/server/index.js:43-60 | the scan yields the table's rows, one per visited id |
| Store.CustomerRows | customer-management-app/server/index.js:43-49 | the customers table in rowid order: exactly its rows, with increasing and so distinct ids |
| Store.AddressRows | customer-management-app/server/index.js:51-60 | the addresses table in rowid order: exactly its rows, with increasing ids |
| Store.OwnedBy | customer-management-app/server/routes/addresses.js:9 | `WHERE customer_id = ?` keeps exactly the rows owned by the customer, in scan order, and is empty exactly when no row is owned |
| Store.HeadBelowRest | customer-management-app/server/routes/addresses.js:9 | in a scan with increasing ids, the first row's id is below all the rows kept from the rest |
| Store.ConsIncrease | customer-management-app/server/routes/addresses.js:9 | putting a smaller id in front keeps the ids increasing |
| Store.SamplesDistinctAndFilled | customer-management-app/server/index.js:66-70 | the three sample phone numbers differ and no sample field is empty |
| Store.SeedStep | customer-management-app/server/index.js:72-75 | each sample insert passes the UNIQUE check: its phone number is not among the rows seeded before it, and its fields are filled |
| Store.SeedExtends | customer-management-app/server/index.js:72-75 | storing the next sample under the next id extends the seeded rows by one |
| Store.InIdOrderHas | customer-management-app/server/index.js:43-60 | the rowid scan reaches every row whose id lies below the next id |
| Store.Store.Valid | customer-management-app/server/index.js:43-60 | the table invariants: keys are ids below the AUTOINCREMENT counters, phone numbers are unique, every `customer_id` names a customer, and no text column is empty |
| Store.Store.constructor | customer-management-app/server/index.js:42-60 | freshly created tables are empty, their counters start at 1, and the invariants hold |
| Store.Store.InsertCustomer | customer-management-app/server/index.js:44-47 | the INSERT fails on UNIQUE when the phone number is taken, changing nothing; otherwise the row is stored under the next id and the counter advances |
| Store.Store.CreateCustomer | customer-management-app/server/routes/customers.js:66-91 | 400 when a field is missing or the phone number is taken (nothing changes); otherwise the new row under a fresh id, and afterwards `GET` finds it |
| Store.Store.GetCustomer | customer-management-app/server/routes/customers.js:51-63 | 200 with the row having that id exactly when there is one, 404 otherwise |
| Store.Store.UpdateCustomer | customer-management-app/server/routes/customers.js:94-121 | corrected update: 400 when a field is missing, then 404 for an unknown id, then 400 when another row has the phone number; otherwise only the three columns of that row change |
| Store.Store.DeleteCustomer | customer-management-app/server/routes/customers.js:124-136 | 404 for an unknown id (nothing changes); otherwise the row goes and the cascade removes exactly its addresses, after which neither it nor any address of it is found |
| Store.Store.Seed | customer-management-app/server/index.js:63-77 | an empty customers table receives the three sample rows under the next three ids; a non-empty one is left alone |
| Store.Store.SeedNext | customer-management-app/server/index.js:72-75 | one sample insert: the `i`-th sample row goes in under id `start + i`, and the other table is untouched |
| Store.Store.AddressesOf | customer-management-app/server/routes/addresses.js:6-15 | exactly the addresses whose `customer_id` is the given one, in rowid order, with no check that the customer exists |
| Store.Store.CreateAddress | customer-management-app/server/routes/addresses.js:18-45 | 400 when a field is missing; 500 when the customer does not exist (foreign key); otherwise the new row under a fresh id, listed among its customer's addresses |
| Store.Store.UpdateAddress | customer-management-app/server/routes/addresses.js:48-72 | corrected update: 400 when a field is missing, 404 for an unknown id; otherwise only the four text columns change and the owner stays |
| Store.Store.DeleteAddress | customer-management-app/server/routes/addresses.js:75-87 | 404 for an unknown id (nothing changes); otherwise exactly that row goes |
| Store.Store.ListCustomers | customer-management-app/server/routes/customers.js:6-48 | the list handler over the stored table: 500 exactly when the sort does not resolve, and every listed row is a stored customer |
| Store.Store.ListTotalCountsMatches | customer-management-app/server/routes/customers.js:25-42 | `total` is the number of stored customers the search matches |
| Store.Store.AddressesOfUnknownCustomer | customer-management-app/server/index.js:59 | the foreign key leaves no addresses for a customer that does not exist |
| Store.MatchingCount | customer-management-app/server/routes/customers.js:25-28 | the matching rows of the scan are as many as the matching ids in the table |
| Store.MatchingIds | customer-management-app/server/routes/customers.js:19-28 | the ids of the matching rows of the scan are exactly the ids of the table whose rows match |
| Store.IdSetCons | customer-management-app/server/index.js:44 | with distinct ids, a sequence's ids are its head's id, which is not among the rest, plus its tail's ids |
| Store.DistinctCount | customer-management-app/server/index.js:44 | rows with distinct ids are as many as their ids |

## Left out

- HTTP and Express: routing, JSON parsing, status codes and messages are
  replaced by the `Outcome` value. This includes the health and test
  endpoints, the 404 and error middleware, the `message` fields and the
  logging.
- The SQLite connection, its callbacks and failures. Statements run
  atomically one after another; database errors other than UNIQUE, the
  foreign key and an unresolvable sort are not modelled. Neither is the
  `err.message.includes('UNIQUE ...')` text test, which is modelled as the
  constraint it reports.
- Listing.List: `page` and `limit` are natural numbers of at least 1.
  `parseInt`, `NaN`, non-numeric text, 0 and negatives are not modelled,
  nor is JavaScript's string arithmetic in `(page - 1) * limit`.
- Listing.ParseColumn: `ORDER BY ${sortBy}` is modelled as one of the five
  declared column names. Other SQL text, such as a column number,
  `rowid`, an expression or an injected clause, is not modelled.
- Listing.ParseDirection: `${sortOrder}` is modelled as `ASC`, `DESC` or
  empty, read without case. Other SQL text that would still parse, such
  as `ASC NULLS LAST` or injected clauses, is not modelled.
- Listing.Precedes: SQL leaves rows with equal sort keys in no defined
  order; the model breaks such ties by ascending id.
- Listing.Like: `%` and `_` inside the search text act as LIKE wildcards
  in SQLite; the model treats the search text literally. Case folding is
  ASCII only, as SQLite's LIKE does without ICU; `toUpperCase` on
  non-ASCII letters is not modelled.
- Clock: `created_at DEFAULT CURRENT_TIMESTAMP` is the `now` parameter of
  the inserting methods.
- Ids: route parameters are text that SQLite compares with the integer
  id; the model takes the id as an integer. Non-numeric ids find no row.
- Field types: JSON fields are modelled as text, or as a number for
  `customer_id`. Other JSON types (numbers for names, booleans,
  objects) are not modelled.
- Store.Store.CreateAddress and Store.Store.DeleteCustomer: the foreign
  key and `ON DELETE CASCADE` are modelled as declared. SQLite enforces
  them only with `PRAGMA foreign_keys = ON`, which the server never
  issues.
- Wiring: the server in `index.js` does not mount the router files, and
  they import the server module, which exports no database. The routes
  are modelled as each file states them.
- `index.js` repeats the list, get and create handlers of
  `routes/customers.js`. Its list handler leaves `sortOrder`'s case to
  SQLite, which reads keywords without regard to case, so one model
  covers both. The extra `message` field of its responses is not
  modelled.
- Store.Store.Seed: the seed's `forEach` is taken to run its three
  inserts one after another in the order written. They are issued from
  the `db.get` callback, after `db.serialize` has returned, so the
  driver does not promise that order or the ids it gives. Interleaving
  with requests is not modelled either.
- CorsIntended.IntendedRefuses and CorsIntended.AsWrittenAllowsForeignHost
  state their refusals only for origins without the digit `3`. That
  excludes the localhost literal, and keeps the proof short.

## Findings

| source | as written | input that shows it | evidently intended | confidence | as-written member | corrected member |
|---|---|---|---|---|---|---|
| customer-management-app/server/index.js:16-19 | `allowed.replace('*.', '')` turns `https://*.github.dev` into the literal `https://github.dev`, then tests with `includes` | origin `https://fuzzy-space-3000.github.dev` is refused; origin `https://github.dev.example.com` is allowed | `*.` matches any non-empty subdomain of `github.dev` / `app.github.dev`, and nothing else | not executed | CorsIntended.AsWrittenRefusesSubdomain, CorsIntended.AsWrittenAllowsForeignHost | CorsIntended.IntendedAllowsSubdomains |
| customer-management-app/server/routes/customers.js:102-106, customer-management-app/server/routes/addresses.js:56-60 | both UPDATE statements assign `updated_at`, which neither `CREATE TABLE` declares, so SQLite refuses to prepare them | the router's PUT handlers answer 500 to any `PUT /api/customers/1` or `PUT /api/addresses/1` with all fields present (the server as wired answers these from its 404 handler, since it never mounts the routers) | update the named columns of an existing row, answering 404 for an unknown id | not executed | Schema.UpdateCustomerAsWritten, Schema.UpdateAddressAsWritten | Store.Store.UpdateCustomer, Store.Store.UpdateAddress |
