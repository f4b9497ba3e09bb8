# Pizza shop backend — a Dafny model of its request handlers

The shop's backend is a small REST service: customers browse categories and
products and place orders; admins maintain the catalog and move orders
through their statuses. Each handler reads and writes four database
collections (users, categories, products, orders).

This project models those handlers as pure functions over an immutable
`Store` holding the four collections as sequences in insertion order. Every
write endpoint returns a `Reply(store, result)`: the store after the call
and either the response value or an `HttpError(status, detail)` carrying the
same status code and message the server raises. Because the store is part of
the reply, "an error changes nothing" is a proved statement rather than a
convention.

Modules:

- `Wrappers` — `Option` and `Result`.
- `Collections` — the database primitives the handlers use, as generic
  sequence functions: a query filter (`Filter`), first-match lookup
  (`FirstIndexOf`, the semantics of `find_one`, `update_one` and
  `replace_one`), and a key sort (`SortBy`).
- `Models` — the records (`User`, `Category`, `Product`, `CartItem`,
  `Order` and the request bodies), the store, and the error constants.
- `Auth` — resolving the caller from a decoded token.
- `Catalog` — category and product listing, lookup, creation and replacement.
- `Orders` — placing, listing and re-statusing orders.
- `Seed` — the guard of the sample-data endpoint.

Modelling choices:

- Prices and totals are integer cents (`int`), not IEEE doubles, so sums are
  exact where the server's float arithmetic would round.
- Ids are strings, and timestamps are integers ordered like the instants
  they stand for. Fresh ids and the current time are parameters. Creation
  endpoints require the fresh id to be unused, as a UUID practically is.
- The server stores timestamps as ISO-8601 strings and sorts on those
  strings. The model sorts on the integer instant.
- The database's order of documents with equal sort keys is unspecified. The
  listing contracts therefore promise only that the result is sorted and is
  a permutation of the selected documents. The model breaks ties by
  insertion sort.
- Unsorted query results and first-match lookups follow insertion order.
  The database does not promise this natural order. Only the membership and
  multiplicity of query results are independent of it.
- The caller of a protected endpoint is given as an already-resolved `User`.
  `Auth.CurrentUser` models the lookup from a decoded token to that user.

Behaviour of the code that a stricter design might not expect, kept as written:

- Any valid status can be set on any order, whatever its current status,
  terminal ones included. No transition graph is enforced.
  `Orders.AnyValidStatusFromAnyStatus` and `Orders.DeliveredOrderCanBeReopened`
  state this.
- Order creation does not check the request. An empty item list, zero or
  negative quantities and an empty phone are all accepted. The total is
  the plain sum of price × quantity. No tax or delivery fee is added.
- A status update is not conditioned on the status read earlier, so there is
  no conflict error. The last write wins.
- The cart engine lives in the client, which is not part of this model.

## Model

| member | source | states |
|---|---|---|
| Collections.Filter | backend/server.py:220 | the result has at most as many elements as the input, and an element is in it exactly when it is in the input and satisfies the query |
| Collections.FilterCount | backend/server.py:220 | a query result keeps each matching document as often as it occurs and drops every other one |
| Collections.FilterSameVerdicts | backend/server.py:275 | two collections whose documents match the query position by position give query results of the same size |
| Collections.FilterAppend | backend/server.py:220 | a document appended to a collection appears at the end of a query result exactly when it matches; earlier results keep their order |
| Collections.FirstIndexOf | backend/server.py:225 | the lookup returns the position of a document with the key, and no document before it has the key; it finds nothing exactly when no document has the key |
| Collections.FirstIndexIsFirstMatch | backend/server.py:225 | a match with no match before it is the one the lookup finds |
| Collections.Insert | backend/server.py:198 | inserting into a sorted sequence gives a sorted sequence with exactly one more occurrence of the new element |
| Collections.SortBy | backend/server.py:273 | the sort returns a permutation of its input in non-decreasing key order |
| Auth.CurrentUser | backend/server.py:135-149 | a token resolves to a stored user with the claimed id exactly when it decodes, carries a non-empty user id and that user exists; an undecodable or empty claim gives 401 "Invalid token", and an unknown user gives 401 "User not found" |
| Catalog.GetCategories | backend/server.py:196-199 | the listing holds exactly the active categories, each as often as stored, in ascending sort order |
| Catalog.CreateCategory | backend/server.py:201-209 | a non-admin gets 403 and the store is unchanged; an admin's request appends one active category with the fresh id, the request's fields and the current time, and changes nothing else |
| Catalog.CreateCategoryPreservesWellFormed | backend/server.py:206-208 | creating a category keeps every collection's ids distinct |
| Catalog.CreatedCategoryIsListed | backend/server.py:196-209 | a category an admin creates appears in the category listing afterwards |
| Catalog.MatchesQuery | backend/server.py:214-218 | only available products match; an absent or empty category filters nothing, and a product in the requested non-empty category is treated the same way: it matches exactly when it is available and has the requested featured flag, if one is given; a different non-empty category or a different featured flag excludes the product |
| Catalog.GetProducts | backend/server.py:212-221 | a product is listed exactly when it is stored, is available, matches the category when a non-empty one is given, and matches the featured flag when one is given; each is listed as often as stored |
| Catalog.GetProduct | backend/server.py:223-228 | the lookup fails with 404 "Product not found" exactly when no product has the id; otherwise it returns a stored product with that id, whether available or not |
| Catalog.CreateProduct | backend/server.py:230-238 | a non-admin gets 403 and the store is unchanged; an admin's request appends one available product that carries every request field, the fresh id and the current time, and changes nothing else |
| Catalog.CreatedProductIsFetchable | backend/server.py:223-238 | a product an admin creates is returned by a lookup of its id afterwards |
| Catalog.CreatedProductListing | backend/server.py:212-238 | after a creation, in the model's insertion order, every product listing is the previous listing, plus the new product at the end when it matches the query |
| Catalog.MergeProduct | backend/server.py:249 | the replacement takes the id from the path, every field a creation request carries from the request, and availability and creation time from the existing record |
| Catalog.MergeIsCreationWithKeptFields | backend/server.py:249 | the replacement record is the product the request would create under the path id, with the old availability and creation time |
| Catalog.UpdateProduct | backend/server.py:240-252 | a non-admin gets 403, then an unknown id gets 404, both with the store unchanged; it succeeds exactly for an admin and an existing id, and then only the first product with the id is replaced, by the merge of the old record and the request |
| Catalog.UpdatedProductIsFetched | backend/server.py:223-252 | after a successful replacement, a lookup of the id returns the replacement |
| Catalog.UpdateProductIdempotent | backend/server.py:240-252 | sending the same replacement twice leaves the same store and response as sending it once |
| Catalog.UpdateProductPreservesWellFormed | backend/server.py:249-251 | replacing a product keeps every collection's ids distinct |
| Catalog.CreateProductPreservesWellFormed | backend/server.py:235-237 | creating a product keeps every collection's ids distinct |
| Orders.OrderTotal | backend/server.py:260 | the total of no items is zero, of one item its price times its quantity, and never negative when no price or quantity is |
| Orders.OrderTotalAppend | backend/server.py:260 | the total of two item lists put together is the sum of their totals |
| Orders.OrderTotalExample | backend/server.py:260 | in integer cents, two items at 1695 and one at 1095 total exactly 4485 |
| Orders.SumLineAmounts | backend/server.py:260 | adding price × quantity item by item, first to last, gives the order total |
| Orders.CreateOrder | backend/server.py:255-268 | every request succeeds in the model, whose integers are unbounded; it appends one order owned by the caller, with status "pending", the request's items unchanged, their total, the request's contact fields and the fresh id and time, and changes nothing else |
| Orders.CreateOrderIgnoresCatalog | backend/server.py:257-260 | the order created does not depend on the catalog, because its prices come from the request |
| Orders.CreateOrderPreservesWellFormed | backend/server.py:255-268 | placing an order keeps every collection's ids distinct |
| Orders.GetOrders | backend/server.py:270-277 | an admin gets every order, and anyone else exactly the orders they own, each as often as stored; the list runs from newest to oldest |
| Orders.CreatedOrderIsListedForOwner | backend/server.py:255-277 | an order appears in its owner's listing right after it is placed |
| Orders.OwnOrdersWithinAllOrders | backend/server.py:272-275 | a user's listing is contained in an admin's listing |
| Orders.ListingSizeFollowsOwners | backend/server.py:270-277 | the number of orders a viewer sees depends only on who owns each stored order |
| Orders.SetStatusOfFirst | backend/server.py:288-291 | the update matches no order exactly when no order has the id, and then changes nothing; otherwise it matches one order, the first with the id, and sets only its status and update time |
| Orders.UpdateOrderStatus | backend/server.py:279-296 | a non-admin gets 403; an admin sending a status outside the six valid ones gets 400; an unknown id gets 404; every error leaves the store unchanged; success comes exactly when all three checks pass, and then only the first matching order's status and update time change |
| Orders.StatusUpdateTouchesOnlyTarget | backend/server.py:288-291 | when order ids are distinct, a successful update changes the status and update time of the order with that id and nothing else, in that order or any other |
| Orders.AnyValidStatusFromAnyStatus | backend/server.py:284-291 | an admin can set any valid status on an existing order, whatever its current status |
| Orders.DeliveredOrderCanBeReopened | backend/server.py:284-291 | a delivered order can be set back to "pending" |
| Orders.StatusUpdateIdempotent | backend/server.py:279-296 | repeating a status update at the same time gives the same store and response as doing it once |
| Orders.StatusUpdateKeepsListingSizes | backend/server.py:270-296 | a status update does not change how many orders any viewer sees |
| Orders.StatusUpdatePreservesWellFormed | backend/server.py:288-291 | a status update keeps every collection's ids distinct |
| Seed.InitializeSampleData | backend/server.py:299-395 | when any category exists, active or not, it answers "Sample data already exists" and changes nothing; otherwise it inserts the sample categories and products and changes nothing else |
| Seed.SeedingTwiceIsSeedingOnce | backend/server.py:302-304 | once a non-empty sample catalogue is in, a later seeding call, with any catalogue, answers "Sample data already exists" and changes nothing |
| Seed.SeedPreservesWellFormed | backend/server.py:316-321 | seeding with sample records that carry fresh ids keeps every collection's ids distinct |

## Left out

- Database and web plumbing: the asynchronous driver, routing, CORS middleware, logging and the shutdown hook. The collections are sequences instead.
- Registration and login (backend/server.py:152-193): they are password hashing and token signing by foreign libraries. The JWT signature check in `get_current_user` is left out for the same reason: tokens arrive already decoded.
- UUID generation and the clock: fresh ids and timestamps are parameters.
- The ISO-8601 round trip of `prepare_for_mongo` and `parse_from_mongo`: timestamps are integers throughout.
- Request validation by the web framework (missing or mistyped fields): requests are well-typed values.
- `sizes` holds arbitrary dictionaries in the server. The model gives each entry a name and a price.
- A `None` list and an empty list are told apart only through `Option`. The model does not default `ingredients` or `sizes` to an empty list.
- Seed.InitializeSampleData: the concrete sample catalogue, and the lookup of the "Pizza" and "Pasta" category ids that its products use, are data rather than logic. Both are parameters.
- Orders.CreateOrder: `created_at` and `updated_at` get the same instant. The server takes the clock twice, and the two readings may differ by microseconds.
- Float rounding in totals is not modelled, because prices are exact cents. For example, `Orders.OrderTotalExample` gives exactly 4485 cents for two items at 16.95 and one at 10.95. The server's float sum for the same items is 44.849999999999994.
- Seed.InitializeSampleData: each handler is modelled as one atomic step. The seeding guard checks the category count and inserts only after further awaits, so two concurrent calls can both see no categories and both insert the catalogue. `Seed.SeedingTwiceIsSeedingOnce` holds only for calls made one after the other.
- Seed.InitializeSampleData: the sample records are required to carry fresh ids, as the server's UUID default factories provide.
- Orders.CreateOrder: integers are unbounded in the model. The database driver cannot store an integer outside 64 bits, such as a quantity of 2^63. For such a request the server answers 500 and stores nothing, while the model succeeds and appends the order.
- Catalog.CreateCategory: integers are unbounded in the model. A `sort_order` outside 64 bits makes the server's insert fail with a 500 and nothing stored, while the model succeeds and appends the category.
- Catalog.CreateProduct: an integer price outside 64 bits inside a `sizes` entry makes the server's insert fail with a 500 and nothing stored, because `sizes` holds untyped dictionaries whose integers stay integers. The model stores such a price anyway. The base `price` is a float on the server and is stored at any size.
- Catalog.UpdateProduct: likewise, an integer price outside 64 bits inside a `sizes` entry makes the server's replace fail with a 500 and nothing changed, while the model replaces the product. The base `price` is a float and is stored at any size.
- Catalog.CreatedProductListing: unsorted query results and first-match lookups follow insertion order in the model. The database does not guarantee that natural order, so the listing's order and which of several documents with a repeated id is found first are the model's choice. Membership and multiplicity, as `Catalog.GetProducts` states them, do not depend on it.
- Auth.CurrentUser: the `user_id` claim is modelled as the string the server itself signs. The server passes whatever JSON value the claim holds into the user query unchanged. A non-string claim, such as an object holding a query operator, is truthy and can then select a stored user whose id differs from the claim. The model does not cover such tokens.
- Requests without a bearer `Authorization` header are rejected by the web framework's security dependency before `get_current_user` runs, with the framework's own status and message. `Auth.CurrentUser` covers only requests that carry a bearer token.
