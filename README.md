# Shop management back end, modelled in Dafny

This project models the core of a role-based shop back end built on Django
and Django REST Framework. Users are admins, sellers or customers. Categories
hold products, each sold by a seller. Customers place orders made of items,
and saving an item takes its quantity off the product's stock.

The model has six modules, one per source file plus a store class:

- `Models` (`models.dfy`) is the database. It has one table per model: users,
  categories, products, orders and order items. Each table is a map from
  primary key to row, with the next key to hand out.
  - `Valid` states the store's integrity: keys lie below the next key,
    foreign keys point at stored rows, usernames are unique, and stock is
    non-negative.
  - `OrderItem.save` is modelled as `SaveItem`. This is the stock rule: the
    check and the decrement act on the `Product` object the item holds, which
    was loaded when the request was validated.
  - `total_price` and `total_amount` are computed on read.
  - The `on_delete` rules are modelled: PROTECT for `Product.category` and
    `OrderItem.product`, CASCADE for `Product.seller`, `Order.customer` and
    `OrderItem.order`.
- `Permissions` (`permissions.dfy`) holds the three role checks and
  `IsAuthenticated`.
- `Serializers` (`serializers.dfy`) covers the following:
  - the stripping of whitespace that DRF applies to every character field,
    modelled as `Trim` after Python's `str.strip`;
  - user registration, and user output without the password;
  - product input with a read-only seller, and product output;
  - validation of order items;
  - `OrderSerializer.create`: the order row, then its items saved one by one
    in input order with no transaction around them;
  - the nested order output with `total_price` and `total_amount`.
- `Views` (`views.dfy`) covers the view sets:
  - which permissions each action checks, and `check_permissions`, which
    raises NotAuthenticated without credentials and PermissionDenied with
    them;
  - each role's queryset and the filter fields;
  - both `perform_create` hooks, the `mark_paid` action, and the admin-only
    category view set.
- `Seed` (`seed.dfy`) is the `seed` management command:
  - get-or-create of five users and five categories by name, where a
    duplicate name raises MultipleObjectsReturned;
  - an early return when no seeded user is a seller;
  - otherwise ten products, whose names, descriptions, prices, stock and
    sellers follow their position.
- `Store` (`store.dfy`) holds the class `Database`. Its map fields are updated
  in place by methods that mirror the imperative code:
  - `OrderItem.save`;
  - the item loop of `OrderSerializer.create`;
  - registration, product creation, order creation and `mark_paid`;
  - the three get-or-create calls and the three loops of the seed command.

  Each method is proved against the matching function of the other modules,
  through `Snapshot()`, so the lemmas about those functions carry over to
  the class.

Prices are integer cents. Primary keys are natural numbers, and every table
starts at key 1. A failed operation returns the store as it stands. Nothing
is rolled back, because the source opens no transaction.

Where the code and its docstrings disagree, the model follows the code:

- **Customers may create products.** The `ProductViewSet` docstring says
  customers cannot create or edit products. `get_permissions` nevertheless
  gives a customer only `IsAuthenticated`, so every authenticated user passes.
  See `Views.ProductPermissionsAdmitAuthenticated` and
  `Views.CreateProductSeller`.
- **Order creation is not atomic.** A quantity above stock raises in the
  middle of the item loop. The order row, the items saved before it and their
  stock decrements stay in place. See `Serializers.CreateOrderFailsAtFirstShortfall`.
- **Stock is checked against the held object.** `OrderItem.save` checks the
  `Product` object loaded during validation, not the stored row, and then
  saves that object whole. Two items of one product in one order each see the
  original stock, and the first decrement is lost. See
  `Serializers.DuplicateProductLosesDecrement` and
  `Serializers.CreateItemsWritesHeldProducts`.
- **`payment_status` is writable on create.** It is an ordinary field of
  `OrderSerializer`, so a customer may create an order already marked `paid`.
  See `Views.CreateOrderRequestCustomer`.
- **Registration without an email fails on the database.** `UserSerializer`
  makes the email optional, and `create` passes `validated.get('email')`,
  which is None when no email was sent. The save then fails on the column's
  NOT NULL constraint. A duplicate username is refused earlier, by the
  model serializer's uniqueness validator.
- **Seed product names come from the stored category.** The name is built
  from the name of the category object that was found or created. The
  model's category loop takes the names as a parameter and proves that each
  stored name equals its seed name.
- **Deleting a user can be refused.** Under Django's PROTECT, a user cannot
  be deleted while any order item, in any order, references a product they
  sell. This holds even when the cascade would delete those items too. See
  `Models.DeleteUserCascades`.

## Model

| member | source | states |
|---|---|---|
| Models.ParseRole | shop/models.py:8-13 | a role string is accepted exactly when it is one of the three choice values `admin`, `seller`, `customer` |
| Models.ParseRoleRoundTrip | shop/models.py:8-13 | parsing a role's stored value gives that role back, and an accepted string is the stored value of the role it parses to |
| Models.ItemIdsBelow | shop/models.py:41-43 | the keys listed for an order are keys of that order's items, in strictly ascending key order, the order they were created in |
| Models.ItemIdsBelowComplete | shop/models.py:41-43 | every item of the order below the bound is listed |
| Models.OrderItemIdsExact | shop/models.py:41-43 | in a valid store a key is among `order.items.all()` exactly when it is an item whose order is that order |
| Models.TotalAmountWithoutItems | shop/models.py:41-43 | an order with no items has `total_amount` 0 |
| Models.SaveNewItemWithinStock | shop/models.py:53-60 | a new item within the held product's stock is saved under the next key. The product's row becomes the held object with stock lowered by exactly the quantity, and nothing else changes. When the held object is the stored row, the stored stock drops by the quantity |
| Models.SaveNewItemShortOfStock | shop/models.py:53-57 | a new item whose quantity exceeds the held product's stock raises insufficient stock and writes nothing |
| Models.ResaveKeepsStock | shop/models.py:53-60 | saving an item that already has a primary key rewrites only its row and leaves every product's stock alone |
| Models.SaveItemKeepsValid | shop/models.py:45-60 | saving an instance whose order, product and held product fit the store keeps the store valid (in particular stock stays non-negative) and only adds rows |
| Models.SaveAllKeepsStockNonNegative | shop/models.py:28-60 | any sequence of such saves keeps the store valid, and no product's stock goes below zero |
| Models.DeleteCategoryRule | shop/models.py:24 | deleting a category fails with Protected exactly when a product references it, and then nothing changes. Otherwise only that category is removed and the store stays valid |
| Models.DeleteProductRule | shop/models.py:47 | deleting a product fails with Protected exactly when an order item references it, and then nothing changes. Otherwise only that product is removed and the store stays valid |
| Models.DeleteOrderCascades | shop/models.py:46 | deleting an order removes that order and exactly its items, and nothing else: every other table, row and next key is unchanged; the store stays valid |
| Models.DeleteUserCascades | shop/models.py:23-47 | deleting a user is refused exactly when an item references a product they sell, with nothing changed. Otherwise exactly the user, their products, their orders and those orders' items go, and nothing else: the other users, the categories, the next keys and every kept row are unchanged; the store stays valid |
| Permissions.RoleChecksExact | shop/permissions.py:4-14 | `IsAdmin`, `IsSeller` and `IsCustomer` pass exactly for an authenticated user with that role |
| Permissions.RoleChecksExclusive | shop/permissions.py:4-14 | no role string passes two of the role comparisons, and a string outside the choices passes none |
| Permissions.ExactlyOneRoleCheck | shop/permissions.py:4-14 | an anonymous principal passes no role check, and an authenticated user passes exactly one |
| Serializers.TrimLaws | shop/serializers.py:9-12 | a character field's value is stripped as `str.strip` does: what is left is the piece of the input between leading and trailing whitespace, neither starts nor ends with whitespace, is empty exactly when the input is all whitespace, and is unchanged by stripping again |
| Serializers.UserOutputOmitsPassword | shop/serializers.py:9-12 | the user output is the id, username, email and role, and changing the password does not change it |
| Serializers.RegisterStoresGivenFields | shop/serializers.py:8-21 | registration succeeds exactly for a username that is non-blank and unused once stripped, a password non-blank once stripped, a role choice and an email, with no NUL character in the stripped username, password or email. It then adds one user under the next key, and changes nothing else. The user holds the stripped username, email and password and the given role, and their output repeats them. On failure nothing changes; a valid store stays valid |
| Serializers.RegisterKeepsValid | shop/serializers.py:13-21 | registration keeps a valid store valid whatever its outcome |
| Serializers.PaddedUsernameTaken | shop/serializers.py:8-21 | with `bob` stored, registering ` bob ` is refused as taken, and a password of three spaces is refused as blank |
| Serializers.NullPasswordRefused | shop/serializers.py:9 | a password holding a NUL character is refused, with nothing stored |
| Serializers.BlankProductNameRefused | shop/serializers.py:28-32 | a product name of three spaces is blank once stripped, so the product input is refused |
| Serializers.ValidateItems | shop/serializers.py:34-38 | the item list validates exactly when every item names a stored product and has a quantity that fits the column. Each validated entry holds that product's current row and the quantity, in input order |
| Serializers.CreateItemsPassesIffCovered | shop/serializers.py:51-52 | the item loop finishes exactly when every quantity is within its held product's stock; it can only fail with insufficient stock |
| Serializers.CreateItemsFailureSticks | shop/serializers.py:51-52 | once a prefix of the loop has raised, the rest of the items change nothing |
| Serializers.CreateItemsStopsAtFirstShortfall | shop/serializers.py:51-52 | when item k is the first short of stock, the items before it are all saved and the loop ends there with insufficient stock |
| Serializers.CreateItemsStoresInputOrder | shop/serializers.py:51-52 | a finished loop stores one row per item under consecutive keys in input order, and keeps every earlier row, every product key and the other tables |
| Serializers.CreateItemsWritesHeldProducts | shop/models.py:58-59 | after the loop a product that no item names is unchanged, and a product named by items is the last such item's held object minus that item's quantity |
| Serializers.CreateItemsKeepsOrdersAndUsers | shop/serializers.py:51-52 | the item loop never changes the orders or users tables |
| Serializers.CreateItemsKeepsValid | shop/serializers.py:51-52 | the item loop over fitting items keeps the store valid whether or not it raises, and only adds rows |
| Serializers.CreateOrderStoresOrderFirst | shop/serializers.py:49-50 | the order row is stored under the next key with the given customer, time and status before any item, and stays even when an item fails |
| Serializers.CreateOrderPassesIffInStock | shop/serializers.py:48-53 | with items loaded from the store, an order is created exactly when every quantity is within its product's stock |
| Serializers.CreateOrderDistinctSuccess | shop/serializers.py:48-53 | a created order whose items name distinct products stores one item row per input item, in input order, and lowers each named product's stock by its quantity, leaving the other products unchanged |
| Serializers.CreateOrderRows | shop/serializers.py:48-53 | a created order adds exactly one row per input item under consecutive keys, keeps every earlier item row and leaves the product keys and categories unchanged |
| Serializers.CreateOrderStock | shop/serializers.py:48-53 | for distinct products loaded from the store, each named product's stock drops by exactly its quantity and every other product is unchanged |
| Serializers.CreateOrderFailsAtFirstShortfall | shop/serializers.py:48-53 | an order whose item k is the first short of stock fails with insufficient stock but leaves the order row, items 0..k-1 and their stock decrements in the store, and the failing product untouched |
| Serializers.DuplicateProductLosesDecrement | shop/serializers.py:51-52 | two items of one product with stock 10, quantities 3 and 4, both pass, and the product ends with stock 6, not 3 |
| Serializers.CreateOrderKeepsValid | shop/serializers.py:48-53 | order creation by a stored customer with fitting items keeps the store valid, with every stock non-negative, whether or not it raises |
| Serializers.CreatedOrderItemIds | shop/serializers.py:48-53 | a created order's `items.all()` lists exactly the new keys, one per input item, in input order |
| Serializers.CreatedOrderLines | shop/serializers.py:48-53 | a created order's listed items are the input items, product and quantity, in input order |
| Serializers.CreatedOrderTotal | shop/models.py:41-51 | a created order's `total_amount` is the sum of price times quantity over its input items |
| Serializers.ItemOutputsEntries | shop/serializers.py:34-38 | each item output shows the item's key, product and quantity, and `total_price` is the shown product's price times the quantity |
| Serializers.ItemOutputsSum | shop/models.py:41-51 | the sum of the item outputs' `total_price` is the sum of price times quantity over those items |
| Serializers.OrderOutputConsistent | shop/serializers.py:40-46 | showing an order fails exactly when `total_amount` reaches 10^12 cents in magnitude, the limit of the twelve-digit decimal field. Otherwise the output shows the customer's username, one entry per item of the order in key order, each with `total_price` equal to price times quantity, and `total_amount` equal to the sum of the entries |
| Views.CheckPermissions | shop/views.py:227-241 | DRF's `check_permissions`, run over the list that `get_permissions` returns: a request passes exactly when every permission in the list passes. A refusal is NotAuthenticated for an anonymous principal and PermissionDenied otherwise |
| Views.ProductPermissionsAdmitAuthenticated | shop/views.py:126-136 | admins get `IsAuthenticated, IsAdmin`, sellers `IsAuthenticated, IsSeller`, customers `IsAuthenticated` alone, so every authenticated user passes and anonymous requests are not authenticated |
| Views.ProductScoping | shop/views.py:141-152 | a seller's product queryset holds exactly the products they sell; anyone else's holds every product |
| Views.ProductFilterExact | shop/views.py:122-124 | the filtered list is the queryset narrowed to the requested category and to names containing the search term, and is the whole queryset when neither is given |
| Views.ProductFilterLaws | shop/views.py:122-124 | the product filters only narrow the queryset. Filtering by category and then searching equals doing both at once. An empty search term keeps every product, and a smaller queryset never gives a larger list |
| Views.ProductIndexSound | shop/views.py:141-164 | the product list is granted exactly to authenticated users. A seller's list holds only their own products, and a customer's holds every product that matches the filters |
| Serializers.NullDescriptionRefused | shop/serializers.py:28-32 | a product description holding a NUL character makes the product input invalid |
| Views.CreateProductSeller | shop/views.py:126-139 | the seller the client sends changes nothing. Creation succeeds exactly for an authenticated user and a valid input (the name non-blank once stripped, and no NUL character in the stripped name or description). It adds one product under the next key and changes nothing else. The product is sold by the requesting user, and its output shows that user's username, the input's fields, and the name and description stripped. On failure nothing changes; the store stays valid |
| Views.OrderAccess | shop/views.py:227-241 | an order action passes exactly for an authenticated user who is a customer for `create`, anyone for `list`/`retrieve`, and an admin for every other action; anonymous requests are not authenticated |
| Views.OrderScoping | shop/views.py:243-258 | a customer's order queryset holds exactly their own orders. A seller's holds exactly the orders with an item of a product they sell, and anyone else's holds every order |
| Views.OrderFilterExact | shop/views.py:220-225 | the order filters narrow the queryset to orders with an item in the category, an item of the product, and `created_at` within the inclusive bounds given; with no filter the queryset is unchanged |
| Views.OrderFilterLaws | shop/views.py:220-225 | filtering by the item fields and then by the dates equals filtering by all at once. A date range that ends before it starts lists nothing. Filtering by a product keeps no more orders than filtering by that product's category, and a smaller queryset never gives a larger list |
| Views.OrderViewsSound | shop/views.py:220-258 | every order a customer lists or looks up is theirs, and every order a seller lists or looks up holds an item they sell. A lookup, like the list, goes through the filter fields of the query string, so it finds only orders those filters keep. A lookup is a `get`, and only the seller's queryset is distinct. So for anyone but a seller, a lookup whose item filter two of the order's items meet raises MultipleObjectsReturned. An admin who passes the permissions finds exactly the stored orders that the filters keep and whose row no item filter repeats, and every stored order when no filter is given |
| Views.CreateOrderRequestCustomer | shop/views.py:260-261 | only a customer can create an order, and anyone else is refused with the store unchanged. The client's `customer` and `total_amount` change nothing. With valid items the new order belongs to the requester at the given time, is `unpaid` unless the input set `payment_status`, and the store stays valid |
| Views.MarkPaidEffect | shop/views.py:335-340 | `mark_paid` succeeds exactly for an admin and a stored order that the query string's filters keep and whose row no item filter repeats (any stored order when no filter is given). It then changes only that order's `payment_status`, to `paid`; the store stays valid. Otherwise nothing changes and the error is NotAuthenticated, PermissionDenied, NotFound or, for a repeated row, MultipleObjectsReturned |
| Views.RepeatedJoinLeavesOrderUnpaid | shop/views.py:335-340 | with two items of an order in category `c`, an admin's `mark_paid` filtered by `items__product__category__id` = `c` raises MultipleObjectsReturned and the store is unchanged |
| Views.MarkPaidIdempotent | shop/views.py:335-340 | repeating a successful `mark_paid` with the same query string leaves the same store and succeeds again |
| Views.CategoryAdminOnly | shop/views.py:58 | every category action passes exactly for an authenticated admin; anonymous requests are not authenticated and other users are denied |
| Seed.Matches | shop/management/commands/seed.py:22-25 | the rows a get-or-create lookup matches all carry the looked-up name |
| Seed.MatchesComplete | shop/management/commands/seed.py:22-25 | every stored row below the bound with the name is matched |
| Seed.FoundUserIsStored | shop/management/commands/seed.py:22-25 | a user found by username is stored with that username |
| Seed.FoundCategoryIsStored | shop/management/commands/seed.py:38 | a category found by name is stored with that name |
| Seed.FoundProductIsStored | shop/management/commands/seed.py:56-57 | a product found by name is stored with that name |
| Seed.MissingIsAbsent | shop/management/commands/seed.py:22-25 | when the lookup finds nothing, no stored row has the name |
| Seed.GetOrCreateUserEffect | shop/management/commands/seed.py:22-28 | get-or-create of a user raises only when two users share the username. It returns the existing user unchanged, or adds the seeded user with its password under the next key. Afterwards the username is found at the returned key; other lookups, other tables and every existing user are unchanged |
| Seed.GetOrCreateCategoryEffect | shop/management/commands/seed.py:38 | get-or-create of a category raises only on a duplicate name. It returns the existing category unchanged, or adds a category of that name under the next key. The name is then found at the returned key; other lookups and tables are unchanged |
| Seed.GetOrCreateProductEffect | shop/management/commands/seed.py:56-65 | get-or-create of a product raises only on a duplicate name. It returns the existing product unchanged, or adds the default row under the next key. The name is then found at the returned key; other lookups, tables and existing products are unchanged |
| Seed.SeedUserListFailureSticks | shop/management/commands/seed.py:21-32 | once a get-or-create in the user loop raises, the loop ends there |
| Seed.SeedCategoryListFailureSticks | shop/management/commands/seed.py:37-43 | once a get-or-create in the category loop raises, the loop ends there |
| Seed.SeedProductListFailureSticks | shop/management/commands/seed.py:52-65 | once a get-or-create in the product loops raises, the loops end there |
| Seed.SeedUserListEffect | shop/management/commands/seed.py:20-32 | the user loop raises only MultipleObjectsReturned. On success each seeded username is found at the key collected for it. Other usernames, other tables and existing users are unchanged |
| Seed.SeedUserListReplay | shop/management/commands/seed.py:20-32 | when every seeded username already exists, the user loop changes nothing and collects the existing keys |
| Seed.SeedCategoryListEffect | shop/management/commands/seed.py:35-43 | the category loop raises only MultipleObjectsReturned. On success each name is found at the key collected for it, and other names and tables are unchanged |
| Seed.SeedCategoryListReplay | shop/management/commands/seed.py:35-43 | when every category name already exists, the category loop changes nothing and collects the existing keys |
| Seed.ProductNamesDistinct | shop/management/commands/seed.py:52-55 | the ten product names are pairwise distinct |
| Seed.SeedProductListEffect | shop/management/commands/seed.py:52-65 | the product loops raise only MultipleObjectsReturned. On success every product name is found, and other names, other tables and existing products are unchanged |
| Seed.SeedProductListReplay | shop/management/commands/seed.py:52-65 | when every product name already exists, the product loops change nothing |
| Seed.SeedProductCreated | shop/management/commands/seed.py:56-65 | a product name that was missing is afterwards found at a row equal to its defaults |
| Seed.ProductRowsFormulas | shop/management/commands/seed.py:51-65 | product j (counting from 0) is named after category j/2 with suffix 1 or 2; its description is "Sample " and the name, it is in category j/2, costs 10.00 times (j+1), has stock 50 + 5(j+1), and is sold by seller (j/2 + 1 + j mod 2) mod the number of sellers. The names are distinct |
| Seed.SellersAmongExact | shop/management/commands/seed.py:46 | the sellers are exactly the collected users whose role is seller |
| Seed.HandleFindsUsersAndCategories | shop/management/commands/seed.py:9-43 | after a run that finishes, every seeded username and category name is found at the key the loops collected |
| Seed.HandleIdempotent | shop/management/commands/seed.py:9-65 | running the command again after a run that finished changes nothing and finishes again |
| Seed.HandleWithoutSellers | shop/management/commands/seed.py:46-49 | when no collected user is a seller, the command creates no product |
| Seed.GetOrCreateUserKeepsValid | shop/management/commands/seed.py:22-28 | a user get-or-create keeps a valid store valid, since a created user's username matched no stored user, and a key it returns is a stored user |
| Seed.GetOrCreateCategoryKeepsValid | shop/management/commands/seed.py:38 | a category get-or-create keeps a valid store valid and its users, and a key it returns is a stored category |
| Seed.GetOrCreateProductKeepsValid | shop/management/commands/seed.py:56-65 | a product get-or-create whose defaults name a stored seller and category and a non-negative stock keeps a valid store valid |
| Seed.SeedUserListKeepsValid | shop/management/commands/seed.py:21-32 | the user loop keeps a valid store valid, and every user it collected is stored |
| Seed.SeedCategoryListKeepsValid | shop/management/commands/seed.py:37-43 | the category loop keeps a valid store valid and its users, and every category it collected is stored |
| Seed.SeedProductListKeepsValid | shop/management/commands/seed.py:52-65 | the product loop keeps a valid store valid when every default row fits it, and leaves users and categories alone |
| Seed.HandleKeepsValid | shop/management/commands/seed.py:9-65 | the command keeps a valid store valid, whether it finishes or raises: every product it creates is sold by a seeded seller, lies in a seeded category and has non-negative stock |
| Seed.HandleKeepsExistingUsers | shop/management/commands/seed.py:21-32 | every user stored before the run is still stored, unchanged |
| Seed.HandleCreatesDefaults | shop/management/commands/seed.py:46-65 | when there are sellers, each product name that was missing is afterwards stored with its position's defaults |
| Store.Database.constructor | shop/models.py:7-48 | a new store has empty tables and every next key at 1 |
| Store.Database.SaveItem | shop/models.py:53-60 | the new fields and the outcome are those of `Models.SaveItem` on the old fields |
| Store.Database.CreateOrder | shop/serializers.py:48-53 | creating the order row and then looping over the items gives the fields and outcome of `Serializers.CreateOrder` on the old fields |
| Store.Database.Register | shop/serializers.py:13-21 | the fields and outcome are those of `Serializers.Register`; validity is kept |
| Store.Database.CreateProduct | shop/views.py:138-139 | the fields and outcome are those of `Views.CreateProduct`; validity is kept |
| Store.Database.CreateOrderRequest | shop/views.py:260-261 | the fields and outcome are those of `Views.CreateOrderRequest`; validity is kept |
| Store.Database.MarkPaid | shop/views.py:335-340 | the fields and outcome are those of `Views.MarkPaid`; validity is kept |
| Store.Database.GetOrCreateUser | shop/management/commands/seed.py:22-28 | the fields, outcome and key are those of `Seed.GetOrCreateUser` |
| Store.Database.GetOrCreateCategory | shop/management/commands/seed.py:38 | the fields, outcome and key are those of `Seed.GetOrCreateCategory` |
| Store.Database.GetOrCreateProduct | shop/management/commands/seed.py:56-65 | the fields, outcome and key are those of `Seed.GetOrCreateProduct` |
| Store.Database.SeedUserLoop | shop/management/commands/seed.py:20-32 | the loop over the seeded users gives the fields, outcome and collected keys of `Seed.SeedUserList` |
| Store.Database.SeedCategoryLoop | shop/management/commands/seed.py:36-43 | the loop over the category names gives the fields, outcome and collected keys of `Seed.SeedCategoryList` |
| Store.Database.SellersOf | shop/management/commands/seed.py:46 | the sellers returned are `Seed.SellersAmong` of the collected users |
| Store.Database.SeedProductStep | shop/management/commands/seed.py:56-65 | one get-or-create extends the product list by its row, and a raise ends the whole list there |
| Store.Database.SeedProductSlot | shop/management/commands/seed.py:54-65 | one inner iteration builds the name from the stored category and the row for its position, then runs that get-or-create |
| Store.Database.SeedCategoryProducts | shop/management/commands/seed.py:53-65 | the inner loop adds the category's two products and leaves the categories alone |
| Store.Database.SeedProductLoop | shop/management/commands/seed.py:51-65 | the nested loops give the fields and outcome of `Seed.SeedProductList` over the ten default rows |
| Store.Database.Handle | shop/management/commands/seed.py:9-65 | the command gives the fields and outcome of `Seed.Handle` on the old fields; validity is kept |

## Left out

- URL routing, schema generation (`schema.py`, `extend_schema`), JWT token issuing and the authentication middleware are left out. The principal of a request is a parameter: nobody, or a stored user.
- Password hashing is left out. The raw password stands for its hash, and no output shows it.
- The `created_at` clock is left out. The time is a parameter of order creation.
- HTTP status codes, response bodies, pagination and the seed command's stdout and stderr messages are left out. Errors are the values of `Models.Error`.
- Decimal arithmetic is not modelled. Prices are integer cents, the seed price `10.0 * prod_count` is `1000 * prod_count` cents, and the two decimal places of `total_amount` on output are not modelled. The field's twelve-digit limit is modelled: `Serializers.OrderOutput` fails when the total reaches 10^12 cents in magnitude.
- Username validators, `max_length` of the user and category fields and e-mail format checks are left out. Registration checks the stripped username and password for blankness, the stripped username, password and email for NUL characters, the stripped username for uniqueness, and the role choice. The product input checks its stripped name and description for NUL characters. Every character field is stripped as DRF's `trim_whitespace` does; the role is a choice field and is not stripped.
- The response of order `create` is not modelled. It is the order output, which fails when `total_amount` does not fit its decimal field, and it fails after the order and its items have been saved. `Views.CreateOrderRequest` gives the saved rows, and `Serializers.OrderOutput` gives the output or its failure.
- Views.OrderObject: the query string's filter values are typed here, a key or a time. A value that does not parse, which makes DRF answer 400 on the list and on every lookup, is not modelled.
- Views.OrderViewsSound: the list is a set of keys. The repeated rows that a non-distinct join gives in the list of an admin or customer are not modelled; for a lookup they are, as MultipleObjectsReturned.
- Views.OrderViewsSound: states no 400 for a filter value that does not parse, for the same reason.
- Views.MarkPaidEffect: states no 400 for a filter value that does not parse, for the same reason.
- Models.ItemIdsBelow: `OrderItem` has no `Meta.ordering` and `order.items.all()` no `order_by`, so the source leaves the order of an order's items to the database. The model fixes ascending key order, which is creation order.
- Serializers.ItemOutputsEntries: lists the item outputs in ascending key order, for the same reason.
- Serializers.OrderOutputConsistent: lists the items in ascending key order, for the same reason.
- Concurrent requests are left out. Each request is a function of the whole store, so the lost update of two concurrent orders is not modelled. The lost decrement within one order is modelled.
- Product and order `update`, `partial_update` and `destroy`, and category create, update and delete, are modelled only through their permissions, the order lookup (`Views.OrderObject`) and the `on_delete` rules (`Models.Delete*`). The product lookup, `get_object` over the seller-scoped and filtered product queryset, is not modelled. Writing new field values and the nested item writes of an order update are not modelled.
- `CategorySerializer` is a plain projection of `id` and `name` and is not modelled separately.
- The `hasattr(request.user, 'role')` branches of both `get_queryset` and of `ProductViewSet.get_permissions` are always taken, because every user in the model has a role. The queryset returned for an anonymous principal is never reached, because both view sets refuse anonymous requests first.
- Views.ProductFilterExact: `search` is matched as one contiguous, case-sensitive piece of the name. DRF's `SearchFilter` splits the term into words and matches each one case-insensitively, so a search term of only whitespace keeps the whole list there but is matched literally here.
- Serializers.CreateOrderDistinctSuccess: the stock outcome is stated for orders whose items name distinct products. For repeated products, `Serializers.CreateItemsWritesHeldProducts` states what is written.
- Serializers.CreateOrderStock: stated for distinct products, for the same reason.
- Seed.HandleIdempotent: stated for a first run that finished. A first run that raised MultipleObjectsReturned has no claim about a second run.
- Seed.SeedProductListReplay: states that nothing changes only when every product name already exists. A partly seeded store is covered by `Seed.SeedProductCreated` and `Seed.SeedProductListEffect`.
