/**
 * The shop's tables: users with a role, categories, products, orders and
 * order items, each held as a map from primary key to row, with the next free
 * primary key of every table. Prices are integer cents. The module also holds
 * the two derived values (`total_price`, `total_amount`), the stock rule of
 * `OrderItem.save` and the `on_delete` rules of the foreign keys.
 */
module Models {

  datatype Option<T> = None | Some(value: T) {
    function GetOr(default: T): T {
      if Some? then value else default
    }
  }

  type UserId = nat
  type CategoryId = nat
  type ProductId = nat
  type OrderId = nat
  type ItemId = nat

  /** The three choices of the `role` column. */
  datatype Role = Admin | Seller | Customer

  /** The literal the `role` column stores for each choice. */
  function RoleLiteral(r: Role): string {
    match r
    case Admin => "admin"
    case Seller => "seller"
    case Customer => "customer"
  }

  /** Choice validation of the `role` column: a role is one of the three literals. */
  function ParseRole(s: string): (r: Option<Role>)
    ensures r.Some? <==> s == "admin" || s == "seller" || s == "customer"
  {
    if s == "admin" then Some(Admin)
    else if s == "seller" then Some(Seller)
    else if s == "customer" then Some(Customer)
    else None
  }

  /** Parsing a stored literal gives back its role, and every parsed role stores that literal. */
  lemma ParseRoleRoundTrip(r: Role, s: string)
    ensures ParseRole(RoleLiteral(r)) == Some(r)
    ensures ParseRole(s).Some? ==> RoleLiteral(ParseRole(s).value) == s
  {
  }

  /**
   * A password given to `set_password`. Hashing is outside the model, so the
   * raw value stands for the stored hash; no output of the model shows it.
   */
  datatype Password = NoPassword | PasswordOf(raw: string)

  datatype User = User(username: string, email: string, role: Role, password: Password)

  datatype Category = Category(name: string)

  /** `price` is in cents; `stock` is a `PositiveIntegerField`, kept non-negative by `Valid`. */
  datatype Product = Product(
    seller: UserId,
    category: CategoryId,
    name: string,
    description: string,
    price: int,
    stock: int)

  datatype PaymentStatus = Paid | Unpaid

  /** `created_at` is a clock reading, given to the model as an integer timestamp. */
  datatype Order = Order(customer: UserId, createdAt: int, paymentStatus: PaymentStatus)

  datatype OrderItem = OrderItem(order: OrderId, product: ProductId, quantity: nat)

  /** The whole store: every table and the next primary key it hands out. */
  datatype Db = Db(
    users: map<UserId, User>, nextUser: nat,
    categories: map<CategoryId, Category>, nextCategory: nat,
    products: map<ProductId, Product>, nextProduct: nat,
    orders: map<OrderId, Order>, nextOrder: nat,
    items: map<ItemId, OrderItem>, nextItem: nat)

  /** A freshly migrated, empty store; primary keys start at 1. */
  const EmptyDb: Db := Db(map[], 1, map[], 1, map[], 1, map[], 1, map[], 1)

  /** The largest value a `PositiveIntegerField` holds. */
  const MaxPositiveInt: int := 2147483647

  /** `DecimalField(max_digits=10, decimal_places=2)`: at most eight whole digits, so fewer than 10^10 cents. */
  const PriceLimit: int := 10_000_000_000

  predicate PriceFits(cents: int) {
    -PriceLimit < cents < PriceLimit
  }

  /** What a request or an ORM call can fail with. */
  datatype Error =
    | NotAuthenticated
    | PermissionDenied
    | NotFound
    | Invalid
    | Integrity
    | InsufficientStock
    | Protected
    | MultipleObjectsReturned

  datatype Outcome = Pass | Fail(error: Error)

  /** The store after an operation and whether it raised. Nothing is rolled back on failure. */
  datatype Saved = Saved(db: Db, outcome: Outcome)

  /**
   * The store's integrity: every key is below its table's next key, foreign keys
   * point at existing rows, usernames are unique and stock is non-negative.
   */
  predicate Valid(db: Db) {
    UsersValid(db) && CategoriesValid(db) && ProductsValid(db) && OrdersValid(db) && ItemsValid(db)
  }

  predicate UsersValid(db: Db) {
    && (forall u :: u in db.users ==> u < db.nextUser)
    && (forall u, v :: u in db.users && v in db.users && db.users[u].username == db.users[v].username ==> u == v)
  }

  predicate CategoriesValid(db: Db) {
    forall c :: c in db.categories ==> c < db.nextCategory
  }

  predicate ProductsValid(db: Db) {
    forall p :: p in db.products ==> p < db.nextProduct && ProductFits(db, db.products[p])
  }

  predicate OrdersValid(db: Db) {
    forall o :: o in db.orders ==> o < db.nextOrder && db.orders[o].customer in db.users
  }

  predicate ItemsValid(db: Db) {
    forall i :: i in db.items ==> i < db.nextItem && db.items[i].order in db.orders && db.items[i].product in db.products
  }

  /** A product row whose seller and category exist and whose stock is non-negative. */
  predicate ProductFits(db: Db, p: Product) {
    p.seller in db.users && p.category in db.categories && p.stock >= 0
  }

  // ---------------------------------------------------------------------------
  // Derived values: total_price and total_amount, computed on every read.

  /** The keys below `n` of `order`'s items, in ascending order, which is the order they were created in. */
  function ItemIdsBelow(items: map<ItemId, OrderItem>, order: OrderId, n: nat): (r: seq<ItemId>)
    ensures forall k :: 0 <= k < |r| ==> r[k] < n && r[k] in items && items[r[k]].order == order
    ensures forall k, l :: 0 <= k < l < |r| ==> r[k] < r[l]
  {
    if n == 0 then []
    else ItemIdsBelow(items, order, n - 1) + (if n - 1 in items && items[n - 1].order == order then [n - 1] else [])
  }

  /** Every row of the order below `n` is listed. */
  lemma {:induction false} ItemIdsBelowComplete(items: map<ItemId, OrderItem>, order: OrderId, n: nat, i: ItemId)
    requires i < n && i in items && items[i].order == order
    ensures i in ItemIdsBelow(items, order, n)
    decreases n
  {
    if i < n - 1 {
      ItemIdsBelowComplete(items, order, n - 1, i);
    }
  }

  /** `order.items.all()`. */
  function OrderItemIds(db: Db, order: OrderId): seq<ItemId> {
    ItemIdsBelow(db.items, order, db.nextItem)
  }

  /** `OrderItem.total_price`: the product's current price times the quantity. */
  function TotalPrice(db: Db, item: OrderItem): int
    requires item.product in db.products
  {
    db.products[item.product].price * item.quantity
  }

  predicate Priced(db: Db, ids: seq<ItemId>) {
    forall k :: 0 <= k < |ids| ==> ids[k] in db.items && db.items[ids[k]].product in db.products
  }

  /** The sum of `total_price` over the listed items. */
  function SumTotals(db: Db, ids: seq<ItemId>): int
    requires Priced(db, ids)
  {
    if ids == [] then 0 else SumTotals(db, ids[..|ids| - 1]) + TotalPrice(db, db.items[ids[|ids| - 1]])
  }

  /** `Order.total_amount`: the sum of its items' `total_price`, recomputed from the current rows. */
  function TotalAmount(db: Db, order: OrderId): int
    requires Valid(db)
  {
    SumTotals(db, OrderItemIds(db, order))
  }

  /** The items listed for an order are exactly its rows in the items table. */
  lemma OrderItemIdsExact(db: Db, order: OrderId, i: ItemId)
    requires Valid(db)
    ensures i in OrderItemIds(db, order) <==> i in db.items && db.items[i].order == order
  {
    if i in db.items && db.items[i].order == order {
      ItemIdsBelowComplete(db.items, order, db.nextItem, i);
    }
  }

  /** An order without items totals 0. */
  lemma TotalAmountWithoutItems(db: Db, order: OrderId)
    requires Valid(db)
    requires forall i :: i in db.items ==> db.items[i].order != order
    ensures TotalAmount(db, order) == 0
  {
  }

  // ---------------------------------------------------------------------------
  // OrderItem.save: the stock rule.

  /**
   * An `OrderItem` instance being saved. `pk` is set once its row exists;
   * `product` is the `Product` object the instance holds, loaded when the
   * request was validated, which need not equal the stored row any more.
   */
  datatype ItemInstance = ItemInstance(
    pk: Option<ItemId>,
    order: OrderId,
    productId: ProductId,
    product: Product,
    quantity: nat)

  function Row(it: ItemInstance): OrderItem {
    OrderItem(it.order, it.productId, it.quantity)
  }

  /**
   * `OrderItem.save`. A new item (no `pk`) whose quantity exceeds the held
   * product's stock raises "Insufficient stock" before anything is written.
   * Otherwise the held product object has its stock decremented and is saved
   * whole over the product's row, and then the item row is inserted under the
   * next key. An item that already has a `pk` is only written back.
   */
  function SaveItem(db: Db, it: ItemInstance): Saved {
    match it.pk
    case Some(id) =>
      Saved(db.(items := db.items[id := Row(it)]), Pass)
    case None =>
      if it.quantity > it.product.stock then Saved(db, Fail(InsufficientStock))
      else
        Saved(db.(products := db.products[it.productId := it.product.(stock := it.product.stock - it.quantity)],
                  items := db.items[db.nextItem := Row(it)],
                  nextItem := db.nextItem + 1),
              Pass)
  }

  /**
   * A new item within the held stock is stored under the next key, and the
   * product's row becomes the held object with its stock lowered by exactly the
   * quantity; no other row changes. When the held object is the stored row,
   * the stored stock drops by exactly the quantity.
   */
  lemma SaveNewItemWithinStock(db: Db, it: ItemInstance)
    requires it.pk.None? && it.quantity <= it.product.stock
    ensures SaveItem(db, it).outcome == Pass
    ensures var d := SaveItem(db, it).db;
      && d.items == db.items[db.nextItem := OrderItem(it.order, it.productId, it.quantity)]
      && d.nextItem == db.nextItem + 1
      && d.products == db.products[it.productId := it.product.(stock := it.product.stock - it.quantity)]
      && d.users == db.users && d.categories == db.categories && d.orders == db.orders
      && d.nextUser == db.nextUser && d.nextCategory == db.nextCategory
      && d.nextProduct == db.nextProduct && d.nextOrder == db.nextOrder
    ensures it.productId in db.products && db.products[it.productId] == it.product ==>
      SaveItem(db, it).db.products[it.productId].stock == db.products[it.productId].stock - it.quantity
  {
  }

  /** A new item beyond the held stock raises InsufficientStock and the store is left as it was. */
  lemma SaveNewItemShortOfStock(db: Db, it: ItemInstance)
    requires it.pk.None? && it.quantity > it.product.stock
    ensures SaveItem(db, it) == Saved(db, Fail(InsufficientStock))
  {
  }

  /** Saving an item that already has a primary key changes no product and no stock. */
  lemma ResaveKeepsStock(db: Db, it: ItemInstance)
    requires it.pk.Some?
    ensures SaveItem(db, it).outcome == Pass
    ensures SaveItem(db, it).db.products == db.products
    ensures SaveItem(db, it).db.items == db.items[it.pk.value := Row(it)]
  {
  }

  /** An item instance that can be saved into `db` without breaking integrity. */
  predicate InstanceFits(db: Db, it: ItemInstance) {
    && it.order in db.orders
    && it.productId in db.products
    && ProductFits(db, it.product)
    && (it.pk.Some? ==> it.pk.value in db.items)
  }

  /** `db'` keeps every row key of `db`, and the users, categories and orders tables. */
  predicate Grows(db: Db, db': Db) {
    && db'.users == db.users && db'.categories == db.categories && db'.orders == db.orders
    && db.products.Keys <= db'.products.Keys && db.items.Keys <= db'.items.Keys
    && db'.nextUser == db.nextUser && db'.nextCategory == db.nextCategory
    && db'.nextProduct == db.nextProduct && db'.nextOrder == db.nextOrder
    && db.nextItem <= db'.nextItem
  }

  /** An instance that fits a store still fits once the store has only grown. */
  lemma FitsAfterGrowth(db: Db, db': Db, it: ItemInstance)
    requires InstanceFits(db, it) && Grows(db, db')
    ensures InstanceFits(db', it)
  {
  }

  /** Saving an item instance that fits the store keeps its integrity and only adds rows, whatever the outcome. */
  lemma SaveItemKeepsValid(db: Db, it: ItemInstance)
    requires Valid(db) && InstanceFits(db, it)
    ensures Valid(SaveItem(db, it).db) && Grows(db, SaveItem(db, it).db)
  {
    if it.pk.Some? {
      ResaveKeepsValid(db, it);
    } else if it.quantity <= it.product.stock {
      NewItemKeepsValid(db, it);
    }
  }

  /** The re-save case: the row is written back over an existing key. */
  lemma ResaveKeepsValid(db: Db, it: ItemInstance)
    requires Valid(db) && InstanceFits(db, it) && it.pk.Some?
    ensures Valid(SaveItem(db, it).db) && Grows(db, SaveItem(db, it).db)
  {
    var d := SaveItem(db, it).db;
    forall i | i in d.items
      ensures i < d.nextItem && d.items[i].order in d.orders && d.items[i].product in d.products
    {
      if i != it.pk.value {
        assert d.items[i] == db.items[i];
      }
    }
  }

  /** The new-item case within stock: the product row and a new item row are written. */
  lemma NewItemKeepsValid(db: Db, it: ItemInstance)
    requires Valid(db) && InstanceFits(db, it) && it.pk.None? && it.quantity <= it.product.stock
    ensures Valid(SaveItem(db, it).db) && Grows(db, SaveItem(db, it).db)
  {
    SaveNewItemWithinStock(db, it);
    var d := SaveItem(db, it).db;
    forall p | p in d.products
      ensures p < d.nextProduct && ProductFits(d, d.products[p])
    {
      if p != it.productId {
        assert d.products[p] == db.products[p];
      }
    }
    forall i | i in d.items
      ensures i < d.nextItem && d.items[i].order in d.orders && d.items[i].product in d.products
    {
      if i != db.nextItem {
        assert d.items[i] == db.items[i];
      }
    }
  }

  /** Saves a sequence of item instances one after another; a failing save changes nothing and the next one still runs. */
  function SaveAll(db: Db, its: seq<ItemInstance>): Db
    decreases |its|
  {
    if its == [] then db else SaveAll(SaveItem(db, its[0]).db, its[1..])
  }

  /**
   * Stock never goes negative: whatever sequence of new and re-saved items is
   * saved, each holding a product object loaded from the store at some point
   * (so with non-negative stock), every product's stock stays non-negative and
   * the store keeps its integrity.
   */
  lemma {:induction false} SaveAllKeepsStockNonNegative(db: Db, its: seq<ItemInstance>)
    requires Valid(db)
    requires forall k :: 0 <= k < |its| ==> InstanceFits(db, its[k])
    ensures Valid(SaveAll(db, its))
    ensures forall p :: p in SaveAll(db, its).products ==> SaveAll(db, its).products[p].stock >= 0
    decreases |its|
  {
    if its != [] {
      var d := SaveItem(db, its[0]).db;
      SaveItemKeepsValid(db, its[0]);
      forall k | 0 <= k < |its[1..]|
        ensures InstanceFits(d, its[1..][k])
      {
        assert InstanceFits(db, its[k + 1]);
      }
      SaveAllKeepsStockNonNegative(d, its[1..]);
    }
  }

  // ---------------------------------------------------------------------------
  // on_delete rules.

  /** `Product.category` is PROTECT: a category that a product still references cannot be deleted. */
  function DeleteCategory(db: Db, id: CategoryId): Saved {
    if exists p :: p in db.products && db.products[p].category == id then Saved(db, Fail(Protected))
    else Saved(db.(categories := db.categories - {id}), Pass)
  }

  /** `OrderItem.product` is PROTECT: a product that an order item still references cannot be deleted. */
  function DeleteProduct(db: Db, id: ProductId): Saved {
    if exists i :: i in db.items && db.items[i].product == id then Saved(db, Fail(Protected))
    else Saved(db.(products := db.products - {id}), Pass)
  }

  /** `OrderItem.order` is CASCADE: deleting an order deletes its items. */
  function DeleteOrder(db: Db, id: OrderId): Saved {
    Saved(db.(orders := db.orders - {id},
              items := map i | i in db.items && db.items[i].order != id :: db.items[i]),
          Pass)
  }

  predicate SoldBy(db: Db, p: ProductId, user: UserId) {
    p in db.products && db.products[p].seller == user
  }

  predicate PlacedBy(db: Db, o: OrderId, user: UserId) {
    o in db.orders && db.orders[o].customer == user
  }

  /**
   * `Product.seller` and `Order.customer` are CASCADE: deleting a user deletes
   * the products they sell and the orders they placed, with those orders'
   * items. The PROTECT rule of `OrderItem.product` still applies to the
   * cascaded products: if any item, in any order, references one of them, the
   * whole deletion is refused.
   */
  function DeleteUser(db: Db, user: UserId): Saved {
    if exists i :: i in db.items && SoldBy(db, db.items[i].product, user) then Saved(db, Fail(Protected))
    else
      Saved(db.(users := db.users - {user},
                products := map p | p in db.products && !SoldBy(db, p, user) :: db.products[p],
                orders := map o | o in db.orders && !PlacedBy(db, o, user) :: db.orders[o],
                items := map i | i in db.items && !PlacedBy(db, db.items[i].order, user) :: db.items[i]),
            Pass)
  }

  /** Deleting a category fails while a product references it; otherwise only that category goes. */
  lemma DeleteCategoryRule(db: Db, id: CategoryId)
    requires Valid(db)
    ensures (exists p :: p in db.products && db.products[p].category == id) <==> DeleteCategory(db, id).outcome == Fail(Protected)
    ensures DeleteCategory(db, id).outcome == Fail(Protected) ==> DeleteCategory(db, id).db == db
    ensures DeleteCategory(db, id).outcome == Pass ==>
      DeleteCategory(db, id).db == db.(categories := db.categories - {id}) && Valid(DeleteCategory(db, id).db)
  {
  }

  /** Deleting a product fails while an order item references it; otherwise only that product goes. */
  lemma DeleteProductRule(db: Db, id: ProductId)
    requires Valid(db)
    ensures (exists i :: i in db.items && db.items[i].product == id) <==> DeleteProduct(db, id).outcome == Fail(Protected)
    ensures DeleteProduct(db, id).outcome == Fail(Protected) ==> DeleteProduct(db, id).db == db
    ensures DeleteProduct(db, id).outcome == Pass ==>
      DeleteProduct(db, id).db == db.(products := db.products - {id}) && Valid(DeleteProduct(db, id).db)
  {
  }

  /** Deleting an order removes it and exactly its items, and nothing else, and keeps the store's integrity. */
  lemma DeleteOrderCascades(db: Db, id: OrderId)
    requires Valid(db)
    ensures var d := DeleteOrder(db, id).db;
      && d == db.(orders := db.orders - {id}, items := d.items)
      && id !in d.orders
      && (forall i :: i in d.items <==> i in db.items && db.items[i].order != id)
      && (forall i :: i in d.items ==> d.items[i] == db.items[i])
      && d.products == db.products && d.users == db.users && d.categories == db.categories
      && Valid(d)
  {
    var d := DeleteOrder(db, id).db;
    assert ItemsValid(d) by {
      forall i | i in d.items
        ensures i < d.nextItem && d.items[i].order in d.orders && d.items[i].product in d.products
      {
        assert d.items[i] == db.items[i];
      }
    }
  }

  /**
   * Deleting a user either is refused, with nothing changed, because an order
   * item references a product they sell, or removes the user, the products
   * they sell, the orders they placed and those orders' items, and nothing
   * else, keeping the store's integrity.
   */
  lemma DeleteUserCascades(db: Db, user: UserId)
    requires Valid(db)
    ensures DeleteUser(db, user).outcome == Fail(Protected) <==>
      exists i :: i in db.items && SoldBy(db, db.items[i].product, user)
    ensures DeleteUser(db, user).outcome == Fail(Protected) ==> DeleteUser(db, user).db == db
    ensures DeleteUser(db, user).outcome == Pass ==>
      var d := DeleteUser(db, user).db;
      && d == db.(users := db.users - {user}, products := d.products, orders := d.orders, items := d.items)
      && user !in d.users
      && (forall p :: p in d.products <==> p in db.products && db.products[p].seller != user)
      && (forall o :: o in d.orders <==> o in db.orders && db.orders[o].customer != user)
      && (forall i :: i in d.items <==> i in db.items && db.orders[db.items[i].order].customer != user)
      && (forall p :: p in d.products ==> d.products[p] == db.products[p])
      && (forall o :: o in d.orders ==> d.orders[o] == db.orders[o])
      && (forall i :: i in d.items ==> d.items[i] == db.items[i])
      && Valid(d)
  {
  }
}
