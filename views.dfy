/**
 * The view sets: which permissions each action checks, which rows each
 * principal's queryset holds, the filter fields, the two `perform_create`
 * hooks and the `mark_paid` action. Each request is a function of the store,
 * the principal and the request's own data.
 */
module Views {
  import opened Models
  import opened Permissions
  import opened Serializers

  /** The view-set actions. */
  datatype Action = List | Retrieve | Create | Update | PartialUpdate | Destroy | MarkPaidAction

  /** The principal is nobody, or a user as stored: the one the access token names. */
  predicate Current(db: Db, p: Principal) {
    p.Authenticated? ==> p.id in db.users && db.users[p.id] == p.user
  }

  /** A request or a lookup that either yields a value or is refused with an error. */
  datatype Access<T> = Granted(value: T) | Denied(error: Error)

  // ---------------------------------------------------------------------------
  // check_permissions

  /** What a refused request raises: NotAuthenticated without credentials, PermissionDenied with them. */
  function Refusal(p: Principal): Error {
    if p.Anonymous? then NotAuthenticated else PermissionDenied
  }

  /** `check_permissions`: the permissions are tried in order and the first one that fails refuses the request. */
  function CheckPermissions(perms: seq<Permission>, p: Principal): (r: Outcome)
    ensures r == Pass <==> forall k :: 0 <= k < |perms| ==> HasPermission(perms[k], p)
    ensures r.Fail? ==> r.error == Refusal(p)
  {
    if perms == [] then Pass
    else if !HasPermission(perms[0], p) then Fail(Refusal(p))
    else CheckPermissions(perms[1..], p)
  }

  // ---------------------------------------------------------------------------
  // ProductViewSet

  /** `ProductViewSet.get_permissions`: chosen by the role alone, the same for every action. */
  function ProductPermissions(p: Principal): seq<Permission> {
    if p.Anonymous? then [IsAuthenticated]
    else if RoleLiteral(p.user.role) == "admin" then [IsAuthenticated, IsAdmin]
    else if RoleLiteral(p.user.role) == "seller" then [IsAuthenticated, IsSeller]
    else [IsAuthenticated]
  }

  /**
   * The product permission list is `IsAdmin` for admins, `IsSeller` for
   * sellers and `IsAuthenticated` alone otherwise, so every authenticated
   * user passes it, a customer included, whatever the action; an anonymous
   * request is refused as not authenticated.
   */
  lemma ProductPermissionsAdmitAuthenticated(p: Principal)
    ensures p.Authenticated? && p.user.role == Admin ==> ProductPermissions(p) == [IsAuthenticated, IsAdmin]
    ensures p.Authenticated? && p.user.role == Seller ==> ProductPermissions(p) == [IsAuthenticated, IsSeller]
    ensures p.Authenticated? && p.user.role == Customer ==> ProductPermissions(p) == [IsAuthenticated]
    ensures CheckPermissions(ProductPermissions(p), p) == if p.Authenticated? then Pass else Fail(NotAuthenticated)
  {
  }

  /** `ProductViewSet.get_queryset`: a seller gets the products they sell, everyone else all products. */
  function ProductQueryset(db: Db, p: Principal): set<ProductId> {
    if p.Authenticated? && RoleLiteral(p.user.role) == "seller" then
      set id | id in db.products && db.products[id].seller == p.id
    else
      db.products.Keys
  }

  /** The seller's queryset holds exactly the products whose seller is that user; any other's holds every product. */
  lemma ProductScoping(db: Db, p: Principal, id: ProductId)
    ensures p.Authenticated? && p.user.role == Seller ==> (id in ProductQueryset(db, p) <==> SoldBy(db, id, p.id))
    ensures !(p.Authenticated? && p.user.role == Seller) ==> (id in ProductQueryset(db, p) <==> id in db.products)
  {
  }

  /** `s` occurs in `t` starting at position `i`. */
  predicate OccursAt(s: string, t: string, i: int) {
    0 <= i <= |t| - |s| && t[i..i + |s|] == s
  }

  /** `s` occurs in `t` as a contiguous piece. */
  predicate Occurs(s: string, t: string) {
    exists i :: 0 <= i <= |t| - |s| && OccursAt(s, t, i)
  }

  /** The filters: `category__id` by exact key, then `search` on the name. */
  function ProductFilter(db: Db, qs: set<ProductId>, category: Option<CategoryId>, search: Option<string>): set<ProductId> {
    set id | id in qs && id in db.products
      && (category.Some? ==> db.products[id].category == category.value)
      && (search.Some? ==> Occurs(search.value, db.products[id].name))
  }

  /** The filtered list is the queryset narrowed to the category asked for and the names that contain the search term. */
  lemma ProductFilterExact(db: Db, qs: set<ProductId>, category: Option<CategoryId>, search: Option<string>, id: ProductId)
    requires qs <= db.products.Keys
    ensures ProductFilter(db, qs, None, None) == qs
    ensures id in ProductFilter(db, qs, category, search) <==>
      && id in qs
      && (category.Some? ==> db.products[id].category == category.value)
      && (search.Some? ==> Occurs(search.value, db.products[id].name))
  {
  }

  /**
   * The product filters only narrow: the list lies within the queryset,
   * filtering by category and then searching gives the same list as both at
   * once, an empty search term keeps every product, and a smaller queryset
   * never gives a larger list.
   */
  lemma ProductFilterLaws(db: Db, qs: set<ProductId>, qs': set<ProductId>, category: Option<CategoryId>, search: Option<string>)
    ensures ProductFilter(db, qs, category, search) <= qs
    ensures ProductFilter(db, qs, category, search) == ProductFilter(db, ProductFilter(db, qs, category, None), None, search)
    ensures ProductFilter(db, qs, category, Some("")) == ProductFilter(db, qs, category, None)
    ensures qs' <= qs ==> ProductFilter(db, qs', category, search) <= ProductFilter(db, qs, category, search)
  {
    forall id | id in db.products
      ensures Occurs("", db.products[id].name)
    {
      assert OccursAt("", db.products[id].name, 0);
    }
  }

  /** `list` on products: the permissions, then the scoped and filtered queryset. */
  function ProductIndex(db: Db, p: Principal, category: Option<CategoryId>, search: Option<string>): Access<set<ProductId>> {
    match CheckPermissions(ProductPermissions(p), p)
    case Fail(e) => Denied(e)
    case Pass => Granted(ProductFilter(db, ProductQueryset(db, p), category, search))
  }

  /** A seller's product list never shows a product of anyone else, and a customer's shows every product that matches. */
  lemma ProductIndexSound(db: Db, p: Principal, category: Option<CategoryId>, search: Option<string>, id: ProductId)
    ensures ProductIndex(db, p, category, search).Granted? <==> p.Authenticated?
    ensures var r := ProductIndex(db, p, category, search);
      r.Granted? && id in r.value && p.user.role == Seller ==> SoldBy(db, id, p.id)
    ensures var r := ProductIndex(db, p, category, search);
      r.Granted? && p.user.role == Customer ==> r.value == ProductFilter(db, db.products.Keys, category, search)
  {
    ProductPermissionsAdmitAuthenticated(p);
  }

  /**
   * `create` on products: the permissions, validation, then `perform_create`,
   * which saves the row with the requesting user as its seller.
   */
  function CreateProduct(db: Db, p: Principal, w: ProductWrite): Saved {
    match CheckPermissions(ProductPermissions(p), p)
    case Fail(e) => Saved(db, Fail(e))
    case Pass =>
      if !ProductWriteValid(db, w) then Saved(db, Fail(Invalid))
      else Saved(db.(products := db.products[db.nextProduct := ProductFrom(w, p.id)], nextProduct := db.nextProduct + 1), Pass)
  }

  /**
   * A created product's seller is the requesting user whatever `seller` the
   * input carried; every authenticated user may create one; the new row, and
   * nothing else, is added, holding the input's other fields with the name and
   * description stripped, and the store keeps its integrity.
   */
  lemma CreateProductSeller(db: Db, p: Principal, w: ProductWrite, claimed: Option<string>)
    requires Valid(db) && Current(db, p)
    ensures CreateProduct(db, p, w.(seller := claimed)) == CreateProduct(db, p, w)
    ensures var r := CreateProduct(db, p, w);
      r.outcome == Pass <==> p.Authenticated? && ProductWriteValid(db, w)
    ensures var r := CreateProduct(db, p, w);
      && (r.outcome.Fail? ==> r.db == db)
      && (r.outcome == Pass ==>
            && r.db == db.(products := r.db.products, nextProduct := db.nextProduct + 1)
            && r.db.products == db.products[db.nextProduct := r.db.products[db.nextProduct]]
            && db.nextProduct !in db.products
            && r.db.products[db.nextProduct].seller == p.id
            && ProductOutput(r.db, db.nextProduct) ==
                 ProductOut(db.nextProduct, p.user.username, w.category, Trim(w.name), Trim(w.description), w.price, w.stock)
            && Valid(r.db))
  {
    ProductPermissionsAdmitAuthenticated(p);
    var r := CreateProduct(db, p, w);
    if r.outcome == Pass {
      assert ProductsValid(r.db);
      assert ItemsValid(r.db);
    }
  }

  // ---------------------------------------------------------------------------
  // OrderViewSet

  /** `OrderViewSet.get_permissions`. */
  function OrderPermissions(a: Action): seq<Permission> {
    if a == Create then [IsAuthenticated, IsCustomer]
    else if a == List || a == Retrieve then [IsAuthenticated]
    else [IsAuthenticated, IsAdmin]
  }

  /**
   * Creating an order takes a customer, listing and retrieving take any
   * authenticated user, and every other action, `mark_paid` included, takes
   * an admin.
   */
  lemma OrderAccess(a: Action, p: Principal)
    ensures CheckPermissions(OrderPermissions(a), p) == Pass <==>
      && p.Authenticated?
      && (a == Create ==> p.user.role == Customer)
      && (a != Create && a != List && a != Retrieve ==> p.user.role == Admin)
    ensures p.Anonymous? ==> CheckPermissions(OrderPermissions(a), p) == Fail(NotAuthenticated)
  {
    RoleChecksExact(p);
  }

  /**
   * `OrderViewSet.get_queryset`: a customer gets their own orders, a seller
   * the orders with an item of a product they sell (each once), anyone else
   * all orders.
   */
  function OrderQueryset(db: Db, p: Principal): set<OrderId> {
    if p.Authenticated? && RoleLiteral(p.user.role) == "customer" then
      set o | o in db.orders && db.orders[o].customer == p.id
    else if p.Authenticated? && RoleLiteral(p.user.role) == "seller" then
      set o | o in db.orders && exists i :: i in db.items && db.items[i].order == o && SoldBy(db, db.items[i].product, p.id)
    else
      db.orders.Keys
  }

  /** An order holds an item of a product that `seller` sells. */
  predicate SellsInto(db: Db, o: OrderId, seller: UserId) {
    exists i :: i in db.items && db.items[i].order == o && SoldBy(db, db.items[i].product, seller)
  }

  /** A customer sees exactly their own orders, a seller exactly the orders they sell into, anyone else every order. */
  lemma OrderScoping(db: Db, p: Principal, o: OrderId)
    ensures p.Authenticated? && p.user.role == Customer ==> (o in OrderQueryset(db, p) <==> PlacedBy(db, o, p.id))
    ensures p.Authenticated? && p.user.role == Seller ==> (o in OrderQueryset(db, p) <==> o in db.orders && SellsInto(db, o, p.id))
    ensures !(p.Authenticated? && (p.user.role == Customer || p.user.role == Seller)) ==> (o in OrderQueryset(db, p) <==> o in db.orders)
  {
  }

  /** The order filters of the list. */
  datatype OrderQuery = OrderQuery(
    category: Option<CategoryId>,
    product: Option<ProductId>,
    createdFrom: Option<int>,
    createdUntil: Option<int>)

  /** The order holds some item whose product lies in `c`. */
  predicate HasItemInCategory(db: Db, o: OrderId, c: CategoryId) {
    exists i :: i in db.items && db.items[i].order == o && db.items[i].product in db.products && db.products[db.items[i].product].category == c
  }

  /** The order holds some item of product `pid`. */
  predicate HasItemOf(db: Db, o: OrderId, pid: ProductId) {
    exists i :: i in db.items && db.items[i].order == o && db.items[i].product == pid
  }

  /**
   * The filter fields: `items__product__category__id` and `items__product__id`
   * by exact key, each met by some item of the order, and `created_at` between
   * the bounds given, both inclusive.
   */
  function OrderFilter(db: Db, qs: set<OrderId>, q: OrderQuery): set<OrderId> {
    set o | o in qs && o in db.orders
      && (q.category.Some? ==> HasItemInCategory(db, o, q.category.value))
      && (q.product.Some? ==> HasItemOf(db, o, q.product.value))
      && (q.createdFrom.Some? ==> q.createdFrom.value <= db.orders[o].createdAt)
      && (q.createdUntil.Some? ==> db.orders[o].createdAt <= q.createdUntil.value)
  }

  const NoOrderQuery: OrderQuery := OrderQuery(None, None, None, None)

  /** The filtered list narrows the queryset by each filter given, and by nothing when none is given. */
  lemma OrderFilterExact(db: Db, qs: set<OrderId>, q: OrderQuery, o: OrderId)
    requires qs <= db.orders.Keys
    ensures OrderFilter(db, qs, NoOrderQuery) == qs
    ensures OrderFilter(db, qs, q) <= qs
    ensures o in OrderFilter(db, qs, q) <==>
      && o in qs
      && (q.category.Some? ==> HasItemInCategory(db, o, q.category.value))
      && (q.product.Some? ==> HasItemOf(db, o, q.product.value))
      && (q.createdFrom.Some? ==> q.createdFrom.value <= db.orders[o].createdAt)
      && (q.createdUntil.Some? ==> db.orders[o].createdAt <= q.createdUntil.value)
  {
  }

  /**
   * The order filters only narrow: filtering by the item fields and then by
   * the dates gives the same list as all at once, a date range whose end
   * precedes its start lists nothing, filtering by a product keeps no more than
   * filtering by that product's category, and a smaller queryset never gives a
   * larger list.
   */
  lemma OrderFilterLaws(db: Db, qs: set<OrderId>, qs': set<OrderId>, q: OrderQuery, pid: ProductId)
    ensures OrderFilter(db, qs, q) ==
      OrderFilter(db, OrderFilter(db, qs, NoOrderQuery.(category := q.category, product := q.product)),
                  NoOrderQuery.(createdFrom := q.createdFrom, createdUntil := q.createdUntil))
    ensures q.createdFrom.Some? && q.createdUntil.Some? && q.createdUntil.value < q.createdFrom.value ==>
      OrderFilter(db, qs, q) == {}
    ensures Valid(db) && pid in db.products ==>
      OrderFilter(db, qs, NoOrderQuery.(product := Some(pid))) <=
      OrderFilter(db, qs, NoOrderQuery.(category := Some(db.products[pid].category)))
    ensures qs' <= qs ==> OrderFilter(db, qs', q) <= OrderFilter(db, qs, q)
  {
    if q.createdFrom.Some? && q.createdUntil.Some? && q.createdUntil.value < q.createdFrom.value {
      assert forall o :: o !in OrderFilter(db, qs, q);
    }
  }

  /** Item `i` is an item of order `o` whose product lies in `c`. */
  predicate ItemInCategory(db: Db, i: ItemId, o: OrderId, c: CategoryId) {
    i in db.items && db.items[i].order == o && db.items[i].product in db.products && db.products[db.items[i].product].category == c
  }

  /** Item `i` is an item of order `o` of product `pid`. */
  predicate ItemOfProduct(db: Db, i: ItemId, o: OrderId, pid: ProductId) {
    i in db.items && db.items[i].order == o && db.items[i].product == pid
  }

  /**
   * Each item filter joins the order's items and yields one row per item that
   * meets it. The row of order `o` is repeated when some item filter given is
   * met by two of its items.
   */
  predicate JoinRepeats(db: Db, o: OrderId, q: OrderQuery) {
    || (q.category.Some? && exists i, j :: i in db.items && j in db.items && i != j && ItemInCategory(db, i, o, q.category.value) && ItemInCategory(db, j, o, q.category.value))
    || (q.product.Some? && exists i, j :: i in db.items && j in db.items && i != j && ItemOfProduct(db, i, o, q.product.value) && ItemOfProduct(db, j, o, q.product.value))
  }

  /** Only the seller's queryset is made `distinct()`; the others keep a repeated row. */
  predicate DistinctRows(p: Principal) {
    p.Authenticated? && p.user.role == Seller
  }

  /** `list` on orders: the permissions, then the scoped and filtered queryset. */
  function OrderIndex(db: Db, p: Principal, q: OrderQuery): Access<set<OrderId>> {
    match CheckPermissions(OrderPermissions(List), p)
    case Fail(e) => Denied(e)
    case Pass => Granted(OrderFilter(db, OrderQueryset(db, p), q))
  }

  /**
   * `get_object` on orders: the permissions for the action, then the key
   * looked up in the scoped queryset narrowed by the filter fields of the
   * query string, as `filter_queryset` applies them on every action. The
   * lookup is a `get`: when the order's row is repeated by an item filter and
   * the queryset is not distinct, it raises MultipleObjectsReturned.
   */
  function OrderObject(db: Db, p: Principal, a: Action, q: OrderQuery, id: OrderId): Access<OrderId> {
    match CheckPermissions(OrderPermissions(a), p)
    case Fail(e) => Denied(e)
    case Pass =>
      if id !in OrderFilter(db, OrderQueryset(db, p), q) then Denied(NotFound)
      else if !DistinctRows(p) && JoinRepeats(db, id, q) then Denied(MultipleObjectsReturned)
      else Granted(id)
  }

  /**
   * A customer's list and lookups show only their own orders, a seller's only
   * orders they sell into: any other order is not found. A lookup finds only
   * an order the query string's filters keep. An admin finds exactly the
   * stored orders those filters keep whose row no item filter repeats, so
   * every stored order when none is given; a repeated row raises for anyone
   * but a seller.
   */
  lemma OrderViewsSound(db: Db, p: Principal, q: OrderQuery, a: Action, id: OrderId)
    ensures var r := OrderIndex(db, p, q);
      r.Granted? && id in r.value ==>
        && id in db.orders
        && (p.user.role == Customer ==> PlacedBy(db, id, p.id))
        && (p.user.role == Seller ==> SellsInto(db, id, p.id))
    ensures var r := OrderObject(db, p, a, q, id);
      r.Granted? ==>
        && r.value == id
        && id in db.orders
        && id in OrderFilter(db, db.orders.Keys, q)
        && (p.user.role == Customer ==> PlacedBy(db, id, p.id))
        && (p.user.role == Seller ==> SellsInto(db, id, p.id))
    ensures CheckPermissions(OrderPermissions(a), p) == Pass && p.user.role == Admin ==>
      (OrderObject(db, p, a, q, id) == Granted(id) <==> id in OrderFilter(db, db.orders.Keys, q) && !JoinRepeats(db, id, q))
    ensures CheckPermissions(OrderPermissions(a), p) == Pass && p.user.role == Seller ==>
      (OrderObject(db, p, a, q, id) == Granted(id) <==> id in OrderFilter(db, OrderQueryset(db, p), q))
    ensures var repeated := id in OrderFilter(db, OrderQueryset(db, p), q) && JoinRepeats(db, id, q);
      CheckPermissions(OrderPermissions(a), p) == Pass && p.user.role != Seller && repeated ==>
        OrderObject(db, p, a, q, id) == Denied(MultipleObjectsReturned)
    ensures CheckPermissions(OrderPermissions(a), p) == Pass && p.user.role == Admin && id in db.orders ==>
      OrderObject(db, p, a, NoOrderQuery, id) == Granted(id)
  {
    if CheckPermissions(OrderPermissions(List), p) == Pass {
      OrderScoping(db, p, id);
    }
    if CheckPermissions(OrderPermissions(a), p) == Pass {
      OrderScoping(db, p, id);
    }
  }

  /**
   * `create` on orders: the permissions, validation of the items, then
   * `perform_create`, which saves with the requesting user as the customer.
   * `payment_status` takes the value sent, or `unpaid` when none is.
   */
  function CreateOrderRequest(db: Db, p: Principal, w: OrderWrite, createdAt: int): Saved {
    match CheckPermissions(OrderPermissions(Create), p)
    case Fail(e) => Saved(db, Fail(e))
    case Pass =>
      match ValidateItems(db, w.items)
      case None => Saved(db, Fail(Invalid))
      case Some(vs) => CreateOrder(db, p.id, createdAt, w.paymentStatus.GetOr(Unpaid), vs)
  }

  /**
   * Only a customer can create an order; the order stored is theirs whatever
   * `customer` or `total_amount` the input carried; it starts `unpaid` unless
   * the input set `payment_status`; and the store keeps its integrity.
   */
  lemma CreateOrderRequestCustomer(db: Db, p: Principal, w: OrderWrite, createdAt: int, claimed: Option<string>, total: Option<int>)
    requires Valid(db) && Current(db, p)
    ensures CreateOrderRequest(db, p, w.(customer := claimed, totalAmount := total), createdAt) == CreateOrderRequest(db, p, w, createdAt)
    ensures !(p.Authenticated? && p.user.role == Customer) ==> CreateOrderRequest(db, p, w, createdAt) == Saved(db, Fail(Refusal(p)))
    ensures var r := CreateOrderRequest(db, p, w, createdAt);
      p.Authenticated? && p.user.role == Customer && ValidateItems(db, w.items).Some? ==>
        && db.nextOrder in r.db.orders
        && r.db.orders[db.nextOrder].customer == p.id
        && r.db.orders[db.nextOrder].createdAt == createdAt
        && r.db.orders[db.nextOrder].paymentStatus == (if w.paymentStatus.None? then Unpaid else w.paymentStatus.value)
        && Valid(r.db)
  {
    OrderAccess(Create, p);
    var w' := w.(customer := claimed, totalAmount := total);
    assert w'.items == w.items && w'.paymentStatus == w.paymentStatus;
    if p.Authenticated? && p.user.role == Customer {
      match ValidateItems(db, w.items)
      case None =>
      case Some(vs) =>
        var status := w.paymentStatus.GetOr(Unpaid);
        CreateOrderStoresOrderFirst(db, p.id, createdAt, status, vs);
        assert ItemsFit(db, vs);
        CreateOrderKeepsValid(db, p.id, createdAt, status, vs);
    }
  }

  /**
   * `mark_paid`: the permissions of the action, the order looked up in the
   * scoped and filtered queryset, then `payment_status` set to `paid` and the
   * order saved.
   */
  function MarkPaid(db: Db, p: Principal, q: OrderQuery, id: OrderId): Saved {
    match OrderObject(db, p, MarkPaidAction, q, id)
    case Denied(e) => Saved(db, Fail(e))
    case Granted(o) => Saved(db.(orders := db.orders[o := db.orders[o].(paymentStatus := Paid)]), Pass)
  }

  /**
   * `mark_paid` succeeds exactly for an admin and a stored order that the
   * query string's filters keep and whose row no item filter repeats (any
   * stored order when no filter is given); it then
   * sets that order's `payment_status` to `paid` and changes no other field,
   * order or table; it refuses anyone else with the store unchanged.
   */
  lemma MarkPaidEffect(db: Db, p: Principal, q: OrderQuery, id: OrderId)
    requires Valid(db)
    ensures var r := MarkPaid(db, p, q, id);
      r.outcome == Pass <==>
        p.Authenticated? && p.user.role == Admin && id in OrderFilter(db, db.orders.Keys, q) && !JoinRepeats(db, id, q)
    ensures p.Authenticated? && p.user.role == Admin && id in db.orders ==> MarkPaid(db, p, NoOrderQuery, id).outcome == Pass
    ensures var r := MarkPaid(db, p, q, id);
      && (r.outcome.Fail? ==> r.db == db)
      && (r.outcome == Pass ==>
            && r.db == db.(orders := r.db.orders)
            && r.db.orders.Keys == db.orders.Keys
            && r.db.orders[id].paymentStatus == Paid
            && r.db.orders[id].customer == db.orders[id].customer
            && r.db.orders[id].createdAt == db.orders[id].createdAt
            && (forall o :: o in db.orders && o != id ==> r.db.orders[o] == db.orders[o])
            && Valid(r.db))
    ensures var r := MarkPaid(db, p, q, id);
      r.outcome.Fail? ==>
        r.outcome.error == (
          if !p.Authenticated? then NotAuthenticated
          else if p.user.role != Admin then PermissionDenied
          else if id !in OrderFilter(db, db.orders.Keys, q) then NotFound
          else MultipleObjectsReturned)
  {
    OrderAccess(MarkPaidAction, p);
    OrderViewsSound(db, p, q, MarkPaidAction, id);
    var r := MarkPaid(db, p, q, id);
    if r.outcome == Pass {
      assert OrdersValid(r.db);
      assert ItemsValid(r.db);
    }
  }

  /**
   * Two items of one order in category `c`: `mark_paid` filtered by `c` raises
   * for an admin, and the order stays as it was.
   */
  lemma RepeatedJoinLeavesOrderUnpaid(db: Db, p: Principal, id: OrderId, i: ItemId, j: ItemId, c: CategoryId)
    requires p.Authenticated? && p.user.role == Admin && id in db.orders
    requires i != j && ItemInCategory(db, i, id, c) && ItemInCategory(db, j, id, c)
    ensures MarkPaid(db, p, NoOrderQuery.(category := Some(c)), id) == Saved(db, Fail(MultipleObjectsReturned))
  {
    OrderAccess(MarkPaidAction, p);
    OrderScoping(db, p, id);
    assert HasItemInCategory(db, id, c);
  }

  /** Marking an order paid twice leaves the store as marking it once does, and the second call succeeds too. */
  lemma MarkPaidIdempotent(db: Db, p: Principal, q: OrderQuery, id: OrderId)
    ensures var r := MarkPaid(db, p, q, id);
      r.outcome == Pass ==> MarkPaid(r.db, p, q, id) == r
  {
    var r := MarkPaid(db, p, q, id);
    if r.outcome == Pass {
      StatusKeepsLookup(db, p, MarkPaidAction, q, id, Paid);
      assert r.db.orders[id := r.db.orders[id].(paymentStatus := Paid)] == r.db.orders;
    }
  }

  /** Setting a stored order's `payment_status` does not change how that order is looked up. */
  lemma StatusKeepsLookup(db: Db, p: Principal, a: Action, q: OrderQuery, id: OrderId, status: PaymentStatus)
    requires id in db.orders
    ensures var d := db.(orders := db.orders[id := db.orders[id].(paymentStatus := status)]);
      OrderObject(d, p, a, q, id) == OrderObject(db, p, a, q, id)
  {
    var d := db.(orders := db.orders[id := db.orders[id].(paymentStatus := status)]);
    assert id in OrderQueryset(d, p) <==> id in OrderQueryset(db, p);
    assert id in OrderFilter(d, OrderQueryset(d, p), q) <==> id in OrderFilter(db, OrderQueryset(db, p), q);
    JoinRepeatsOnItems(d, db, id, q);
  }

  /** Whether an item filter repeats an order's row depends only on the items and the products. */
  lemma JoinRepeatsOnItems(a: Db, b: Db, o: OrderId, q: OrderQuery)
    requires a.items == b.items && a.products == b.products
    ensures JoinRepeats(a, o, q) == JoinRepeats(b, o, q)
  {
    assert forall i, c :: ItemInCategory(a, i, o, c) == ItemInCategory(b, i, o, c);
    assert forall i, pid :: ItemOfProduct(a, i, o, pid) == ItemOfProduct(b, i, o, pid);
  }

  // ---------------------------------------------------------------------------
  // CategoryViewSet

  /** `CategoryViewSet`: one composed permission, authenticated and admin, for every action. */
  function CategoryAccess(p: Principal): Outcome {
    if HasPermission(IsAuthenticated, p) && HasPermission(IsAdmin, p) then Pass else Fail(Refusal(p))
  }

  /** Every category action requires an authenticated admin; anonymous requests are not authenticated, other users denied. */
  lemma CategoryAdminOnly(p: Principal)
    ensures CategoryAccess(p) == Pass <==> p.Authenticated? && p.user.role == Admin
    ensures p.Anonymous? ==> CategoryAccess(p) == Fail(NotAuthenticated)
    ensures p.Authenticated? && p.user.role != Admin ==> CategoryAccess(p) == Fail(PermissionDenied)
  {
    RoleChecksExact(p);
  }
}
