/**
 * The imperative side of the shop: a `Database` object whose fields are the
 * tables and their next keys, and whose methods are the operations that write
 * to it step by step (`OrderItem.save`, `UserSerializer.create`, the loop of
 * `OrderSerializer.create`, the two `perform_create` hooks, `mark_paid` and
 * the `seed` command). Each method ends in exactly the state, and with
 * exactly the outcome, of the function that specifies it over a `Db` value.
 */
module Store {
  import opened Models
  import opened Permissions
  import opened Serializers
  import Views
  import Seed

  class Database {
    var users: map<UserId, User>
    var nextUser: nat
    var categories: map<CategoryId, Category>
    var nextCategory: nat
    var products: map<ProductId, Product>
    var nextProduct: nat
    var orders: map<OrderId, Order>
    var nextOrder: nat
    var items: map<ItemId, OrderItem>
    var nextItem: nat

    /** The tables as a value. */
    function Snapshot(): Db
      reads this
    {
      Db(users, nextUser, categories, nextCategory, products, nextProduct, orders, nextOrder, items, nextItem)
    }

    /** A freshly migrated database. */
    constructor ()
      ensures Snapshot() == EmptyDb
    {
      users, nextUser := map[], 1;
      categories, nextCategory := map[], 1;
      products, nextProduct := map[], 1;
      orders, nextOrder := map[], 1;
      items, nextItem := map[], 1;
    }

    /**
     * `OrderItem.save`: for a new item, the stock check against the held
     * product object, its decrement, the product saved, then the item row
     * inserted; an item with a key is only written back.
     */
    method SaveItem(it: ItemInstance) returns (outcome: Outcome)
      modifies this
      ensures Saved(Snapshot(), outcome) == Models.SaveItem(old(Snapshot()), it)
    {
      if it.pk.Some? {
        items := items[it.pk.value := Row(it)];
        return Pass;
      }
      if it.quantity > it.product.stock {
        return Fail(InsufficientStock);
      }
      var held := it.product.(stock := it.product.stock - it.quantity);
      products := products[it.productId := held];
      items := items[nextItem := Row(it)];
      nextItem := nextItem + 1;
      return Pass;
    }

    /**
     * `OrderSerializer.create`: the order row, then one saved item per
     * validated item in input order, stopping at the first save that raises.
     * Nothing is rolled back.
     */
    method CreateOrder(customer: UserId, createdAt: int, status: PaymentStatus, vs: seq<ValidatedItem>) returns (outcome: Outcome)
      modifies this
      ensures Saved(Snapshot(), outcome) == Serializers.CreateOrder(old(Snapshot()), customer, createdAt, status, vs)
    {
      var order := nextOrder;
      orders := orders[order := Order(customer, createdAt, status)];
      nextOrder := nextOrder + 1;
      ghost var start := Snapshot();
      assert start == AddOrder(old(Snapshot()), customer, createdAt, status);
      var k := 0;
      outcome := Pass;
      while k < |vs|
        invariant 0 <= k <= |vs|
        invariant outcome == Pass
        invariant CreateItems(start, order, vs[..k]) == Saved(Snapshot(), Pass)
      {
        outcome := SaveItem(Instance(order, vs[k]));
        assert vs[..k + 1][..k] == vs[..k] && vs[..k + 1][k] == vs[k];
        assert CreateItems(start, order, vs[..k + 1]) == Saved(Snapshot(), outcome);
        if outcome.Fail? {
          CreateItemsFailureSticks(start, order, vs, k + 1);
          return;
        }
        k := k + 1;
      }
      assert vs[..k] == vs;
    }

    /**
     * `RegisterView` with `UserSerializer.create`: validation, then the user
     * built from its username, email and role, its password set, and the row
     * saved.
     */
    method Register(reg: Registration) returns (outcome: Outcome)
      modifies this
      ensures Saved(Snapshot(), outcome) == Serializers.Register(old(Snapshot()), reg)
      ensures Valid(old(Snapshot())) ==> Valid(Snapshot())
    {
      if Valid(Snapshot()) {
        RegisterKeepsValid(Snapshot(), reg);
      }
      var username := Trim(reg.username);
      var password := Trim(reg.password);
      if !RegistrationFieldsValid(reg) {
        return Fail(Invalid);
      }
      if exists u :: u in users && users[u].username == username {
        return Fail(Invalid);
      }
      if reg.email.None? {
        return Fail(Integrity);
      }
      ghost var before := Snapshot();
      var user := User(username, Trim(reg.email.value), ParseRole(reg.role).value, NoPassword);
      user := user.(password := PasswordOf(password));
      users := users[nextUser := user];
      nextUser := nextUser + 1;
      assert Snapshot() == Serializers.Register(before, reg).db;
      return Pass;
    }

    /** `create` on products, ending in `perform_create`, which saves with the requesting user as seller. */
    method CreateProduct(p: Principal, w: ProductWrite) returns (outcome: Outcome)
      modifies this
      ensures Saved(Snapshot(), outcome) == Views.CreateProduct(old(Snapshot()), p, w)
      ensures Valid(old(Snapshot())) && Views.Current(old(Snapshot()), p) ==> Valid(Snapshot())
    {
      if Valid(Snapshot()) && Views.Current(Snapshot(), p) {
        Views.CreateProductSeller(Snapshot(), p, w, w.seller);
      }
      var allowed := Views.CheckPermissions(Views.ProductPermissions(p), p);
      if allowed.Fail? {
        return allowed;
      }
      if !ProductWriteValid(Snapshot(), w) {
        return Fail(Invalid);
      }
      products := products[nextProduct := ProductFrom(w, p.id)];
      nextProduct := nextProduct + 1;
      return Pass;
    }

    /** `create` on orders: permissions, item validation, then `perform_create` with the requesting user as customer. */
    method CreateOrderRequest(p: Principal, w: OrderWrite, createdAt: int) returns (outcome: Outcome)
      modifies this
      ensures Saved(Snapshot(), outcome) == Views.CreateOrderRequest(old(Snapshot()), p, w, createdAt)
      ensures Valid(old(Snapshot())) && Views.Current(old(Snapshot()), p) ==> Valid(Snapshot())
    {
      if Valid(Snapshot()) && Views.Current(Snapshot(), p) {
        Views.CreateOrderRequestCustomer(Snapshot(), p, w, createdAt, w.customer, w.totalAmount);
      }
      Views.OrderAccess(Views.Create, p);
      var allowed := Views.CheckPermissions(Views.OrderPermissions(Views.Create), p);
      if allowed.Fail? {
        return allowed;
      }
      var vs := ValidateItems(Snapshot(), w.items);
      if vs.None? {
        return Fail(Invalid);
      }
      outcome := CreateOrder(p.id, createdAt, w.paymentStatus.GetOr(Unpaid), vs.value);
    }

    /** `mark_paid`: the order got through the scoped and filtered queryset, its status set to paid, and the order saved. */
    method MarkPaid(p: Principal, q: Views.OrderQuery, id: OrderId) returns (outcome: Outcome)
      modifies this
      ensures Saved(Snapshot(), outcome) == Views.MarkPaid(old(Snapshot()), p, q, id)
      ensures Valid(old(Snapshot())) ==> Valid(Snapshot())
    {
      if Valid(Snapshot()) {
        Views.MarkPaidEffect(Snapshot(), p, q, id);
      }
      var found := Views.OrderObject(Snapshot(), p, Views.MarkPaidAction, q, id);
      if found.Denied? {
        return Fail(found.error);
      }
      var order := orders[found.value];
      order := order.(paymentStatus := Paid);
      orders := orders[found.value := order];
      return Pass;
    }

    /** `User.objects.get_or_create`; a created user then has its password set and is saved again. */
    method GetOrCreateUser(u: Seed.UserSeed) returns (outcome: Outcome, key: nat)
      modifies this
      ensures Seed.Got(Snapshot(), outcome, key) == Seed.GetOrCreateUser(old(Snapshot()), u)
    {
      match Seed.FindUser(Snapshot(), u.username)
      case Found(k) =>
        outcome, key := Pass, k;
      case Multiple =>
        outcome, key := Fail(MultipleObjectsReturned), 0;
      case Missing =>
        var user := User(u.username, u.email, u.role, NoPassword);
        key := nextUser;
        users := users[key := user];
        nextUser := nextUser + 1;
        user := user.(password := PasswordOf(u.password));
        users := users[key := user];
        outcome := Pass;
    }

    /** `Category.objects.get_or_create(name=...)`. */
    method GetOrCreateCategory(name: string) returns (outcome: Outcome, key: nat)
      modifies this
      ensures Seed.Got(Snapshot(), outcome, key) == Seed.GetOrCreateCategory(old(Snapshot()), name)
    {
      match Seed.FindCategory(Snapshot(), name)
      case Found(k) =>
        outcome, key := Pass, k;
      case Multiple =>
        outcome, key := Fail(MultipleObjectsReturned), 0;
      case Missing =>
        key := nextCategory;
        categories := categories[key := Category(name)];
        nextCategory := nextCategory + 1;
        outcome := Pass;
    }

    /** `Product.objects.get_or_create(name=..., defaults=...)`, with the defaults given as a whole row. */
    method GetOrCreateProduct(row: Product) returns (outcome: Outcome, key: nat)
      modifies this
      ensures Seed.Got(Snapshot(), outcome, key) == Seed.GetOrCreateProduct(old(Snapshot()), row)
    {
      match Seed.FindProduct(Snapshot(), row.name)
      case Found(k) =>
        outcome, key := Pass, k;
      case Multiple =>
        outcome, key := Fail(MultipleObjectsReturned), 0;
      case Missing =>
        key := nextProduct;
        products := products[key := row];
        nextProduct := nextProduct + 1;
        outcome := Pass;
    }

    /** The users loop of the command: each entry got or created in turn, the keys got kept in order. */
    method SeedUserLoop() returns (outcome: Outcome, keys: seq<UserId>)
      modifies this
      ensures Seed.Batch(Snapshot(), outcome, keys) == Seed.SeedUserList(old(Snapshot()), Seed.SeedUsers)
    {
      ghost var db0 := Snapshot();
      keys := [];
      var n := 0;
      while n < |Seed.SeedUsers|
        invariant 0 <= n <= |Seed.SeedUsers|
        invariant Seed.SeedUserList(db0, Seed.SeedUsers[..n]) == Seed.Batch(Snapshot(), Pass, keys)
      {
        ghost var before := Snapshot();
        var o, k := GetOrCreateUser(Seed.SeedUsers[n]);
        Seed.SeedUserListStep(db0, Seed.SeedUsers, n, before, keys);
        if o.Fail? {
          Seed.SeedUserListFailureSticks(db0, Seed.SeedUsers, n + 1);
          return o, keys;
        }
        keys := keys + [k];
        n := n + 1;
      }
      assert Seed.SeedUsers[..n] == Seed.SeedUsers;
      return Pass, keys;
    }

    /** The categories loop of the command, over the names it is given. */
    method SeedCategoryLoop(names: seq<string>) returns (outcome: Outcome, keys: seq<CategoryId>)
      modifies this
      ensures Seed.Batch(Snapshot(), outcome, keys) == Seed.SeedCategoryList(old(Snapshot()), names)
    {
      ghost var db0 := Snapshot();
      keys := [];
      var n := 0;
      while n < |names|
        invariant 0 <= n <= |names|
        invariant Seed.SeedCategoryList(db0, names[..n]) == Seed.Batch(Snapshot(), Pass, keys)
      {
        ghost var before := Snapshot();
        var o, k := GetOrCreateCategory(names[n]);
        Seed.SeedCategoryListStep(db0, names, n, before, keys);
        if o.Fail? {
          Seed.SeedCategoryListFailureSticks(db0, names, n + 1);
          return o, keys;
        }
        keys := keys + [k];
        n := n + 1;
      }
      assert names[..n] == names;
      return Pass, keys;
    }

    /** The list of sellers: the users got whose role is `seller`, in order. */
    method SellersOf(keys: seq<UserId>) returns (sellers: seq<UserId>)
      ensures sellers == Seed.SellersAmong(users, keys)
    {
      sellers := [];
      var n := 0;
      while n < |keys|
        invariant 0 <= n <= |keys|
        invariant sellers == Seed.SellersAmong(users, keys[..n])
      {
        var u := keys[n];
        if u in users && RoleLiteral(users[u].role) == "seller" {
          sellers := sellers + [u];
        }
        assert keys[..n + 1][..n] == keys[..n] && keys[..n + 1][n] == u;
        n := n + 1;
      }
      assert keys[..n] == keys;
    }

    /** One get-or-create of the products loop, on the store the rows before it left. */
    method SeedProductStep(ghost db0: Db, ghost rows: seq<Product>, m: nat, row: Product) returns (outcome: Outcome)
      requires m < |rows| && rows[m] == row
      requires Seed.SeedProductList(db0, rows[..m]) == Saved(Snapshot(), Pass)
      modifies this
      ensures Seed.SeedProductList(db0, rows[..m + 1]) == Saved(Snapshot(), outcome)
      ensures outcome.Fail? ==> Seed.SeedProductList(db0, rows) == Saved(Snapshot(), outcome)
      ensures categories == old(categories)
    {
      ghost var before := Snapshot();
      var k;
      outcome, k := GetOrCreateProduct(row);
      Seed.SeedProductListStep(db0, rows, m, before);
      if outcome.Fail? {
        Seed.SeedProductListFailureSticks(db0, rows, m + 1);
      }
    }

    /**
     * The nested products loop: for each category got (1-based `idx`) the
     * products of that category are got or created. The categories passed
     * are the ones the categories loop got, so each holds its seed name.
     */
    method SeedProductLoop(cats: seq<CategoryId>, sellers: seq<UserId>) returns (outcome: Outcome)
      requires |cats| == |Seed.SeedCategories| && |sellers| > 0
      requires forall c :: 0 <= c < |cats| ==> cats[c] in categories && categories[cats[c]].name == Seed.SeedCategories[c]
      modifies this
      ensures Saved(Snapshot(), outcome) == Seed.SeedProductList(old(Snapshot()), Seed.ProductRows(cats, sellers))
    {
      ghost var db0 := Snapshot();
      ghost var rows := Seed.ProductRows(cats, sellers);
      var idx := 1;
      while idx <= |cats|
        invariant 1 <= idx <= |cats| + 1
        invariant categories == db0.categories
        invariant Seed.SeedProductList(db0, rows[..2 * (idx - 1)]) == Saved(Snapshot(), Pass)
      {
        outcome := SeedCategoryProducts(db0, cats, sellers, idx);
        if outcome.Fail? {
          return;
        }
        idx := idx + 1;
      }
      assert rows[..2 * |cats|] == rows;
      return Pass;
    }

    /**
     * The inner products loop for the category at 1-based `idx`: for each
     * slot `i` the running count goes up, the name is the category's name,
     * " Item " and the slot, and the product is got or created with the
     * count's defaults.
     */
    method SeedCategoryProducts(ghost db0: Db, cats: seq<CategoryId>, sellers: seq<UserId>, idx: nat) returns (outcome: Outcome)
      requires |cats| == |Seed.SeedCategories| && |sellers| > 0 && 1 <= idx <= |cats|
      requires forall c :: 0 <= c < |cats| ==> cats[c] in categories && categories[cats[c]].name == Seed.SeedCategories[c]
      requires Seed.SeedProductList(db0, Seed.ProductRows(cats, sellers)[..2 * (idx - 1)]) == Saved(Snapshot(), Pass)
      modifies this
      ensures categories == old(categories)
      ensures outcome == Pass ==> Seed.SeedProductList(db0, Seed.ProductRows(cats, sellers)[..2 * idx]) == Saved(Snapshot(), Pass)
      ensures outcome.Fail? ==> Seed.SeedProductList(db0, Seed.ProductRows(cats, sellers)) == Saved(Snapshot(), outcome)
    {
      ghost var rows := Seed.ProductRows(cats, sellers);
      var prodCount := 2 * (idx - 1);
      var i := 0;
      outcome := Pass;
      while i < 2
        invariant 0 <= i <= 2
        invariant prodCount == 2 * (idx - 1) + i
        invariant outcome == Pass
        invariant categories == old(categories)
        invariant Seed.SeedProductList(db0, rows[..prodCount]) == Saved(Snapshot(), Pass)
      {
        prodCount := prodCount + 1;
        outcome := SeedProductSlot(db0, cats, sellers, idx, i, prodCount);
        if outcome.Fail? {
          return;
        }
        i := i + 1;
      }
    }

    /**
     * One slot `i` of the inner products loop, with the running count already
     * raised to `count`: the name is the category's name, " Item " and the
     * slot, and the product is got or created with the count's defaults.
     */
    method SeedProductSlot(ghost db0: Db, cats: seq<CategoryId>, sellers: seq<UserId>, idx: nat, i: nat, count: nat) returns (outcome: Outcome)
      requires |cats| == |Seed.SeedCategories| && |sellers| > 0 && 1 <= idx <= |cats| && i < 2
      requires count == 2 * (idx - 1) + i + 1
      requires cats[idx - 1] in categories && categories[cats[idx - 1]].name == Seed.SeedCategories[idx - 1]
      requires Seed.SeedProductList(db0, Seed.ProductRows(cats, sellers)[..count - 1]) == Saved(Snapshot(), Pass)
      modifies this
      ensures Seed.SeedProductList(db0, Seed.ProductRows(cats, sellers)[..count]) == Saved(Snapshot(), outcome)
      ensures outcome.Fail? ==> Seed.SeedProductList(db0, Seed.ProductRows(cats, sellers)) == Saved(Snapshot(), outcome)
      ensures categories == old(categories)
    {
      var cat := cats[idx - 1];
      var name := categories[cat].name + " Item " + (if i == 0 then "1" else "2");
      var row := Product(sellers[(idx + i) % |sellers|], cat, name, "Sample " + name, 1000 * count, 50 + count * 5);
      assert row == Seed.ProductRows(cats, sellers)[count - 1] by {
        Seed.ProductRowAt(cats, sellers, idx, i);
      }
      outcome := SeedProductStep(db0, Seed.ProductRows(cats, sellers), count - 1, row);
    }

    /**
     * `Command.handle` of `seed`: the users loop, the categories loop, the
     * sellers among the users got, and, when there is one, the products loop.
     * A lookup that matches several rows raises and ends the command. A valid
     * store stays valid.
     */
    method Handle() returns (outcome: Outcome)
      modifies this
      ensures Saved(Snapshot(), outcome) == Seed.Handle(old(Snapshot()))
      ensures Valid(old(Snapshot())) ==> Valid(Snapshot())
    {
      ghost var db0 := Snapshot();
      if Valid(db0) {
        Seed.HandleKeepsValid(db0);
      }
      var userKeys;
      outcome, userKeys := SeedUserLoop();
      if outcome.Fail? {
        return;
      }
      var catKeys;
      outcome, catKeys := SeedCategoryLoop(Seed.SeedCategories);
      if outcome.Fail? {
        return;
      }
      var sellers := SellersOf(userKeys);
      if sellers == [] {
        return Pass;
      }
      Seed.HandleFirstPhases(db0);
      forall c | 0 <= c < |catKeys|
        ensures catKeys[c] in categories && categories[catKeys[c]].name == Seed.SeedCategories[c]
      {
        Seed.FoundCategoryIsStored(Snapshot(), Seed.SeedCategories[c]);
      }
      outcome := SeedProductLoop(catKeys, sellers);
    }
  }
}
