/**
 * The serializers: which fields each resource shows and accepts, user
 * registration (`UserSerializer.create`) and order creation
 * (`OrderSerializer.create`), which stores the order and then each item
 * through `OrderItem.save`, in input order, with no transaction around them.
 */
module Serializers {
  import opened Models

  // ---------------------------------------------------------------------------
  // CharField input: `trim_whitespace` is on by default, so every character
  // field is stripped before the blank check, its validators and storage.

  /** The characters Python's `str.strip` removes: those for which `str.isspace` holds. */
  predicate IsSpace(c: char) {
    || c == ' ' || '\t' <= c <= '\r' || '\U{1C}' <= c <= '\U{1F}' || c == '\U{85}' || c == '\U{A0}'
    || c == '\U{1680}' || '\U{2000}' <= c <= '\U{200A}' || c == '\U{2028}' || c == '\U{2029}'
    || c == '\U{202F}' || c == '\U{205F}' || c == '\U{3000}'
  }

  /** `s` without its leading whitespace. */
  function TrimStart(s: string): string
    decreases |s|
  {
    if s != [] && IsSpace(s[0]) then TrimStart(s[1..]) else s
  }

  /** `s` without its trailing whitespace. */
  function TrimEnd(s: string): string
    decreases |s|
  {
    if s != [] && IsSpace(s[|s| - 1]) then TrimEnd(s[..|s| - 1]) else s
  }

  /** `str.strip`: `s` without its leading and trailing whitespace. */
  function Trim(s: string): string {
    TrimEnd(TrimStart(s))
  }

  /** `r` is the piece of `s` at offset `i`, and everything of `s` around it is whitespace. */
  predicate PaddedAt(s: string, r: string, i: nat) {
    && i + |r| <= |s| && s[i..i + |r|] == r
    && (forall k :: 0 <= k < i ==> IsSpace(s[k]))
    && (forall k :: i + |r| <= k < |s| ==> IsSpace(s[k]))
  }

  /** Only leading whitespace is cut, and what is left does not start with whitespace. */
  lemma {:induction false} TrimStartLaws(s: string)
    ensures |TrimStart(s)| <= |s|
    ensures PaddedAt(s, TrimStart(s), |s| - |TrimStart(s)|)
    ensures TrimStart(s) == [] || !IsSpace(TrimStart(s)[0])
    decreases |s|
  {
    if s != [] && IsSpace(s[0]) {
      TrimStartLaws(s[1..]);
      var r := TrimStart(s);
      assert s[|s| - |r|..] == s[1..][|s| - 1 - |r|..];
      forall k | 1 <= k < |s| - |r|
        ensures IsSpace(s[k])
      {
        assert s[k] == s[1..][k - 1];
      }
    }
  }

  /** Only trailing whitespace is cut, and what is left does not end with whitespace. */
  lemma {:induction false} TrimEndLaws(s: string)
    ensures PaddedAt(s, TrimEnd(s), 0)
    ensures TrimEnd(s) == [] || !IsSpace(TrimEnd(s)[|TrimEnd(s)| - 1])
    decreases |s|
  {
    if s != [] && IsSpace(s[|s| - 1]) {
      TrimEndLaws(s[..|s| - 1]);
      var r := TrimEnd(s);
      assert s[..|r|] == s[..|s| - 1][..|r|];
      forall k | |r| <= k < |s| - 1
        ensures IsSpace(s[k])
      {
        assert s[k] == s[..|s| - 1][k];
      }
    }
  }

  /**
   * The stripped value is the piece of `s` left once the whitespace at both
   * ends is cut: it neither starts nor ends with whitespace, it is empty
   * exactly when `s` is all whitespace, and stripping it again changes nothing.
   */
  lemma TrimLaws(s: string)
    ensures exists i: nat :: PaddedAt(s, Trim(s), i)
    ensures Trim(s) != [] ==> !IsSpace(Trim(s)[0]) && !IsSpace(Trim(s)[|Trim(s)| - 1])
    ensures Trim(s) == [] <==> forall k :: 0 <= k < |s| ==> IsSpace(s[k])
    ensures Trim(Trim(s)) == Trim(s)
  {
    var t := TrimStart(s);
    var r := TrimEnd(t);
    TrimStartLaws(s);
    TrimEndLaws(t);
    var i: nat := |s| - |t|;
    assert s[i..] == t;
    assert s[i..i + |r|] == r by {
      assert t[..|r|] == r;
    }
    forall k | i + |r| <= k < |s|
      ensures IsSpace(s[k])
    {
      assert s[k] == t[k - i];
    }
    assert Trim(s) == r && PaddedAt(s, Trim(s), i);
    if r != [] {
      assert r[0] == t[0];
      assert !IsSpace(r[0]);
    }
  }

  // ---------------------------------------------------------------------------
  // UserSerializer

  /** The user output: `password` is write-only, so the output has no field for it. */
  datatype UserOut = UserOut(id: UserId, username: string, email: string, role: Role)

  function UserOutput(db: Db, id: UserId): UserOut
    requires id in db.users
  {
    var u := db.users[id];
    UserOut(id, u.username, u.email, u.role)
  }

  /** The user output shows the stored id, username, email and role, and does not depend on the password at all. */
  lemma UserOutputOmitsPassword(db: Db, id: UserId, pw: Password)
    requires id in db.users
    ensures UserOutput(db, id) == UserOut(id, db.users[id].username, db.users[id].email, db.users[id].role)
    ensures UserOutput(db.(users := db.users[id := db.users[id].(password := pw)]), id) == UserOutput(db, id)
  {
  }

  /**
   * The registration input. `email` is optional in the serializer; `role` is
   * the raw string the client sent.
   */
  datatype Registration = Registration(username: string, email: Option<string>, password: string, role: string)

  /**
   * The validator every character field carries, `ProhibitNullCharactersValidator`:
   * the value, once stripped, must hold no NUL character.
   */
  predicate NoNullCharacter(s: string) {
    '\0' !in s
  }

  /**
   * The field checks of registration on the stripped values: the username and
   * the password are not blank, none of username, password and email holds a
   * NUL character, and the role is a choice.
   */
  predicate RegistrationFieldsValid(reg: Registration) {
    && Trim(reg.username) != "" && Trim(reg.password) != ""
    && NoNullCharacter(Trim(reg.username)) && NoNullCharacter(Trim(reg.password))
    && (reg.email.Some? ==> NoNullCharacter(Trim(reg.email.value)))
    && ParseRole(reg.role).Some?
  }

  /**
   * Field validation and `UserSerializer.create`. The username, the password
   * and the email are stripped; the stripped username and password must not be
   * blank, none of the three may hold a NUL character, the role must be a
   * choice and the username must be unused. On
   * success the user row is built from the username, the email and the role,
   * `set_password` records the password, and the row is saved. When no email
   * was sent, `validated.get('email')` is None and the save fails on the
   * column's NOT NULL constraint.
   */
  function Register(db: Db, reg: Registration): Saved {
    var username := Trim(reg.username);
    var password := Trim(reg.password);
    if !RegistrationFieldsValid(reg) then Saved(db, Fail(Invalid))
    else if exists u :: u in db.users && db.users[u].username == username then Saved(db, Fail(Invalid))
    else if reg.email.None? then Saved(db, Fail(Integrity))
    else
      var user := User(username, Trim(reg.email.value), ParseRole(reg.role).value, PasswordOf(password));
      Saved(db.(users := db.users[db.nextUser := user], nextUser := db.nextUser + 1), Pass)
  }

  /**
   * Registration succeeds exactly for a username that is fresh and not blank
   * once stripped, a password not blank once stripped, an email, none of the
   * three holding a NUL character, and a role literal; it then stores one new user, and nothing else, with the stripped
   * username, email and password and the given role, and shows them back
   * without the password. On failure nothing is stored.
   */
  lemma RegisterStoresGivenFields(db: Db, reg: Registration)
    requires Valid(db)
    ensures var r := Register(db, reg);
      r.outcome == Pass <==>
        && Trim(reg.username) != "" && Trim(reg.password) != "" && ParseRole(reg.role).Some? && reg.email.Some?
        && NoNullCharacter(Trim(reg.username)) && NoNullCharacter(Trim(reg.password)) && NoNullCharacter(Trim(reg.email.value))
        && (forall u :: u in db.users ==> db.users[u].username != Trim(reg.username))
    ensures var r := Register(db, reg); r.outcome.Fail? ==> r.db == db
    ensures var r := Register(db, reg);
      r.outcome == Pass ==>
        && r.db == db.(users := r.db.users, nextUser := db.nextUser + 1)
        && r.db.users == db.users[db.nextUser := r.db.users[db.nextUser]]
        && db.nextUser !in db.users
        && r.db.users[db.nextUser].password == PasswordOf(Trim(reg.password))
        && RoleLiteral(r.db.users[db.nextUser].role) == reg.role
        && UserOutput(r.db, db.nextUser) == UserOut(db.nextUser, Trim(reg.username), Trim(reg.email.value), r.db.users[db.nextUser].role)
        && Valid(r.db)
  {
    var r := Register(db, reg);
    if r.outcome == Pass {
      ParseRoleRoundTrip(Admin, reg.role);
      assert UsersValid(r.db);
      assert ProductsValid(r.db) && OrdersValid(r.db);
    }
  }

  /** Registration keeps the store's integrity, whether or not it succeeds. */
  lemma RegisterKeepsValid(db: Db, reg: Registration)
    requires Valid(db)
    ensures Valid(Register(db, reg).db)
  {
    var r := Register(db, reg);
    if r.outcome == Pass {
      assert UsersValid(r.db);
      assert ProductsValid(r.db) && OrdersValid(r.db);
    }
  }

  /** A username that differs from a stored one only by surrounding spaces is taken, and a blank password is refused. */
  lemma PaddedUsernameTaken(db: Db, u: UserId, email: Option<string>, role: string)
    requires u in db.users && db.users[u].username == "bob"
    ensures Register(db, Registration(" bob ", email, "pass1234", role)) == Saved(db, Fail(Invalid))
    ensures Register(db, Registration("alice", email, "   ", role)) == Saved(db, Fail(Invalid))
  {
    assert TrimStart(" bob ") == TrimStart("bob ") == "bob ";
    assert TrimEnd("bob ") == TrimEnd("bob") == "bob";
    assert TrimStart("   ") == TrimStart("  ") == TrimStart(" ") == TrimStart("") == "";
  }

  /** A password holding a NUL character is refused, with nothing stored. */
  lemma NullPasswordRefused(db: Db, reg: Registration)
    requires reg.password == "pass\01234"
    ensures Register(db, reg) == Saved(db, Fail(Invalid))
  {
    assert Trim(reg.password) == reg.password by {
      assert TrimStart(reg.password) == reg.password;
      assert !IsSpace(reg.password[|reg.password| - 1]);
    }
    assert reg.password[4] == '\0';
  }

  // ---------------------------------------------------------------------------
  // ProductSerializer

  /** The product output: `seller` is the seller's username, a read-only field. */
  datatype ProductOut = ProductOut(
    id: ProductId,
    seller: string,
    category: CategoryId,
    name: string,
    description: string,
    price: int,
    stock: int)

  function ProductOutput(db: Db, id: ProductId): ProductOut
    requires Valid(db) && id in db.products
  {
    var p := db.products[id];
    ProductOut(id, db.users[p.seller].username, p.category, p.name, p.description, p.price, p.stock)
  }

  /**
   * The product input. A `seller` the client sends is read-only and dropped by
   * validation; `price` is in cents and `stock` as sent.
   */
  datatype ProductWrite = ProductWrite(
    seller: Option<string>,
    category: CategoryId,
    name: string,
    description: string,
    price: int,
    stock: int)

  /**
   * Field validation of a product input: the category must exist, the name,
   * once stripped, must be non-blank and at most 200 characters, neither the
   * stripped name nor the stripped description may hold a NUL character, the price must
   * fit its decimal column and the stock its positive integer column.
   */
  predicate ProductWriteValid(db: Db, w: ProductWrite) {
    && w.category in db.categories
    && Trim(w.name) != "" && |Trim(w.name)| <= 200
    && NoNullCharacter(Trim(w.name)) && NoNullCharacter(Trim(w.description))
    && PriceFits(w.price)
    && 0 <= w.stock <= MaxPositiveInt
  }

  /** A product name made only of whitespace is blank once stripped, so the input is refused. */
  lemma BlankProductNameRefused(db: Db, w: ProductWrite)
    requires w.name == "   "
    ensures !ProductWriteValid(db, w)
  {
    assert TrimStart("   ") == TrimStart("  ") == TrimStart(" ") == TrimStart("") == "";
  }

  /** A product description holding a NUL character is refused. */
  lemma NullDescriptionRefused(db: Db, w: ProductWrite)
    requires w.description == "a\0b"
    ensures !ProductWriteValid(db, w)
  {
    assert Trim(w.description) == w.description by {
      assert TrimStart(w.description) == w.description;
      assert !IsSpace(w.description[2]);
    }
    assert w.description[1] == '\0';
  }

  /**
   * The product row a validated input describes, sold by `seller`, with the
   * name and description stripped; the input's own `seller` takes no part.
   */
  function ProductFrom(w: ProductWrite, seller: UserId): Product {
    Product(seller, w.category, Trim(w.name), Trim(w.description), w.price, w.stock)
  }

  // ---------------------------------------------------------------------------
  // OrderItemSerializer and OrderSerializer

  /** An item of the order input. `product_detail` and `total_price` are read-only and dropped. */
  datatype ItemWrite = ItemWrite(product: ProductId, quantity: int)

  /**
   * The order input. `customer` and `total_amount` are read-only and dropped;
   * `created_at` is set on insert. `payment_status` is an ordinary writable
   * field with a default, so the client may send it.
   */
  datatype OrderWrite = OrderWrite(
    customer: Option<string>,
    paymentStatus: Option<PaymentStatus>,
    items: seq<ItemWrite>,
    totalAmount: Option<int>)

  /** A validated item: the key, the `Product` object loaded for it during validation, and the quantity. */
  datatype ValidatedItem = ValidatedItem(productId: ProductId, product: Product, quantity: nat)

  predicate ItemWriteValid(db: Db, w: ItemWrite) {
    w.product in db.products && 0 <= w.quantity <= MaxPositiveInt
  }

  /**
   * Validation of the item list: each product key must name a stored product,
   * which is loaded then, and each quantity must fit its positive integer column.
   */
  function ValidateItems(db: Db, ws: seq<ItemWrite>): (r: Option<seq<ValidatedItem>>)
    ensures r.Some? <==> forall k :: 0 <= k < |ws| ==> ItemWriteValid(db, ws[k])
    ensures r.Some? ==> |r.value| == |ws|
    ensures r.Some? ==> forall k :: 0 <= k < |ws| ==>
      r.value[k] == ValidatedItem(ws[k].product, db.products[ws[k].product], ws[k].quantity)
  {
    if ws == [] then Some([])
    else if !ItemWriteValid(db, ws[0]) then None
    else
      match ValidateItems(db, ws[1..])
      case None => None
      case Some(rest) => Some([ValidatedItem(ws[0].product, db.products[ws[0].product], ws[0].quantity)] + rest)
  }

  /** The `OrderItem` instance built for a validated item of `order`. */
  function Instance(order: OrderId, v: ValidatedItem): ItemInstance {
    ItemInstance(None, order, v.productId, v.product, v.quantity)
  }

  /** Whether an item's quantity is within the stock of the product object it holds. */
  predicate Covered(v: ValidatedItem) {
    v.quantity <= v.product.stock
  }

  /**
   * The loop of `OrderSerializer.create`: each item is saved in input order;
   * the first save that raises stops the loop, and what was saved before it
   * stays saved.
   */
  function CreateItems(db: Db, order: OrderId, vs: seq<ValidatedItem>): Saved
    decreases |vs|
  {
    if vs == [] then Saved(db, Pass)
    else
      var prev := CreateItems(db, order, vs[..|vs| - 1]);
      if prev.outcome.Fail? then prev else SaveItem(prev.db, Instance(order, vs[|vs| - 1]))
  }

  /** `Order.objects.create`: the order row under the next key. */
  function AddOrder(db: Db, customer: UserId, createdAt: int, status: PaymentStatus): Db {
    db.(orders := db.orders[db.nextOrder := Order(customer, createdAt, status)], nextOrder := db.nextOrder + 1)
  }

  /** `OrderSerializer.create`: the order first, then its items. */
  function CreateOrder(db: Db, customer: UserId, createdAt: int, status: PaymentStatus, vs: seq<ValidatedItem>): Saved {
    CreateItems(AddOrder(db, customer, createdAt, status), db.nextOrder, vs)
  }

  /** The loop succeeds exactly when every item is within its held stock; otherwise it raises InsufficientStock. */
  lemma {:induction false} CreateItemsPassesIffCovered(db: Db, order: OrderId, vs: seq<ValidatedItem>)
    ensures CreateItems(db, order, vs).outcome == Pass <==> forall k :: 0 <= k < |vs| ==> Covered(vs[k])
    ensures CreateItems(db, order, vs).outcome.Fail? ==> CreateItems(db, order, vs).outcome.error == InsufficientStock
    decreases |vs|
  {
    if vs != [] {
      var init := vs[..|vs| - 1];
      CreateItemsPassesIffCovered(db, order, init);
      assert forall k :: 0 <= k < |init| ==> init[k] == vs[k];
    }
  }

  /** Once a prefix of the items has failed, the items after it are never created. */
  lemma {:induction false} CreateItemsFailureSticks(db: Db, order: OrderId, vs: seq<ValidatedItem>, m: nat)
    requires m <= |vs|
    requires CreateItems(db, order, vs[..m]).outcome.Fail?
    ensures CreateItems(db, order, vs) == CreateItems(db, order, vs[..m])
    decreases |vs|
  {
    if m < |vs| {
      var init := vs[..|vs| - 1];
      assert init[..m] == vs[..m];
      CreateItemsFailureSticks(db, order, init, m);
    } else {
      assert vs[..m] == vs;
    }
  }

  /**
   * If item k is the first one beyond its held stock, the loop raises
   * InsufficientStock with the store exactly as the successful run over items
   * 0..k-1 left it: those items and their decrements stay, item k and every
   * later item are not created.
   */
  lemma CreateItemsStopsAtFirstShortfall(db: Db, order: OrderId, vs: seq<ValidatedItem>, k: nat)
    requires k < |vs| && !Covered(vs[k])
    requires forall j :: 0 <= j < k ==> Covered(vs[j])
    ensures CreateItems(db, order, vs[..k]).outcome == Pass
    ensures CreateItems(db, order, vs) == Saved(CreateItems(db, order, vs[..k]).db, Fail(InsufficientStock))
  {
    CreateItemsPassesIffCovered(db, order, vs[..k]);
    var upto := vs[..k + 1];
    assert upto[..|upto| - 1] == vs[..k];
    assert CreateItems(db, order, upto) == Saved(CreateItems(db, order, vs[..k]).db, Fail(InsufficientStock));
    CreateItemsFailureSticks(db, order, vs, k + 1);
  }

  /** Every validated product key is a stored product. */
  predicate KeysStored(db: Db, vs: seq<ValidatedItem>) {
    forall k :: 0 <= k < |vs| ==> vs[k].productId in db.products
  }

  /**
   * A successful loop stores one item row per input, under consecutive keys in
   * input order, each with the input's product and quantity; it adds no other
   * row and changes no other table.
   */
  lemma {:induction false} CreateItemsStoresInputOrder(db: Db, order: OrderId, vs: seq<ValidatedItem>)
    requires forall i :: i in db.items ==> i < db.nextItem
    requires KeysStored(db, vs)
    requires CreateItems(db, order, vs).outcome == Pass
    ensures var d := CreateItems(db, order, vs).db;
      && d.nextItem == db.nextItem + |vs|
      && (forall i :: i in d.items <==> i in db.items || db.nextItem <= i < db.nextItem + |vs|)
      && (forall j :: 0 <= j < |vs| ==> d.items[db.nextItem + j] == OrderItem(order, vs[j].productId, vs[j].quantity))
      && (forall i :: i in db.items ==> d.items[i] == db.items[i])
      && d.products.Keys == db.products.Keys
      && d.users == db.users && d.categories == db.categories && d.orders == db.orders
      && d.nextUser == db.nextUser && d.nextCategory == db.nextCategory
      && d.nextProduct == db.nextProduct && d.nextOrder == db.nextOrder
    decreases |vs|
  {
    if vs != [] {
      var init := vs[..|vs| - 1];
      CreateItemsPassesIffCovered(db, order, vs);
      CreateItemsPassesIffCovered(db, order, init);
      CreateItemsStoresInputOrder(db, order, init);
      assert forall j :: 0 <= j < |init| ==> init[j] == vs[j];
      SaveNewItemWithinStock(CreateItems(db, order, init).db, Instance(order, vs[|vs| - 1]));
    }
  }

  /** Whether `j` is the last position whose item names the same product as item `j`. */
  predicate LastFor(vs: seq<ValidatedItem>, j: nat)
    requires j < |vs|
  {
    forall j' :: j < j' < |vs| ==> vs[j'].productId != vs[j].productId
  }

  /** The held product object with the item's quantity taken off its stock. */
  function Decremented(v: ValidatedItem): Product {
    v.product.(stock := v.product.stock - v.quantity)
  }

  /**
   * What a successful loop leaves in the product table: a product no item
   * names is untouched; a product named by items is the object held by the
   * last of them, with that item's quantity taken off. Each item writes back
   * the object loaded during validation, so an earlier item's decrement of the
   * same product is overwritten.
   */
  lemma {:induction false} CreateItemsWritesHeldProducts(db: Db, order: OrderId, vs: seq<ValidatedItem>)
    requires CreateItems(db, order, vs).outcome == Pass
    ensures var d := CreateItems(db, order, vs).db;
      && (forall p :: p in db.products && (forall k :: 0 <= k < |vs| ==> vs[k].productId != p) ==> p in d.products && d.products[p] == db.products[p])
      && (forall j :: 0 <= j < |vs| && LastFor(vs, j) ==> vs[j].productId in d.products && d.products[vs[j].productId] == Decremented(vs[j]))
    decreases |vs|
  {
    if vs != [] {
      var init := vs[..|vs| - 1];
      CreateItemsPassesIffCovered(db, order, vs);
      CreateItemsPassesIffCovered(db, order, init);
      CreateItemsWritesHeldProducts(db, order, init);
      var prev := CreateItems(db, order, init).db;
      var last := vs[|vs| - 1];
      var d := CreateItems(db, order, vs).db;
      assert d.products == prev.products[last.productId := Decremented(last)];
      forall j | 0 <= j < |vs| && LastFor(vs, j)
        ensures vs[j].productId in d.products && d.products[vs[j].productId] == Decremented(vs[j])
      {
        if j < |vs| - 1 {
          assert init[j] == vs[j];
          assert LastFor(init, j);
        }
      }
    }
  }

  /** No two items name the same product. */
  predicate DistinctProducts(vs: seq<ValidatedItem>) {
    forall j, k :: 0 <= j < k < |vs| ==> vs[j].productId != vs[k].productId
  }

  /** Each item holds the product object as stored in `db`. */
  predicate LoadedFrom(db: Db, vs: seq<ValidatedItem>) {
    forall k :: 0 <= k < |vs| ==> vs[k].productId in db.products && vs[k].product == db.products[vs[k].productId]
  }

  /**
   * `OrderSerializer.create` stores the order row under the next key before
   * any item, and it stays whatever the items do.
   */
  lemma CreateOrderStoresOrderFirst(db: Db, customer: UserId, createdAt: int, status: PaymentStatus, vs: seq<ValidatedItem>)
    ensures var r := CreateOrder(db, customer, createdAt, status, vs);
      && r.db.orders == db.orders[db.nextOrder := Order(customer, createdAt, status)]
      && r.db.users == db.users
  {
    CreateItemsKeepsOrdersAndUsers(AddOrder(db, customer, createdAt, status), db.nextOrder, vs);
  }

  /** Loaded from the store, an item is covered exactly when its quantity is within the stored stock. */
  lemma CreateOrderPassesIffInStock(db: Db, customer: UserId, createdAt: int, status: PaymentStatus, vs: seq<ValidatedItem>)
    requires LoadedFrom(db, vs)
    ensures CreateOrder(db, customer, createdAt, status, vs).outcome == Pass <==>
      forall k :: 0 <= k < |vs| ==> vs[k].quantity <= db.products[vs[k].productId].stock
  {
    CreateItemsPassesIffCovered(AddOrder(db, customer, createdAt, status), db.nextOrder, vs);
    assert forall k :: 0 <= k < |vs| ==> (Covered(vs[k]) <==> vs[k].quantity <= db.products[vs[k].productId].stock);
  }

  /**
   * A successful `OrderSerializer.create` with distinct products loaded from
   * the store: the order's items are exactly the input, in input order, under
   * consecutive keys; each product's stock dropped by its item's quantity with
   * its other fields kept, and every other product is unchanged.
   */
  lemma CreateOrderDistinctSuccess(db: Db, customer: UserId, createdAt: int, status: PaymentStatus, vs: seq<ValidatedItem>)
    requires Valid(db)
    requires DistinctProducts(vs) && LoadedFrom(db, vs)
    requires CreateOrder(db, customer, createdAt, status, vs).outcome == Pass
    ensures var r := CreateOrder(db, customer, createdAt, status, vs);
      && (forall i :: i in r.db.items <==> i in db.items || db.nextItem <= i < db.nextItem + |vs|)
      && (forall j :: 0 <= j < |vs| ==> r.db.items[db.nextItem + j] == OrderItem(db.nextOrder, vs[j].productId, vs[j].quantity))
      && r.db.products.Keys == db.products.Keys
      && (forall j :: 0 <= j < |vs| ==>
            r.db.products[vs[j].productId] == db.products[vs[j].productId].(stock := db.products[vs[j].productId].stock - vs[j].quantity))
      && (forall p :: p in db.products && (forall k :: 0 <= k < |vs| ==> vs[k].productId != p) ==> r.db.products[p] == db.products[p])
  {
    CreateOrderRows(db, customer, createdAt, status, vs);
    CreateOrderStock(db, customer, createdAt, status, vs);
  }

  /** The item rows of a successful `OrderSerializer.create`. */
  lemma CreateOrderRows(db: Db, customer: UserId, createdAt: int, status: PaymentStatus, vs: seq<ValidatedItem>)
    requires forall i :: i in db.items ==> i < db.nextItem
    requires KeysStored(db, vs)
    requires CreateOrder(db, customer, createdAt, status, vs).outcome == Pass
    ensures var r := CreateOrder(db, customer, createdAt, status, vs);
      && (forall i :: i in r.db.items <==> i in db.items || db.nextItem <= i < db.nextItem + |vs|)
      && (forall i :: i in db.items ==> r.db.items[i] == db.items[i])
      && (forall j :: 0 <= j < |vs| ==> r.db.items[db.nextItem + j] == OrderItem(db.nextOrder, vs[j].productId, vs[j].quantity))
      && r.db.nextItem == db.nextItem + |vs|
      && r.db.products.Keys == db.products.Keys
      && r.db.categories == db.categories
  {
    var d0 := AddOrder(db, customer, createdAt, status);
    CreateItemsStoresInputOrder(d0, db.nextOrder, vs);
  }

  /** The product rows of a successful `OrderSerializer.create` with distinct products loaded from the store. */
  lemma CreateOrderStock(db: Db, customer: UserId, createdAt: int, status: PaymentStatus, vs: seq<ValidatedItem>)
    requires DistinctProducts(vs) && LoadedFrom(db, vs)
    requires CreateOrder(db, customer, createdAt, status, vs).outcome == Pass
    ensures var r := CreateOrder(db, customer, createdAt, status, vs);
      && (forall j :: 0 <= j < |vs| ==>
            && vs[j].productId in r.db.products
            && r.db.products[vs[j].productId] == db.products[vs[j].productId].(stock := db.products[vs[j].productId].stock - vs[j].quantity))
      && (forall p :: p in db.products && (forall k :: 0 <= k < |vs| ==> vs[k].productId != p) ==> p in r.db.products && r.db.products[p] == db.products[p])
  {
    var d0 := AddOrder(db, customer, createdAt, status);
    CreateItemsWritesHeldProducts(d0, db.nextOrder, vs);
    var d := CreateItems(d0, db.nextOrder, vs).db;
    forall j | 0 <= j < |vs|
      ensures vs[j].productId in d.products && d.products[vs[j].productId] == Decremented(vs[j])
    {
      assert LastFor(vs, j);
    }
  }

  /**
   * When item k is the first beyond the stock of the product it holds,
   * `OrderSerializer.create` raises InsufficientStock and leaves the store as
   * creating the order with items 0..k-1 alone would: the order and those
   * items stay, with their decrements, and no later item is created. With
   * distinct products loaded from the store, item k's product is unchanged.
   */
  lemma CreateOrderFailsAtFirstShortfall(db: Db, customer: UserId, createdAt: int, status: PaymentStatus, vs: seq<ValidatedItem>, k: nat)
    requires k < |vs| && !Covered(vs[k])
    requires forall j :: 0 <= j < k ==> Covered(vs[j])
    ensures CreateOrder(db, customer, createdAt, status, vs) ==
      Saved(CreateOrder(db, customer, createdAt, status, vs[..k]).db, Fail(InsufficientStock))
    ensures CreateOrder(db, customer, createdAt, status, vs[..k]).outcome == Pass
    ensures Valid(db) && DistinctProducts(vs) && LoadedFrom(db, vs) ==>
      var d := CreateOrder(db, customer, createdAt, status, vs).db;
      vs[k].productId in d.products && d.products[vs[k].productId] == db.products[vs[k].productId]
  {
    var d0 := AddOrder(db, customer, createdAt, status);
    CreateItemsStopsAtFirstShortfall(d0, db.nextOrder, vs, k);
    if Valid(db) && DistinctProducts(vs) && LoadedFrom(db, vs) {
      var init := vs[..k];
      assert forall j :: 0 <= j < |init| ==> init[j] == vs[j];
      CreateItemsPassesIffCovered(d0, db.nextOrder, init);
      CreateItemsWritesHeldProducts(d0, db.nextOrder, init);
    }
  }

  /** The loop never touches the orders or users tables. */
  lemma {:induction false} CreateItemsKeepsOrdersAndUsers(db: Db, order: OrderId, vs: seq<ValidatedItem>)
    ensures CreateItems(db, order, vs).db.orders == db.orders
    ensures CreateItems(db, order, vs).db.users == db.users
    decreases |vs|
  {
    if vs != [] {
      CreateItemsKeepsOrdersAndUsers(db, order, vs[..|vs| - 1]);
    }
  }

  /**
   * The stale product object in action: an order that lists a product with
   * stock 10 twice, for 3 and then 4 units, succeeds, and the product ends
   * with stock 6 rather than 3, because the second item writes back the
   * object loaded before the first decrement.
   */
  lemma DuplicateProductLosesDecrement(db: Db, customer: UserId, createdAt: int, status: PaymentStatus, p: ProductId)
    requires p in db.products && db.products[p].stock == 10
    ensures var vs := [ValidatedItem(p, db.products[p], 3), ValidatedItem(p, db.products[p], 4)];
      var r := CreateOrder(db, customer, createdAt, status, vs);
      && r.outcome == Pass
      && p in r.db.products
      && r.db.products[p].stock == 6
  {
    var vs := [ValidatedItem(p, db.products[p], 3), ValidatedItem(p, db.products[p], 4)];
    var d0 := AddOrder(db, customer, createdAt, status);
    CreateItemsPassesIffCovered(d0, db.nextOrder, vs);
    CreateItemsWritesHeldProducts(d0, db.nextOrder, vs);
    assert LastFor(vs, 1);
  }

  /** The loop keeps the store's integrity when every item fits it, and only adds rows. */
  lemma {:induction false} CreateItemsKeepsValid(db: Db, order: OrderId, vs: seq<ValidatedItem>)
    requires Valid(db)
    requires forall k :: 0 <= k < |vs| ==> InstanceFits(db, Instance(order, vs[k]))
    ensures Valid(CreateItems(db, order, vs).db)
    ensures Grows(db, CreateItems(db, order, vs).db)
    decreases |vs|
  {
    if vs != [] {
      var init := vs[..|vs| - 1];
      assert forall k :: 0 <= k < |init| ==> init[k] == vs[k];
      CreateItemsKeepsValid(db, order, init);
      var prev := CreateItems(db, order, init);
      if prev.outcome.Pass? {
        var it := Instance(order, vs[|vs| - 1]);
        FitsAfterGrowth(db, prev.db, it);
        SaveItemKeepsValid(prev.db, it);
        assert CreateItems(db, order, vs) == SaveItem(prev.db, it);
      }
    }
  }

  /** Every validated item names a stored product and holds an object that fits the store. */
  predicate ItemsFit(db: Db, vs: seq<ValidatedItem>) {
    forall k :: 0 <= k < |vs| ==> vs[k].productId in db.products && ProductFits(db, vs[k].product)
  }

  /**
   * Order creation by a stored customer, with items that fit the store, keeps
   * the store's integrity whether or not it fails part-way: in particular no
   * product's stock goes negative.
   */
  lemma CreateOrderKeepsValid(db: Db, customer: UserId, createdAt: int, status: PaymentStatus, vs: seq<ValidatedItem>)
    requires Valid(db) && customer in db.users && ItemsFit(db, vs)
    ensures Valid(CreateOrder(db, customer, createdAt, status, vs).db)
    ensures forall p :: p in CreateOrder(db, customer, createdAt, status, vs).db.products ==>
      CreateOrder(db, customer, createdAt, status, vs).db.products[p].stock >= 0
  {
    var d0 := AddOrder(db, customer, createdAt, status);
    assert Valid(d0) by {
      assert UsersValid(d0) && CategoriesValid(d0) && ProductsValid(d0);
      assert OrdersValid(d0);
      assert ItemsValid(d0);
    }
    CreateItemsKeepsValid(d0, db.nextOrder, vs);
  }

  /** If, below `n`, the order's items are exactly the keys from `lo` on, then they are listed as `lo`, `lo + 1`, ..., `n - 1`. */
  lemma {:induction false} ItemIdsBelowFrom(items: map<ItemId, OrderItem>, order: OrderId, lo: nat, n: nat)
    requires forall i :: 0 <= i < n ==> (i in items && items[i].order == order <==> lo <= i)
    ensures |ItemIdsBelow(items, order, n)| == if n <= lo then 0 else n - lo
    ensures forall k :: 0 <= k < |ItemIdsBelow(items, order, n)| ==> ItemIdsBelow(items, order, n)[k] == lo + k
    decreases n
  {
    if n > 0 {
      ItemIdsBelowFrom(items, order, lo, n - 1);
    }
  }

  /** The sum of price times quantity over the validated items, at the products' prices in `db`. */
  function LinesTotal(db: Db, vs: seq<ValidatedItem>): int
    requires KeysStored(db, vs)
    decreases |vs|
  {
    if vs == [] then 0
    else LinesTotal(db, vs[..|vs| - 1]) + db.products[vs[|vs| - 1].productId].price * vs[|vs| - 1].quantity
  }

  /** Listed item rows that carry the validated items' products and quantities sum to `LinesTotal`. */
  lemma {:induction false} SumTotalsOfLines(db: Db, order: OrderId, ids: seq<ItemId>, vs: seq<ValidatedItem>)
    requires KeysStored(db, vs) && |ids| == |vs|
    requires forall k :: 0 <= k < |ids| ==> ids[k] in db.items && db.items[ids[k]] == OrderItem(order, vs[k].productId, vs[k].quantity)
    ensures Priced(db, ids)
    ensures SumTotals(db, ids) == LinesTotal(db, vs)
    decreases |vs|
  {
    if vs != [] {
      var n := |vs| - 1;
      assert forall k :: 0 <= k < n ==> ids[..n][k] == ids[k] && vs[..n][k] == vs[k];
      SumTotalsOfLines(db, order, ids[..n], vs[..n]);
      assert db.items[ids[n]] == OrderItem(order, vs[n].productId, vs[n].quantity);
    }
  }

  /**
   * `after` holds the rows of `before`, none of which belongs to `order`, and
   * new rows of `order` under the keys `lo .. lo+n-1`, and no other row.
   */
  ghost predicate RowsAdded(before: map<ItemId, OrderItem>, orders: set<OrderId>, after: Db, order: OrderId, lo: nat, n: nat) {
    && (forall i :: i in before ==> i < lo && before[i].order in orders)
    && order !in orders
    && (forall i :: i in after.items <==> i in before || lo <= i < lo + n)
    && (forall i :: i in before ==> after.items[i] == before[i])
    && (forall i :: lo <= i < lo + n ==> after.items[i].order == order)
    && after.nextItem == lo + n
  }

  /** The rows listed for `order` after such an addition are exactly the new ones, in key order. */
  lemma NewRowsListed(before: map<ItemId, OrderItem>, orders: set<OrderId>, after: Db, order: OrderId, lo: nat, n: nat)
    requires RowsAdded(before, orders, after, order, lo, n)
    ensures |OrderItemIds(after, order)| == n
    ensures forall k :: 0 <= k < n ==> OrderItemIds(after, order)[k] == lo + k
  {
    forall i | 0 <= i < lo + n
      ensures i in after.items && after.items[i].order == order <==> lo <= i
    {
      if i in before {
        assert after.items[i] == before[i];
      }
    }
    ItemIdsBelowFrom(after.items, order, lo, lo + n);
  }

  /** A successful `OrderSerializer.create` adds the order's rows and no other. */
  lemma CreatedRowsAdded(db: Db, customer: UserId, createdAt: int, status: PaymentStatus, vs: seq<ValidatedItem>)
    requires Valid(db) && LoadedFrom(db, vs)
    requires CreateOrder(db, customer, createdAt, status, vs).outcome == Pass
    ensures RowsAdded(db.items, db.orders.Keys, CreateOrder(db, customer, createdAt, status, vs).db, db.nextOrder, db.nextItem, |vs|)
  {
    var d := CreateOrder(db, customer, createdAt, status, vs).db;
    CreateOrderRows(db, customer, createdAt, status, vs);
    forall i | db.nextItem <= i < db.nextItem + |vs|
      ensures d.items[i].order == db.nextOrder
    {
      assert d.items[db.nextItem + (i - db.nextItem)] == OrderItem(db.nextOrder, vs[i - db.nextItem].productId, vs[i - db.nextItem].quantity);
    }
  }

  /** After a successful `OrderSerializer.create`, the new order's items are exactly the new rows, in creation order. */
  lemma CreatedOrderItemIds(db: Db, customer: UserId, createdAt: int, status: PaymentStatus, vs: seq<ValidatedItem>)
    requires Valid(db) && LoadedFrom(db, vs)
    requires CreateOrder(db, customer, createdAt, status, vs).outcome == Pass
    ensures var ids := OrderItemIds(CreateOrder(db, customer, createdAt, status, vs).db, db.nextOrder);
      |ids| == |vs| && forall k :: 0 <= k < |vs| ==> ids[k] == db.nextItem + k
  {
    var d := CreateOrder(db, customer, createdAt, status, vs).db;
    CreatedRowsAdded(db, customer, createdAt, status, vs);
    NewRowsListed(db.items, db.orders.Keys, d, db.nextOrder, db.nextItem, |vs|);
  }

  /** An order whose listed items are rows carrying the validated items, one by one, totals `LinesTotal`. */
  lemma TotalOfListedLines(d: Db, order: OrderId, vs: seq<ValidatedItem>)
    requires Valid(d) && KeysStored(d, vs)
    requires |OrderItemIds(d, order)| == |vs|
    requires forall k :: 0 <= k < |vs| ==>
      d.items[OrderItemIds(d, order)[k]] == OrderItem(order, vs[k].productId, vs[k].quantity)
    ensures TotalAmount(d, order) == LinesTotal(d, vs)
  {
    SumTotalsOfLines(d, order, OrderItemIds(d, order), vs);
  }

  /**
   * After a successful `OrderSerializer.create`, the order's `total_amount`
   * is the sum of price times quantity over the input items.
   */
  lemma CreatedOrderTotal(db: Db, customer: UserId, createdAt: int, status: PaymentStatus, vs: seq<ValidatedItem>)
    requires Valid(db) && customer in db.users && ItemsFit(db, vs) && LoadedFrom(db, vs)
    requires CreateOrder(db, customer, createdAt, status, vs).outcome == Pass
    ensures var d := CreateOrder(db, customer, createdAt, status, vs).db;
      && Valid(d)
      && KeysStored(d, vs)
      && TotalAmount(d, db.nextOrder) == LinesTotal(d, vs)
  {
    var d := CreateOrder(db, customer, createdAt, status, vs).db;
    CreateOrderKeepsValid(db, customer, createdAt, status, vs);
    CreatedOrderLines(db, customer, createdAt, status, vs);
    TotalOfListedLines(d, db.nextOrder, vs);
  }

  /** After a successful `OrderSerializer.create`, the new order lists one row per input item, in input order, each with that item's product and quantity. */
  lemma CreatedOrderLines(db: Db, customer: UserId, createdAt: int, status: PaymentStatus, vs: seq<ValidatedItem>)
    requires Valid(db) && LoadedFrom(db, vs)
    requires CreateOrder(db, customer, createdAt, status, vs).outcome == Pass
    ensures var d := CreateOrder(db, customer, createdAt, status, vs).db;
      KeysStored(d, vs) && |OrderItemIds(d, db.nextOrder)| == |vs| &&
      forall k :: 0 <= k < |vs| ==> d.items[OrderItemIds(d, db.nextOrder)[k]] == OrderItem(db.nextOrder, vs[k].productId, vs[k].quantity)
  {
    CreatedOrderItemIds(db, customer, createdAt, status, vs);
    CreateOrderRows(db, customer, createdAt, status, vs);
  }

  // ---------------------------------------------------------------------------
  // Order output

  /** An item in the order output: `product_detail` is the nested product output, `total_price` computed. */
  datatype OrderItemOut = OrderItemOut(id: ItemId, product: ProductId, productDetail: ProductOut, quantity: nat, totalPrice: int)

  /** The order output: `customer` is the customer's username, a read-only field; `total_amount` is computed. */
  datatype OrderOut = OrderOut(
    id: OrderId,
    customer: string,
    createdAt: int,
    paymentStatus: PaymentStatus,
    items: seq<OrderItemOut>,
    totalAmount: int)

  predicate Listed(db: Db, ids: seq<ItemId>) {
    forall k :: 0 <= k < |ids| ==> ids[k] in db.items
  }

  /** The output entry of one item row: `product_detail` is the product's output, `total_price` computed. */
  function ItemOutput(db: Db, id: ItemId): OrderItemOut
    requires Valid(db) && id in db.items
  {
    var item := db.items[id];
    OrderItemOut(id, item.product, ProductOutput(db, item.product), item.quantity, TotalPrice(db, item))
  }

  function ItemOutputs(db: Db, ids: seq<ItemId>): (r: seq<OrderItemOut>)
    requires Valid(db) && Listed(db, ids)
    ensures |r| == |ids|
    decreases |ids|
  {
    if ids == [] then []
    else ItemOutputs(db, ids[..|ids| - 1]) + [ItemOutput(db, ids[|ids| - 1])]
  }

  /**
   * `total_amount` is shown through `DecimalField(max_digits=12,
   * decimal_places=2)`, which quantizes under a twelve-digit context: a total
   * of 10^12 cents or more in magnitude raises `InvalidOperation`.
   */
  const TotalLimit: int := 1_000_000_000_000

  /** The order output, or None when showing `total_amount` raises. */
  function OrderOutput(db: Db, id: OrderId): Option<OrderOut>
    requires Valid(db) && id in db.orders
  {
    var o := db.orders[id];
    var ids := OrderItemIds(db, id);
    var total := TotalAmount(db, id);
    if -TotalLimit < total < TotalLimit then
      Some(OrderOut(id, db.users[o.customer].username, o.createdAt, o.paymentStatus, ItemOutputs(db, ids), total))
    else None
  }

  function SumOut(items: seq<OrderItemOut>): int
    decreases |items|
  {
    if items == [] then 0 else SumOut(items[..|items| - 1]) + items[|items| - 1].totalPrice
  }

  /** The output lists one entry per listed row, in the listed order. */
  lemma {:induction false} ItemOutputsAt(db: Db, ids: seq<ItemId>)
    requires Valid(db) && Listed(db, ids)
    ensures forall k :: 0 <= k < |ids| ==> ItemOutputs(db, ids)[k] == ItemOutput(db, ids[k])
    decreases |ids|
  {
    if ids != [] {
      var init := ids[..|ids| - 1];
      ItemOutputsAt(db, init);
      var outs := ItemOutputs(db, init) + [ItemOutput(db, ids[|ids| - 1])];
      assert ItemOutputs(db, ids) == outs;
      forall k | 0 <= k < |ids|
        ensures outs[k] == ItemOutput(db, ids[k])
      {
        if k < |init| {
          assert init[k] == ids[k];
        }
      }
    }
  }

  /** Each output entry shows its row's key, product and quantity, and price times quantity as `total_price`. */
  lemma ItemOutputsEntries(db: Db, ids: seq<ItemId>)
    requires Valid(db) && Listed(db, ids)
    ensures forall k :: 0 <= k < |ids| ==>
      && ItemOutputs(db, ids)[k].id == ids[k]
      && ItemOutputs(db, ids)[k].product == db.items[ids[k]].product
      && ItemOutputs(db, ids)[k].quantity == db.items[ids[k]].quantity
      && ItemOutputs(db, ids)[k].totalPrice == ItemOutputs(db, ids)[k].productDetail.price * ItemOutputs(db, ids)[k].quantity
  {
    ItemOutputsAt(db, ids);
  }

  /** The `total_price` values shown sum to the order's `total_amount`. */
  lemma {:induction false} ItemOutputsSum(db: Db, ids: seq<ItemId>)
    requires Valid(db) && Listed(db, ids)
    ensures Priced(db, ids)
    ensures SumOut(ItemOutputs(db, ids)) == SumTotals(db, ids)
    decreases |ids|
  {
    if ids != [] {
      var init := ids[..|ids| - 1];
      ItemOutputsSum(db, init);
      var outs := ItemOutputs(db, ids);
      assert outs[..|outs| - 1] == ItemOutputs(db, init);
    }
  }

  /**
   * The order output shows the customer's username, one entry per item of the
   * order in creation order with `total_price` equal to the shown product
   * price times the quantity, and a `total_amount` equal to the sum of the
   * shown `total_price` values. Showing the order fails exactly when that sum
   * does not fit twelve digits.
   */
  lemma OrderOutputConsistent(db: Db, id: OrderId)
    requires Valid(db) && id in db.orders
    ensures OrderOutput(db, id).Some? <==> -TotalLimit < TotalAmount(db, id) < TotalLimit
    ensures OrderOutput(db, id).Some? ==>
      var out := OrderOutput(db, id).value;
      && out.customer == db.users[db.orders[id].customer].username
      && |out.items| == |OrderItemIds(db, id)|
      && (forall k :: 0 <= k < |out.items| ==>
            && out.items[k].id == OrderItemIds(db, id)[k]
            && out.items[k].totalPrice == out.items[k].productDetail.price * out.items[k].quantity)
      && out.totalAmount == SumOut(out.items)
  {
    ItemOutputsEntries(db, OrderItemIds(db, id));
    ItemOutputsSum(db, OrderItemIds(db, id));
  }
}
