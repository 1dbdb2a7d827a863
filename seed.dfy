/**
 * The `seed` management command: get-or-create of five users, five
 * categories and, when some seeded user is a seller, ten products, two per
 * category, with prices, stock and sellers following the product's position.
 */
module Seed {
  import opened Models

  /** One entry of the users list. */
  datatype UserSeed = UserSeed(username: string, email: string, password: string, role: Role)

  const SeedUsers: seq<UserSeed> := [
    UserSeed("admin1", "admin1@example.com", "pass1234", Admin),
    UserSeed("seller1", "seller1@example.com", "pass1234", Seller),
    UserSeed("seller2", "seller2@example.com", "pass1234", Seller),
    UserSeed("customer1", "cust1@example.com", "pass1234", Customer),
    UserSeed("customer2", "cust2@example.com", "pass1234", Customer)
  ]

  const SeedCategories: seq<string> := ["Electronics", "Books", "Clothing", "Home", "Sports"]

  /** Two products per category. */
  const ProductCount: nat := 10

  // ---------------------------------------------------------------------------
  // Lookups by name

  /**
   * The keys below `n` whose name is `name`, in ascending order. Every row of
   * a valid table lies below its next key, so for `n` the next key these are
   * all the rows with that name.
   */
  function Matches(names: map<nat, string>, name: string, n: nat): (r: seq<nat>)
    ensures forall k :: 0 <= k < |r| ==> r[k] < n && r[k] in names && names[r[k]] == name
  {
    if n == 0 then []
    else Matches(names, name, n - 1) + (if n - 1 in names && names[n - 1] == name then [n - 1] else [])
  }

  /** Every row below `n` with the name is matched. */
  lemma {:induction false} MatchesComplete(names: map<nat, string>, name: string, n: nat, key: nat)
    requires key < n && key in names && names[key] == name
    ensures key in Matches(names, name, n)
    decreases n
  {
    if key < n - 1 {
      MatchesComplete(names, name, n - 1, key);
    }
  }

  /** Matches below `n` depend only on the rows below `n`. */
  lemma {:induction false} MatchesBelow(a: map<nat, string>, b: map<nat, string>, name: string, n: nat)
    requires forall k :: 0 <= k < n ==> (k in a <==> k in b)
    requires forall k :: 0 <= k < n && k in a ==> a[k] == b[k]
    ensures Matches(a, name, n) == Matches(b, name, n)
    decreases n
  {
    if n > 0 {
      MatchesBelow(a, b, name, n - 1);
    }
  }

  /** Writing a row under the next key adds that key to the matches of its own name and to no other. */
  lemma MatchesInsert(names: map<nat, string>, name: string, n: nat, v: string)
    ensures Matches(names[n := v], name, n + 1) == Matches(names, name, n) + (if v == name then [n] else [])
  {
    MatchesBelow(names[n := v], names, name, n);
  }

  /** What `get` finds. */
  datatype Lookup = Missing | Found(key: nat) | Multiple

  function Classify(ks: seq<nat>): Lookup {
    if |ks| == 0 then Missing else if |ks| == 1 then Found(ks[0]) else Multiple
  }

  function UserNames(users: map<UserId, User>): map<nat, string> {
    map k | k in users :: users[k].username
  }

  function CategoryNames(categories: map<CategoryId, Category>): map<nat, string> {
    map k | k in categories :: categories[k].name
  }

  function ProductNames(products: map<ProductId, Product>): map<nat, string> {
    map k | k in products :: products[k].name
  }

  /** `User.objects.get(username=...)`. */
  function FindUser(db: Db, username: string): Lookup {
    Classify(Matches(UserNames(db.users), username, db.nextUser))
  }

  /** `Category.objects.get(name=...)`. */
  function FindCategory(db: Db, name: string): Lookup {
    Classify(Matches(CategoryNames(db.categories), name, db.nextCategory))
  }

  /** `Product.objects.get(name=...)`. */
  function FindProduct(db: Db, name: string): Lookup {
    Classify(Matches(ProductNames(db.products), name, db.nextProduct))
  }

  /** A found key is a stored row of that name. */
  lemma FoundIsStored(names: map<nat, string>, name: string, n: nat)
    ensures Classify(Matches(names, name, n)).Found? ==>
      var k := Classify(Matches(names, name, n)).key;
      k < n && k in names && names[k] == name
  {
  }

  /** Missing means no row below `n` carries the name. */
  lemma MissingIsAbsent(names: map<nat, string>, name: string, n: nat, key: nat)
    requires Classify(Matches(names, name, n)) == Missing
    ensures key < n && key in names ==> names[key] != name
  {
    if key < n && key in names && names[key] == name {
      MatchesComplete(names, name, n, key);
    }
  }

  /**
   * After a row is written under the next key, a name that was found is
   * found under the same key unless it is the new row's name, a name that
   * was missing is found under the new key if it is the new row's name, and
   * every other name is looked up as before.
   */
  lemma LookupAfterInsert(names: map<nat, string>, name: string, n: nat, v: string)
    ensures v != name ==> Classify(Matches(names[n := v], name, n + 1)) == Classify(Matches(names, name, n))
    ensures v == name && Classify(Matches(names, name, n)) == Missing ==> Classify(Matches(names[n := v], name, n + 1)) == Found(n)
  {
    MatchesInsert(names, name, n, v);
  }

  /** A user found by username is stored under that key, with that username. */
  lemma FoundUserIsStored(db: Db, username: string)
    ensures FindUser(db, username).Found? ==>
      && FindUser(db, username).key in db.users
      && db.users[FindUser(db, username).key].username == username
  {
    FoundIsStored(UserNames(db.users), username, db.nextUser);
  }

  /** A category found by name is stored under that key, with that name. */
  lemma FoundCategoryIsStored(db: Db, name: string)
    ensures FindCategory(db, name).Found? ==>
      && FindCategory(db, name).key in db.categories
      && db.categories[FindCategory(db, name).key].name == name
  {
    FoundIsStored(CategoryNames(db.categories), name, db.nextCategory);
  }

  /** A product found by name is stored under that key, with that name. */
  lemma FoundProductIsStored(db: Db, name: string)
    ensures FindProduct(db, name).Found? ==>
      && FindProduct(db, name).key in db.products
      && FindProduct(db, name).key < db.nextProduct
      && db.products[FindProduct(db, name).key].name == name
  {
    FoundIsStored(ProductNames(db.products), name, db.nextProduct);
  }

  /** Every user stored below `a`'s next key is still there, unchanged, in `b`. */
  predicate UsersKept(a: Db, b: Db) {
    && a.nextUser <= b.nextUser
    && forall k :: k in a.users && k < a.nextUser ==> k in b.users && b.users[k] == a.users[k]
  }

  /** Every product stored below `a`'s next key is still there, unchanged, in `b`. */
  predicate ProductsKept(a: Db, b: Db) {
    && a.nextProduct <= b.nextProduct
    && forall k :: k in a.products && k < a.nextProduct ==> k in b.products && b.products[k] == a.products[k]
  }

  // ---------------------------------------------------------------------------
  // get_or_create

  /** A get-or-create result: the store, whether it raised, and the key got or created. */
  datatype Got = Got(db: Db, outcome: Outcome, key: nat)

  /**
   * The user get-or-create keyed by username. A new user takes the entry's
   * email and role and then the entry's password; an existing one is returned
   * as stored.
   */
  function GetOrCreateUser(db: Db, u: UserSeed): Got {
    match FindUser(db, u.username)
    case Found(k) => Got(db, Pass, k)
    case Multiple => Got(db, Fail(MultipleObjectsReturned), 0)
    case Missing =>
      var user := User(u.username, u.email, u.role, PasswordOf(u.password));
      Got(db.(users := db.users[db.nextUser := user], nextUser := db.nextUser + 1), Pass, db.nextUser)
  }

  function GetOrCreateCategory(db: Db, name: string): Got {
    match FindCategory(db, name)
    case Found(k) => Got(db, Pass, k)
    case Multiple => Got(db, Fail(MultipleObjectsReturned), 0)
    case Missing => Got(db.(categories := db.categories[db.nextCategory := Category(name)], nextCategory := db.nextCategory + 1), Pass, db.nextCategory)
  }

  /** The product get-or-create keyed by name; `row` holds the defaults a new product takes. */
  function GetOrCreateProduct(db: Db, row: Product): Got {
    match FindProduct(db, row.name)
    case Found(k) => Got(db, Pass, k)
    case Multiple => Got(db, Fail(MultipleObjectsReturned), 0)
    case Missing => Got(db.(products := db.products[db.nextProduct := row], nextProduct := db.nextProduct + 1), Pass, db.nextProduct)
  }

  lemma UserNamesInsert(users: map<UserId, User>, k: UserId, u: User)
    ensures UserNames(users[k := u]) == UserNames(users)[k := u.username]
  {
  }

  lemma CategoryNamesInsert(categories: map<CategoryId, Category>, k: CategoryId, c: Category)
    ensures CategoryNames(categories[k := c]) == CategoryNames(categories)[k := c.name]
  {
  }

  lemma ProductNamesInsert(products: map<ProductId, Product>, k: ProductId, p: Product)
    ensures ProductNames(products[k := p]) == ProductNames(products)[k := p.name]
  {
  }

  /**
   * A user get-or-create that passes leaves the username found under the key
   * it returns, and every other username looked up as before. A found user is
   * left exactly as it was, password included; a new one has the entry's
   * fields and password. No other table changes.
   */
  lemma GetOrCreateUserEffect(db: Db, u: UserSeed, other: string)
    ensures var g := GetOrCreateUser(db, u);
      g.outcome == Pass <==> !FindUser(db, u.username).Multiple?
    ensures var g := GetOrCreateUser(db, u);
      g.outcome == Pass ==> FindUser(g.db, u.username) == Found(g.key)
    ensures var g := GetOrCreateUser(db, u);
      other != u.username ==> FindUser(g.db, other) == FindUser(db, other)
    ensures var g := GetOrCreateUser(db, u);
      FindUser(db, u.username).Found? ==> g == Got(db, Pass, FindUser(db, u.username).key)
    ensures var g := GetOrCreateUser(db, u);
      FindUser(db, u.username) == Missing ==>
        && g.key == db.nextUser
        && g.db.users == db.users[db.nextUser := User(u.username, u.email, u.role, PasswordOf(u.password))]
    ensures var g := GetOrCreateUser(db, u);
      g.db == db.(users := g.db.users, nextUser := g.db.nextUser)
    ensures UsersKept(db, GetOrCreateUser(db, u).db)
  {
    if FindUser(db, u.username) == Missing {
      var user := User(u.username, u.email, u.role, PasswordOf(u.password));
      UserNamesInsert(db.users, db.nextUser, user);
      LookupAfterInsert(UserNames(db.users), u.username, db.nextUser, u.username);
      LookupAfterInsert(UserNames(db.users), other, db.nextUser, u.username);
    }
  }

  /**
   * A category get-or-create that passes leaves the name found under the key
   * it returns, and every other name looked up as before. A found category is
   * returned as stored; a missing one is added under the next key. No other
   * table changes.
   */
  lemma GetOrCreateCategoryEffect(db: Db, name: string, other: string)
    ensures var g := GetOrCreateCategory(db, name);
      g.outcome == Pass <==> !FindCategory(db, name).Multiple?
    ensures var g := GetOrCreateCategory(db, name);
      g.outcome == Pass ==> FindCategory(g.db, name) == Found(g.key)
    ensures var g := GetOrCreateCategory(db, name);
      other != name ==> FindCategory(g.db, other) == FindCategory(db, other)
    ensures var g := GetOrCreateCategory(db, name);
      FindCategory(db, name).Found? ==> g == Got(db, Pass, FindCategory(db, name).key)
    ensures var g := GetOrCreateCategory(db, name);
      FindCategory(db, name) == Missing ==>
        && g.key == db.nextCategory
        && g.db.categories == db.categories[db.nextCategory := Category(name)]
    ensures var g := GetOrCreateCategory(db, name);
      g.db == db.(categories := g.db.categories, nextCategory := g.db.nextCategory)
  {
    if FindCategory(db, name) == Missing {
      CategoryNamesInsert(db.categories, db.nextCategory, Category(name));
      LookupAfterInsert(CategoryNames(db.categories), name, db.nextCategory, name);
      LookupAfterInsert(CategoryNames(db.categories), other, db.nextCategory, name);
    }
  }

  lemma GetOrCreateProductEffect(db: Db, row: Product, other: string)
    ensures var g := GetOrCreateProduct(db, row);
      g.outcome == Pass <==> !FindProduct(db, row.name).Multiple?
    ensures var g := GetOrCreateProduct(db, row);
      g.outcome == Pass ==> FindProduct(g.db, row.name) == Found(g.key)
    ensures var g := GetOrCreateProduct(db, row);
      other != row.name ==> FindProduct(g.db, other) == FindProduct(db, other)
    ensures var g := GetOrCreateProduct(db, row);
      FindProduct(db, row.name).Found? ==> g == Got(db, Pass, FindProduct(db, row.name).key)
    ensures var g := GetOrCreateProduct(db, row);
      FindProduct(db, row.name) == Missing ==>
        && g.key == db.nextProduct
        && g.db.products == db.products[db.nextProduct := row]
    ensures var g := GetOrCreateProduct(db, row);
      g.db == db.(products := g.db.products, nextProduct := g.db.nextProduct)
    ensures ProductsKept(db, GetOrCreateProduct(db, row).db)
  {
    if FindProduct(db, row.name) == Missing {
      ProductNamesInsert(db.products, db.nextProduct, row);
      LookupAfterInsert(ProductNames(db.products), row.name, db.nextProduct, row.name);
      LookupAfterInsert(ProductNames(db.products), other, db.nextProduct, row.name);
    }
  }

  // ---------------------------------------------------------------------------
  // The three loops

  /** A loop's result: the store, whether it raised, and the keys got so far, in input order. */
  datatype Batch = Batch(db: Db, outcome: Outcome, keys: seq<nat>)

  /** The users loop: each entry got or created in turn. */
  function SeedUserList(db: Db, us: seq<UserSeed>): (r: Batch)
    ensures r.outcome == Pass ==> |r.keys| == |us|
    decreases |us|
  {
    if us == [] then Batch(db, Pass, [])
    else
      var prev := SeedUserList(db, us[..|us| - 1]);
      if prev.outcome.Fail? then prev
      else
        var g := GetOrCreateUser(prev.db, us[|us| - 1]);
        if g.outcome.Fail? then Batch(g.db, g.outcome, prev.keys) else Batch(g.db, Pass, prev.keys + [g.key])
  }

  /** The categories loop: each name got or created in turn. */
  function SeedCategoryList(db: Db, names: seq<string>): (r: Batch)
    ensures r.outcome == Pass ==> |r.keys| == |names|
    decreases |names|
  {
    if names == [] then Batch(db, Pass, [])
    else
      var prev := SeedCategoryList(db, names[..|names| - 1]);
      if prev.outcome.Fail? then prev
      else
        var g := GetOrCreateCategory(prev.db, names[|names| - 1]);
        if g.outcome.Fail? then Batch(g.db, g.outcome, prev.keys) else Batch(g.db, Pass, prev.keys + [g.key])
  }

  /** One more entry of the users loop: the get-or-create of entry `m` on the store the first `m` entries left. */
  lemma SeedUserListStep(db: Db, us: seq<UserSeed>, m: nat, before: Db, keys: seq<UserId>)
    requires m < |us|
    requires SeedUserList(db, us[..m]) == Batch(before, Pass, keys)
    ensures var g := GetOrCreateUser(before, us[m]);
      SeedUserList(db, us[..m + 1]) == Batch(g.db, g.outcome, if g.outcome.Fail? then keys else keys + [g.key])
  {
    assert us[..m + 1][..m] == us[..m];
  }

  /** One more name of the categories loop. */
  lemma SeedCategoryListStep(db: Db, names: seq<string>, m: nat, before: Db, keys: seq<CategoryId>)
    requires m < |names|
    requires SeedCategoryList(db, names[..m]) == Batch(before, Pass, keys)
    ensures var g := GetOrCreateCategory(before, names[m]);
      SeedCategoryList(db, names[..m + 1]) == Batch(g.db, g.outcome, if g.outcome.Fail? then keys else keys + [g.key])
  {
    assert names[..m + 1][..m] == names[..m];
  }

  /** Once an entry of the users loop raises, the later entries are not run: the loop ends as it was then. */
  lemma {:induction false} SeedUserListFailureSticks(db: Db, us: seq<UserSeed>, m: nat)
    requires m <= |us|
    requires SeedUserList(db, us[..m]).outcome.Fail?
    ensures SeedUserList(db, us) == SeedUserList(db, us[..m])
    decreases |us|
  {
    if m < |us| {
      var init := us[..|us| - 1];
      assert init[..m] == us[..m];
      SeedUserListFailureSticks(db, init, m);
    } else {
      assert us[..m] == us;
    }
  }

  /** Once a name of the categories loop raises, the later names are not run. */
  lemma {:induction false} SeedCategoryListFailureSticks(db: Db, names: seq<string>, m: nat)
    requires m <= |names|
    requires SeedCategoryList(db, names[..m]).outcome.Fail?
    ensures SeedCategoryList(db, names) == SeedCategoryList(db, names[..m])
    decreases |names|
  {
    if m < |names| {
      var init := names[..|names| - 1];
      assert init[..m] == names[..m];
      SeedCategoryListFailureSticks(db, init, m);
    } else {
      assert names[..m] == names;
    }
  }

  /** The users got whose role is `seller`, in the order they were got. */
  function SellersAmong(users: map<UserId, User>, keys: seq<UserId>): seq<UserId> {
    if keys == [] then []
    else
      var k := keys[|keys| - 1];
      SellersAmong(users, keys[..|keys| - 1]) + (if k in users && RoleLiteral(users[k].role) == "seller" then [k] else [])
  }

  /** The name of the product at position `j` (0-based): the category's name, " Item ", and 1 or 2. */
  function ProductName(j: nat): string
    requires j < ProductCount
  {
    SeedCategories[j / 2] + " Item " + (if j % 2 == 0 then "1" else "2")
  }

  /**
   * The defaults of the product at position `j`, whose running count is
   * `j + 1`: the seller `sellers[(idx + i) mod len(sellers)]` for the
   * 1-based category index `idx` and slot `i`, that category, the description
   * "Sample " and the name, the price 10.0 times the count (in cents), and
   * the stock 50 plus 5 times the count.
   */
  function ProductDefaults(j: nat, cats: seq<CategoryId>, sellers: seq<UserId>): Product
    requires j < ProductCount && |cats| == |SeedCategories| && |sellers| > 0
  {
    var idx := j / 2 + 1;
    var i := j % 2;
    var count := j + 1;
    Product(sellers[(idx + i) % |sellers|], cats[j / 2], ProductName(j), "Sample " + ProductName(j), 1000 * count, 50 + count * 5)
  }

  /** The defaults of the ten products, in the order the nested loops visit them. */
  function ProductRows(cats: seq<CategoryId>, sellers: seq<UserId>): (r: seq<Product>)
    requires |cats| == |SeedCategories| && |sellers| > 0
    ensures |r| == ProductCount
  {
    seq(ProductCount, j requires 0 <= j < ProductCount => ProductDefaults(j, cats, sellers))
  }

  /** The products loop: each row got or created by name in turn. */
  function SeedProductList(db: Db, rows: seq<Product>): Saved
    decreases |rows|
  {
    if rows == [] then Saved(db, Pass)
    else
      var prev := SeedProductList(db, rows[..|rows| - 1]);
      if prev.outcome.Fail? then prev
      else
        var g := GetOrCreateProduct(prev.db, rows[|rows| - 1]);
        Saved(g.db, g.outcome)
  }

  /** One more row of the products loop; it changes no table but the products. */
  lemma SeedProductListStep(db: Db, rows: seq<Product>, m: nat, before: Db)
    requires m < |rows|
    requires SeedProductList(db, rows[..m]) == Saved(before, Pass)
    ensures var g := GetOrCreateProduct(before, rows[m]);
      && SeedProductList(db, rows[..m + 1]) == Saved(g.db, g.outcome)
      && g.db == before.(products := g.db.products, nextProduct := g.db.nextProduct)
  {
    assert rows[..m + 1][..m] == rows[..m];
  }

  /** Once a row of the products loop raises, the later rows are not run. */
  lemma {:induction false} SeedProductListFailureSticks(db: Db, rows: seq<Product>, m: nat)
    requires m <= |rows|
    requires SeedProductList(db, rows[..m]).outcome.Fail?
    ensures SeedProductList(db, rows) == SeedProductList(db, rows[..m])
    decreases |rows|
  {
    if m < |rows| {
      var init := rows[..|rows| - 1];
      assert init[..m] == rows[..m];
      SeedProductListFailureSticks(db, init, m);
    } else {
      assert rows[..m] == rows;
    }
  }

  /** `Command.handle`: users, then categories, then, if any seeded user is a seller, products. */
  function Handle(db: Db): Saved {
    var us := SeedUserList(db, SeedUsers);
    if us.outcome.Fail? then Saved(us.db, us.outcome)
    else
      var cs := SeedCategoryList(us.db, SeedCategories);
      if cs.outcome.Fail? then Saved(cs.db, cs.outcome)
      else
        var sellers := SellersAmong(cs.db.users, us.keys);
        if sellers == [] then Saved(cs.db, Pass)
        else SeedProductList(cs.db, ProductRows(cs.keys, sellers))
  }

  // ---------------------------------------------------------------------------
  // Properties of the loops

  /**
   * The users loop gets every entry: on success each entry's username is
   * found under the key got for it, in input order; usernames not in the list
   * are looked up as before; users stored before are left unchanged, password
   * included; and no other table changes. It fails only on a username that
   * matches several users.
   */
  lemma {:induction false} SeedUserListEffect(db: Db, us: seq<UserSeed>, other: string)
    ensures var r := SeedUserList(db, us);
      r.outcome.Fail? ==> r.outcome == Fail(MultipleObjectsReturned)
    ensures var r := SeedUserList(db, us);
      r.outcome == Pass ==> forall k :: 0 <= k < |us| ==> FindUser(r.db, us[k].username) == Found(r.keys[k])
    ensures var r := SeedUserList(db, us);
      (forall k :: 0 <= k < |us| ==> us[k].username != other) ==> FindUser(r.db, other) == FindUser(db, other)
    ensures var r := SeedUserList(db, us);
      r.db == db.(users := r.db.users, nextUser := r.db.nextUser)
    ensures UsersKept(db, SeedUserList(db, us).db)
    decreases |us|
  {
    if us != [] {
      var init := us[..|us| - 1];
      var last := us[|us| - 1];
      assert forall k :: 0 <= k < |init| ==> init[k] == us[k];
      SeedUserListEffect(db, init, other);
      var prev := SeedUserList(db, init);
      if prev.outcome == Pass {
        var g := GetOrCreateUser(prev.db, last);
        GetOrCreateUserEffect(prev.db, last, other);
        if g.outcome == Pass {
          var r := SeedUserList(db, us);
          assert r.keys == prev.keys + [g.key];
          forall k | 0 <= k < |us|
            ensures FindUser(r.db, us[k].username) == Found(r.keys[k])
          {
            if k < |us| - 1 {
              GetOrCreateUserEffect(prev.db, last, us[k].username);
              assert FindUser(prev.db, us[k].username) == Found(prev.keys[k]);
            }
          }
        }
      }
    }
  }

  /** When every entry's username is already found, the users loop changes nothing and gets the found keys. */
  lemma {:induction false} SeedUserListReplay(db: Db, us: seq<UserSeed>)
    requires forall k :: 0 <= k < |us| ==> FindUser(db, us[k].username).Found?
    ensures var r := SeedUserList(db, us);
      && r.db == db && r.outcome == Pass && |r.keys| == |us|
      && forall k :: 0 <= k < |us| ==> r.keys[k] == FindUser(db, us[k].username).key
    decreases |us|
  {
    if us != [] {
      var init := us[..|us| - 1];
      assert forall k :: 0 <= k < |init| ==> init[k] == us[k];
      SeedUserListReplay(db, init);
      var prev := SeedUserList(db, init);
      assert GetOrCreateUser(prev.db, us[|us| - 1]) == Got(db, Pass, FindUser(db, us[|us| - 1].username).key);
    }
  }

  /**
   * The categories loop gets the five names in their fixed order: on success
   * each name is found under the key got for it; other names are looked up as
   * before; and no other table changes.
   */
  lemma {:induction false} SeedCategoryListEffect(db: Db, names: seq<string>, other: string)
    ensures var r := SeedCategoryList(db, names);
      r.outcome.Fail? ==> r.outcome == Fail(MultipleObjectsReturned)
    ensures var r := SeedCategoryList(db, names);
      r.outcome == Pass ==> forall k :: 0 <= k < |names| ==> FindCategory(r.db, names[k]) == Found(r.keys[k])
    ensures var r := SeedCategoryList(db, names);
      (forall k :: 0 <= k < |names| ==> names[k] != other) ==> FindCategory(r.db, other) == FindCategory(db, other)
    ensures var r := SeedCategoryList(db, names);
      r.db == db.(categories := r.db.categories, nextCategory := r.db.nextCategory)
    decreases |names|
  {
    if names != [] {
      var init := names[..|names| - 1];
      var last := names[|names| - 1];
      assert forall k :: 0 <= k < |init| ==> init[k] == names[k];
      SeedCategoryListEffect(db, init, other);
      var prev := SeedCategoryList(db, init);
      if prev.outcome == Pass {
        var g := GetOrCreateCategory(prev.db, last);
        GetOrCreateCategoryEffect(prev.db, last, other);
        if g.outcome == Pass {
          var r := SeedCategoryList(db, names);
          assert r.keys == prev.keys + [g.key];
          forall k | 0 <= k < |names|
            ensures FindCategory(r.db, names[k]) == Found(r.keys[k])
          {
            if k < |names| - 1 {
              GetOrCreateCategoryEffect(prev.db, last, names[k]);
              assert FindCategory(prev.db, names[k]) == Found(prev.keys[k]);
            }
          }
        }
      }
    }
  }

  /** When every name is already found, the categories loop changes nothing and gets the found keys. */
  lemma {:induction false} SeedCategoryListReplay(db: Db, names: seq<string>)
    requires forall k :: 0 <= k < |names| ==> FindCategory(db, names[k]).Found?
    ensures var r := SeedCategoryList(db, names);
      && r.db == db && r.outcome == Pass && |r.keys| == |names|
      && forall k :: 0 <= k < |names| ==> r.keys[k] == FindCategory(db, names[k]).key
    decreases |names|
  {
    if names != [] {
      var init := names[..|names| - 1];
      assert forall k :: 0 <= k < |init| ==> init[k] == names[k];
      SeedCategoryListReplay(db, init);
      var prev := SeedCategoryList(db, init);
      assert GetOrCreateCategory(prev.db, names[|names| - 1]) == Got(db, Pass, FindCategory(db, names[|names| - 1]).key);
    }
  }

  /** The five category names have five different lengths. */
  lemma CategoryNameLengths(c: nat, d: nat)
    requires c < |SeedCategories| && d < |SeedCategories| && c != d
    ensures |SeedCategories[c]| != |SeedCategories[d]|
  {
  }

  /** The ten product names are pairwise different. */
  lemma ProductNamesDistinct(j: nat, l: nat)
    requires j < ProductCount && l < ProductCount && j != l
    ensures ProductName(j) != ProductName(l)
  {
    var a := ProductName(j);
    var b := ProductName(l);
    if j / 2 == l / 2 {
      assert a[|a| - 1] != b[|b| - 1];
    } else {
      CategoryNameLengths(j / 2, l / 2);
      assert |a| != |b|;
    }
  }

  /** No two rows share a name. */
  predicate DistinctNames(rows: seq<Product>) {
    forall j, l :: 0 <= j < l < |rows| ==> rows[j].name != rows[l].name
  }

  /**
   * The products loop: on success each row's name is found; other names are
   * looked up as before; products stored before are left unchanged; and no
   * other table changes. It fails only on a name that matches several
   * products.
   */
  lemma {:induction false} SeedProductListEffect(db: Db, rows: seq<Product>, other: string)
    ensures var r := SeedProductList(db, rows);
      r.outcome.Fail? ==> r.outcome == Fail(MultipleObjectsReturned)
    ensures var r := SeedProductList(db, rows);
      r.outcome == Pass ==> forall j :: 0 <= j < |rows| ==> FindProduct(r.db, rows[j].name).Found?
    ensures var r := SeedProductList(db, rows);
      (forall j :: 0 <= j < |rows| ==> rows[j].name != other) ==> FindProduct(r.db, other) == FindProduct(db, other)
    ensures var r := SeedProductList(db, rows);
      r.db == db.(products := r.db.products, nextProduct := r.db.nextProduct)
    ensures ProductsKept(db, SeedProductList(db, rows).db)
    decreases |rows|
  {
    if rows != [] {
      var init := rows[..|rows| - 1];
      var last := rows[|rows| - 1];
      assert forall j :: 0 <= j < |init| ==> init[j] == rows[j];
      SeedProductListEffect(db, init, other);
      var prev := SeedProductList(db, init);
      if prev.outcome == Pass {
        var g := GetOrCreateProduct(prev.db, last);
        GetOrCreateProductEffect(prev.db, last, other);
        if g.outcome == Pass {
          forall j | 0 <= j < |rows|
            ensures FindProduct(g.db, rows[j].name).Found?
          {
            if j < |rows| - 1 {
              GetOrCreateProductEffect(prev.db, last, rows[j].name);
              assert FindProduct(prev.db, init[j].name).Found?;
            }
          }
        }
      }
    }
  }

  /** When every row's name is already found, the products loop changes nothing. */
  lemma {:induction false} SeedProductListReplay(db: Db, rows: seq<Product>)
    requires forall j :: 0 <= j < |rows| ==> FindProduct(db, rows[j].name).Found?
    ensures SeedProductList(db, rows) == Saved(db, Pass)
    decreases |rows|
  {
    if rows != [] {
      var init := rows[..|rows| - 1];
      assert forall j :: 0 <= j < |init| ==> init[j] == rows[j];
      SeedProductListReplay(db, init);
    }
  }

  /** A row whose name no product had before the loop is stored as it is, under the key its name is then found at. */
  lemma {:induction false} SeedProductCreated(db: Db, rows: seq<Product>, j: nat)
    requires DistinctNames(rows) && j < |rows|
    requires FindProduct(db, rows[j].name) == Missing
    requires SeedProductList(db, rows).outcome == Pass
    ensures var r := SeedProductList(db, rows).db;
      && FindProduct(r, rows[j].name).Found?
      && r.products[FindProduct(r, rows[j].name).key] == rows[j]
    decreases |rows|
  {
    var init := rows[..|rows| - 1];
    var last := rows[|rows| - 1];
    assert forall l :: 0 <= l < |init| ==> init[l] == rows[l];
    var prev := SeedProductList(db, init);
    var r := SeedProductList(db, rows).db;
    if j < |rows| - 1 {
      SeedProductCreated(db, init, j);
      var k := FindProduct(prev.db, rows[j].name).key;
      FoundProductIsStored(prev.db, rows[j].name);
      GetOrCreateProductEffect(prev.db, last, rows[j].name);
      assert FindProduct(r, rows[j].name) == Found(k);
      assert r.products[k] == prev.db.products[k];
    } else {
      SeedProductListEffect(db, init, rows[j].name);
      GetOrCreateProductEffect(prev.db, last, rows[j].name);
      assert r.products[prev.db.nextProduct] == last;
    }
  }

  /**
   * The product rows follow the position formulas: the name, the description
   * "Sample " and the name, the category of index `j / 2`, the price 10.0
   * times `j + 1` (in cents), the stock 50 plus 5 times `j + 1`, and the
   * seller chosen round robin from the 1-based category index plus the slot;
   * and no two rows share a name.
   */
  lemma ProductRowsFormulas(cats: seq<CategoryId>, sellers: seq<UserId>, j: nat)
    requires |cats| == |SeedCategories| && |sellers| > 0 && j < ProductCount
    ensures DistinctNames(ProductRows(cats, sellers))
    ensures var p := ProductRows(cats, sellers)[j];
      && p.name == SeedCategories[j / 2] + " Item " + (if j % 2 == 0 then "1" else "2")
      && p.description == "Sample " + p.name
      && p.category == cats[j / 2]
      && p.price == 1000 * (j + 1)
      && p.stock == 50 + 5 * (j + 1)
      && p.seller == sellers[(j / 2 + 1 + j % 2) % |sellers|]
  {
    var rows := ProductRows(cats, sellers);
    forall a, b | 0 <= a < b < |rows|
      ensures rows[a].name != rows[b].name
    {
      ProductNamesDistinct(a, b);
    }
  }

  /**
   * The row of slot `i` of the category with 1-based index `idx`, whose
   * running count is `2 * (idx - 1) + i + 1`, as the nested loops build it.
   */
  lemma ProductRowAt(cats: seq<CategoryId>, sellers: seq<UserId>, idx: nat, i: nat)
    requires |cats| == |SeedCategories| && |sellers| > 0
    requires 1 <= idx <= |SeedCategories| && i < 2
    ensures var count := 2 * (idx - 1) + i + 1;
      var name := SeedCategories[idx - 1] + " Item " + (if i == 0 then "1" else "2");
      ProductRows(cats, sellers)[count - 1] ==
        Product(sellers[(idx + i) % |sellers|], cats[idx - 1], name, "Sample " + name, 1000 * count, 50 + count * 5)
  {
    var j := 2 * (idx - 1) + i;
    assert j / 2 == idx - 1 && j % 2 == i;
  }

  // ---------------------------------------------------------------------------
  // Properties of the command

  /** The sellers picked are exactly the users got whose role is seller. */
  lemma {:induction false} SellersAmongExact(users: map<UserId, User>, keys: seq<UserId>, x: UserId)
    ensures x in SellersAmong(users, keys) <==> x in keys && x in users && users[x].role == Seller
    decreases |keys|
  {
    if keys != [] {
      var init := keys[..|keys| - 1];
      SellersAmongExact(users, init, x);
      assert keys == init + [keys[|keys| - 1]];
      if keys[|keys| - 1] in users {
        ParseRoleRoundTrip(users[keys[|keys| - 1]].role, "seller");
      }
    }
  }

  /** The store after the users and the categories loops of a run that got past both. */
  lemma HandleFirstPhases(db: Db)
    ensures var us := SeedUserList(db, SeedUsers);
      var cs := SeedCategoryList(us.db, SeedCategories);
      us.outcome == Pass && cs.outcome == Pass ==>
        && (forall k :: 0 <= k < |SeedUsers| ==> FindUser(cs.db, SeedUsers[k].username) == Found(us.keys[k]))
        && (forall k :: 0 <= k < |SeedCategories| ==> FindCategory(cs.db, SeedCategories[k]) == Found(cs.keys[k]))
        && cs.db == db.(users := cs.db.users, nextUser := cs.db.nextUser, categories := cs.db.categories, nextCategory := cs.db.nextCategory)
        && UsersKept(db, cs.db)
  {
    var us := SeedUserList(db, SeedUsers);
    SeedUserListEffect(db, SeedUsers, "");
    SeedCategoryListEffect(us.db, SeedCategories, "");
  }

  /** After a successful run, every seeded username and category name is found under the key the run got for it. */
  lemma HandleFindsUsersAndCategories(db: Db)
    requires Handle(db).outcome == Pass
    ensures var us := SeedUserList(db, SeedUsers);
      var cs := SeedCategoryList(us.db, SeedCategories);
      var r := Handle(db).db;
      && us.outcome == Pass && cs.outcome == Pass
      && r.users == cs.db.users
      && (forall k :: 0 <= k < |SeedUsers| ==> FindUser(r, SeedUsers[k].username) == Found(us.keys[k]))
      && (forall k :: 0 <= k < |SeedCategories| ==> FindCategory(r, SeedCategories[k]) == Found(cs.keys[k]))
  {
    var us := SeedUserList(db, SeedUsers);
    var cs := SeedCategoryList(us.db, SeedCategories);
    HandleFirstPhases(db);
    var sellers := SellersAmong(cs.db.users, us.keys);
    var r := Handle(db).db;
    if sellers != [] {
      SeedProductListEffect(cs.db, ProductRows(cs.keys, sellers), "");
    }
    assert r.users == cs.db.users && r.nextUser == cs.db.nextUser;
    assert r.categories == cs.db.categories && r.nextCategory == cs.db.nextCategory;
    forall k | 0 <= k < |SeedUsers|
      ensures FindUser(r, SeedUsers[k].username) == Found(us.keys[k])
    {
      assert FindUser(r, SeedUsers[k].username) == FindUser(cs.db, SeedUsers[k].username);
    }
    forall k | 0 <= k < |SeedCategories|
      ensures FindCategory(r, SeedCategories[k]) == Found(cs.keys[k])
    {
      assert FindCategory(r, SeedCategories[k]) == FindCategory(cs.db, SeedCategories[k]);
    }
  }

  /** When the seeded names are all found, the users and categories loops change nothing and get the found keys. */
  lemma ReplayFirstPhases(db: Db, userKeys: seq<UserId>, catKeys: seq<CategoryId>)
    requires |userKeys| == |SeedUsers| && |catKeys| == |SeedCategories|
    requires forall k :: 0 <= k < |SeedUsers| ==> FindUser(db, SeedUsers[k].username) == Found(userKeys[k])
    requires forall k :: 0 <= k < |SeedCategories| ==> FindCategory(db, SeedCategories[k]) == Found(catKeys[k])
    ensures SeedUserList(db, SeedUsers) == Batch(db, Pass, userKeys)
    ensures SeedCategoryList(db, SeedCategories) == Batch(db, Pass, catKeys)
  {
    SeedUserListReplay(db, SeedUsers);
    SeedCategoryListReplay(db, SeedCategories);
    assert SeedUserList(db, SeedUsers).keys == userKeys;
    assert SeedCategoryList(db, SeedCategories).keys == catKeys;
  }

  /**
   * Running the command a second time after a run that succeeded leaves the
   * store exactly as the first run left it, and succeeds: every user,
   * category and product the command looks for is then found.
   */
  lemma HandleIdempotent(db: Db)
    ensures Handle(db).outcome == Pass ==> Handle(Handle(db).db) == Saved(Handle(db).db, Pass)
  {
    if Handle(db).outcome == Pass {
      var us := SeedUserList(db, SeedUsers);
      var cs := SeedCategoryList(us.db, SeedCategories);
      var db1 := Handle(db).db;
      HandleFindsUsersAndCategories(db);
      ReplayFirstPhases(db1, us.keys, cs.keys);
      var sellers := SellersAmong(cs.db.users, us.keys);
      if sellers != [] {
        var rows := ProductRows(cs.keys, sellers);
        SeedProductListEffect(cs.db, rows, "");
        SeedProductListReplay(db1, rows);
      }
    }
  }

  /** When none of the users got is a seller, the command stops before the products: no product is created. */
  lemma HandleWithoutSellers(db: Db)
    ensures var us := SeedUserList(db, SeedUsers);
      us.outcome == Pass && (forall k :: 0 <= k < |us.keys| && us.keys[k] in us.db.users ==> us.db.users[us.keys[k]].role != Seller) ==>
        Handle(db).db.products == db.products && Handle(db).db.nextProduct == db.nextProduct
  {
    var us := SeedUserList(db, SeedUsers);
    SeedUserListEffect(db, SeedUsers, "");
    SeedCategoryListEffect(us.db, SeedCategories, "");
    var cs := SeedCategoryList(us.db, SeedCategories);
    if us.outcome == Pass && (forall k :: 0 <= k < |us.keys| && us.keys[k] in us.db.users ==> us.db.users[us.keys[k]].role != Seller) {
      var sellers := SellersAmong(cs.db.users, us.keys);
      if sellers != [] {
        SellersAmongExact(cs.db.users, us.keys, sellers[0]);
        assert false;
      }
    }
  }

  /** Users stored before the command are left unchanged, password included, whether or not the command succeeds. */
  lemma HandleKeepsExistingUsers(db: Db, k: UserId)
    requires k in db.users && k < db.nextUser
    ensures k in Handle(db).db.users && Handle(db).db.users[k] == db.users[k]
  {
    var us := SeedUserList(db, SeedUsers);
    SeedUserListEffect(db, SeedUsers, "");
    SeedCategoryListEffect(us.db, SeedCategories, "");
    var cs := SeedCategoryList(us.db, SeedCategories);
    if us.outcome == Pass && cs.outcome == Pass {
      var sellers := SellersAmong(cs.db.users, us.keys);
      if sellers != [] {
        SeedProductListEffect(cs.db, ProductRows(cs.keys, sellers), "");
      }
    }
  }

  /**
   * A product of the seed list that did not exist before a successful run is
   * created with its position's defaults, from the categories got and the
   * sellers among the users got.
   */
  lemma HandleCreatesDefaults(db: Db, j: nat)
    requires j < ProductCount
    requires FindProduct(db, ProductName(j)) == Missing
    requires Handle(db).outcome == Pass
    ensures var us := SeedUserList(db, SeedUsers);
      var cs := SeedCategoryList(us.db, SeedCategories);
      var sellers := SellersAmong(cs.db.users, us.keys);
      var r := Handle(db).db;
      sellers != [] ==>
        && FindProduct(r, ProductName(j)).Found?
        && r.products[FindProduct(r, ProductName(j)).key] == ProductDefaults(j, cs.keys, sellers)
  {
    var us := SeedUserList(db, SeedUsers);
    var cs := SeedCategoryList(us.db, SeedCategories);
    HandleFirstPhases(db);
    var sellers := SellersAmong(cs.db.users, us.keys);
    if sellers != [] {
      var rows := ProductRows(cs.keys, sellers);
      ProductRowsFormulas(cs.keys, sellers, j);
      assert rows[j].name == ProductName(j);
      assert FindProduct(cs.db, ProductName(j)) == FindProduct(db, ProductName(j));
      SeedProductCreated(cs.db, rows, j);
    }
  }

  // ---------------------------------------------------------------------------
  // Integrity of the store

  /**
   * A user get-or-create keeps a valid store valid: a new user's username is
   * unused, since none was found. A key it returns is a stored user.
   */
  lemma GetOrCreateUserKeepsValid(db: Db, u: UserSeed)
    requires Valid(db)
    ensures var g := GetOrCreateUser(db, u);
      && Valid(g.db)
      && db.users.Keys <= g.db.users.Keys
      && (g.outcome == Pass ==> g.key in g.db.users)
  {
    var g := GetOrCreateUser(db, u);
    FoundUserIsStored(db, u.username);
    if FindUser(db, u.username) == Missing {
      forall v | v in db.users
        ensures db.users[v].username != u.username
      {
        MissingIsAbsent(UserNames(db.users), u.username, db.nextUser, v);
      }
      assert UsersValid(g.db);
      assert ProductsValid(g.db);
      assert OrdersValid(g.db);
    }
  }

  /** A category get-or-create keeps a valid store valid, and a key it returns is a stored category. */
  lemma GetOrCreateCategoryKeepsValid(db: Db, name: string)
    requires Valid(db)
    ensures var g := GetOrCreateCategory(db, name);
      && Valid(g.db)
      && g.db.users == db.users
      && (g.outcome == Pass ==> g.key in g.db.categories)
  {
    var g := GetOrCreateCategory(db, name);
    FoundCategoryIsStored(db, name);
    if FindCategory(db, name) == Missing {
      assert ProductsValid(g.db);
    }
  }

  /** A product get-or-create whose defaults fit the store keeps it valid. */
  lemma GetOrCreateProductKeepsValid(db: Db, row: Product)
    requires Valid(db) && ProductFits(db, row)
    ensures Valid(GetOrCreateProduct(db, row).db)
  {
    var g := GetOrCreateProduct(db, row);
    if FindProduct(db, row.name) == Missing {
      assert ProductsValid(g.db);
      assert ItemsValid(g.db);
    }
  }

  /** The users loop keeps a valid store valid, and every key it got is a stored user. */
  lemma {:induction false} SeedUserListKeepsValid(db: Db, us: seq<UserSeed>)
    requires Valid(db)
    ensures var r := SeedUserList(db, us);
      && Valid(r.db)
      && forall k :: 0 <= k < |r.keys| ==> r.keys[k] in r.db.users
    decreases |us|
  {
    if us != [] {
      var prev := SeedUserList(db, us[..|us| - 1]);
      SeedUserListKeepsValid(db, us[..|us| - 1]);
      if prev.outcome == Pass {
        GetOrCreateUserKeepsValid(prev.db, us[|us| - 1]);
      }
    }
  }

  /** The categories loop keeps a valid store valid and its users, and every key it got is a stored category. */
  lemma {:induction false} SeedCategoryListKeepsValid(db: Db, names: seq<string>)
    requires Valid(db)
    ensures var r := SeedCategoryList(db, names);
      && Valid(r.db)
      && r.db.users == db.users
      && forall k :: 0 <= k < |r.keys| ==> r.keys[k] in r.db.categories
    decreases |names|
  {
    if names != [] {
      var prev := SeedCategoryList(db, names[..|names| - 1]);
      SeedCategoryListKeepsValid(db, names[..|names| - 1]);
      if prev.outcome == Pass {
        GetOrCreateCategoryKeepsValid(prev.db, names[|names| - 1]);
      }
    }
  }

  /** The products loop keeps a valid store valid when every row fits it, and leaves users and categories alone. */
  lemma {:induction false} SeedProductListKeepsValid(db: Db, rows: seq<Product>)
    requires Valid(db)
    requires forall j :: 0 <= j < |rows| ==> ProductFits(db, rows[j])
    ensures var r := SeedProductList(db, rows);
      && Valid(r.db)
      && r.db.users == db.users
      && r.db.categories == db.categories
    decreases |rows|
  {
    if rows != [] {
      var init := rows[..|rows| - 1];
      assert forall j :: 0 <= j < |init| ==> init[j] == rows[j];
      SeedProductListKeepsValid(db, init);
      var prev := SeedProductList(db, init);
      if prev.outcome == Pass {
        var row := rows[|rows| - 1];
        assert ProductFits(prev.db, row);
        GetOrCreateProductKeepsValid(prev.db, row);
      }
    }
  }

  /**
   * The command keeps a valid store valid, whether it finishes or raises: each
   * product it creates is sold by a seeded seller and lies in a seeded category.
   */
  lemma HandleKeepsValid(db: Db)
    requires Valid(db)
    ensures Valid(Handle(db).db)
  {
    var us := SeedUserList(db, SeedUsers);
    SeedUserListKeepsValid(db, SeedUsers);
    if us.outcome == Pass {
      var cs := SeedCategoryList(us.db, SeedCategories);
      SeedCategoryListKeepsValid(us.db, SeedCategories);
      var sellers := SellersAmong(cs.db.users, us.keys);
      if cs.outcome == Pass && sellers != [] {
        var rows := ProductRows(cs.keys, sellers);
        forall j | 0 <= j < |rows|
          ensures ProductFits(cs.db, rows[j])
        {
          var x := sellers[(j / 2 + 1 + j % 2) % |sellers|];
          SellersAmongExact(cs.db.users, us.keys, x);
          assert rows[j] == ProductDefaults(j, cs.keys, sellers);
          assert cs.keys[j / 2] in cs.db.categories;
        }
        SeedProductListKeepsValid(cs.db, rows);
      }
    }
  }
}
