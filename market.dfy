/**
 * The marketplace's request handlers as transitions of one store: the four
 * tables, the id counters the database hands out, a logical clock standing
 * for `datetime.utcnow`, and the browser session's `user_id`. Each handler is
 * one atomic transition (one `db.session.commit()`); its result is the page
 * data or the error the handler turns into a redirect.
 */
module Market {
  import opened Records
  import Text
  import Auth
  import Catalog
  import Cart

  /** Users `a` and `b` are both stored, under the same e-mail. The uniqueness invariants below quantify over pairs
      with such a predicate as their trigger, so that a proof instantiates them only for the pairs it names. */
  ghost predicate SameEmail(users: map<Id, User>, a: Id, b: Id) {
    a in users && b in users && users[a].email == users[b].email
  }

  /** Items `a` and `b` are both stored, for the same user and the same product. */
  ghost predicate SameLine(items: map<Id, CartItem>, a: Id, b: Id) {
    a in items && b in items && items[a].userId == items[b].userId && items[a].productId == items[b].productId
  }

  /** `e` is its own e-mail key, as every e-mail `signup` stores is. */
  ghost predicate Normalized(e: string) {
    Text.NormalizeEmail(e) == e
  }

  /** Users are stored under their ids, under normalised e-mails, and no two share an e-mail. */
  ghost predicate UsersOk(users: map<Id, User>, nextUserId: nat) {
    && 0 < nextUserId
    && (forall id :: id in users ==> users[id].id == id && 0 < id < nextUserId)
    && (forall id {:trigger Normalized(users[id].email)} :: id in users ==> Normalized(users[id].email))
    && (forall a, b {:trigger SameEmail(users, a, b)} :: SameEmail(users, a, b) ==> a == b)
  }

  /** Products are stored under their ids, belong to existing users, and were created in id order before `now`. */
  ghost predicate ProductsOk(products: map<Id, Product>, users: map<Id, User>, nextProductId: nat, now: nat) {
    && 0 < nextProductId
    && Catalog.KeyedById(products)
    && Catalog.IdsBelow(products, nextProductId)
    && Catalog.Chronological(products)
    && (forall id :: id in products ==> 0 < id && products[id].ownerId in users)
    && (forall id {:trigger products[id].createdAt} :: id in products ==> products[id].createdAt < now)
  }

  /** Cart items are stored under their ids, refer to existing users and products, hold at least one unit,
      and there is at most one item per (user, product). */
  ghost predicate CartOk(items: map<Id, CartItem>, users: map<Id, User>, products: map<Id, Product>, nextCartId: nat) {
    && 0 < nextCartId
    && Cart.ItemsKeyedById(items)
    && Cart.ItemsPriced(items, products)
    && (forall id :: id in items ==> 0 < id < nextCartId && items[id].userId in users && items[id].qty >= 1)
    && (forall a, b {:trigger SameLine(items, a, b)} :: SameLine(items, a, b) ==> a == b)
  }

  /** The purchase table is append-only: row `i` has id `i + 1`, refers to an existing user and product,
      and rows were written in time order before `now`. */
  ghost predicate PurchasesOk(purchases: seq<Purchase>, users: map<Id, User>, products: map<Id, Product>, now: nat) {
    && (forall i :: 0 <= i < |purchases| ==>
          purchases[i].id == i + 1 && purchases[i].userId in users && purchases[i].productId in products)
    && (forall i {:trigger purchases[i].purchasedAt} :: 0 <= i < |purchases| ==> purchases[i].purchasedAt < now)
    && Cart.TimesIncrease(purchases)
  }

  /** The invariant of the whole store: each table's own, over the tables and counters given. */
  ghost predicate TablesOk(users: map<Id, User>, products: map<Id, Product>, items: map<Id, CartItem>,
    purchases: seq<Purchase>, nextUserId: nat, nextProductId: nat, nextCartId: nat, now: nat)
  {
    && UsersOk(users, nextUserId)
    && ProductsOk(products, users, nextProductId, now)
    && CartOk(items, users, products, nextCartId)
    && PurchasesOk(purchases, users, products, now)
  }

  /** Editing a product's own fields, keeping its id, owner and creation time, keeps every table's invariant. */
  lemma ProductEditKeeps(
    users: map<Id, User>, products: map<Id, Product>, items: map<Id, CartItem>, purchases: seq<Purchase>,
    nextProductId: nat, nextCartId: nat, now: nat, p: Product)
    requires ProductsOk(products, users, nextProductId, now)
    requires CartOk(items, users, products, nextCartId) && PurchasesOk(purchases, users, products, now)
    requires p.id in products && p.ownerId == products[p.id].ownerId && p.createdAt == products[p.id].createdAt
    ensures ProductsOk(products[p.id := p], users, nextProductId, now)
    ensures CartOk(items, users, products[p.id := p], nextCartId)
    ensures PurchasesOk(purchases, users, products[p.id := p], now)
  {
    var ps := products[p.id := p];
    forall a, b | Catalog.ListedBefore(ps, a, b) ensures ps[a].createdAt < ps[b].createdAt {
      assert Catalog.ListedBefore(products, a, b);
    }
  }

  /** Adding a product under the next id, stamped now, and advancing the id counter and the clock keeps every
      table's invariant. */
  lemma ProductAddKeeps(
    users: map<Id, User>, products: map<Id, Product>, items: map<Id, CartItem>, purchases: seq<Purchase>,
    nextProductId: nat, nextCartId: nat, now: nat, p: Product)
    requires ProductsOk(products, users, nextProductId, now)
    requires CartOk(items, users, products, nextCartId) && PurchasesOk(purchases, users, products, now)
    requires p.id == nextProductId && p.createdAt == now && p.ownerId in users
    ensures ProductsOk(products[p.id := p], users, nextProductId + 1, now + 1)
    ensures CartOk(items, users, products[p.id := p], nextCartId)
    ensures PurchasesOk(purchases, users, products[p.id := p], now + 1)
  {
    var ps := products[p.id := p];
    forall a, b | Catalog.ListedBefore(ps, a, b) ensures ps[a].createdAt < ps[b].createdAt {
      if b == p.id {
        assert ps[a] == products[a] && products[a].createdAt < now;
      } else {
        assert Catalog.ListedBefore(products, a, b);
      }
    }
  }

  /** Removing a product that no cart item and no purchase refers to keeps every table's invariant. */
  lemma ProductRemoveKeeps(
    users: map<Id, User>, products: map<Id, Product>, items: map<Id, CartItem>, purchases: seq<Purchase>,
    nextProductId: nat, nextCartId: nat, now: nat, id: Id)
    requires ProductsOk(products, users, nextProductId, now)
    requires CartOk(items, users, products, nextCartId) && PurchasesOk(purchases, users, products, now)
    requires forall c :: c in items ==> items[c].productId != id
    requires forall i :: 0 <= i < |purchases| ==> purchases[i].productId != id
    ensures ProductsOk(products - {id}, users, nextProductId, now)
    ensures CartOk(items, users, products - {id}, nextCartId)
    ensures PurchasesOk(purchases, users, products - {id}, now)
  {
    var ps := products - {id};
    forall a, b | Catalog.ListedBefore(ps, a, b) ensures ps[a].createdAt < ps[b].createdAt {
      assert Catalog.ListedBefore(products, a, b);
    }
  }

  /** A product added under an id above every other heads its owner's listings and the unfiltered feed. */
  lemma ListingsAfterAdd(products: map<Id, Product>, p: Product)
    requires Catalog.IdsBelow(products, p.id)
    ensures var owned := Catalog.OwnedBy(p.ownerId);
      Catalog.NewestFirst(products[p.id := p], owned, p.id + 1) == [p] + Catalog.NewestFirst(products, owned, p.id)
    ensures var all := Catalog.Search([], []);
      Catalog.NewestFirst(products[p.id := p], all, p.id + 1) == [p] + Catalog.NewestFirst(products, all, p.id)
  {
    Catalog.NewestAddedFirst(products, Catalog.OwnedBy(p.ownerId), p);
    Catalog.NewestAddedFirst(products, Catalog.Search([], []), p);
  }

  /** One more unit on an existing item keeps the cart's invariant. */
  lemma ItemIncrementKeeps(
    users: map<Id, User>, products: map<Id, Product>, items: map<Id, CartItem>, nextCartId: nat, id: Id)
    requires CartOk(items, users, products, nextCartId)
    requires id in items
    ensures CartOk(items[id := items[id].(qty := items[id].qty + 1)], users, products, nextCartId)
  {
    var items' := items[id := items[id].(qty := items[id].qty + 1)];
    forall a, b | SameLine(items', a, b) ensures a == b {
      assert SameLine(items, a, b);
    }
  }

  /** A new one-unit item under the next id, for a (user, product) pair with no item yet, keeps the cart's invariant. */
  lemma ItemAddKeeps(
    users: map<Id, User>, products: map<Id, Product>, items: map<Id, CartItem>, nextCartId: nat, item: CartItem)
    requires CartOk(items, users, products, nextCartId)
    requires item.id == nextCartId && item.userId in users && item.productId in products && item.qty == 1
    requires forall c :: c in items ==> items[c].userId != item.userId || items[c].productId != item.productId
    ensures CartOk(items[item.id := item], users, products, nextCartId + 1)
  {
    var items' := items[item.id := item];
    forall a, b | SameLine(items', a, b) ensures a == b {
      if a != item.id && b != item.id {
        assert SameLine(items, a, b);
      }
    }
  }

  /** Checkout takes every one of the user's items out of the cart and no one else's, so the user's cart is then
      empty, and what is left still keeps the cart's invariant. */
  lemma CheckoutRemoves(
    users: map<Id, User>, products: map<Id, Product>, items: map<Id, CartItem>, nextCartId: nat, uid: Id,
    remaining: map<Id, CartItem>)
    requires CartOk(items, users, products, nextCartId)
    requires remaining == items - Cart.Ids(Cart.Lines(items, uid, nextCartId))
    ensures remaining == items - Cart.UserItemIds(items, uid)
    ensures Cart.Lines(remaining, uid, nextCartId) == []
    ensures CartOk(remaining, users, products, nextCartId)
  {
    Cart.LinesIds(items, uid, nextCartId);
    Cart.LinesNone(remaining, uid, nextCartId);
    ItemsRemoveKeeps(users, products, items, nextCartId, Cart.UserItemIds(items, uid));
  }

  /** Appending checkout's rows, which carry the next ids and the next ticks of the clock, and moving the clock
      past them keeps the purchase and product invariants. */
  lemma CheckoutAppendKeeps(
    users: map<Id, User>, products: map<Id, Product>, purchases: seq<Purchase>, nextProductId: nat, now: nat,
    uid: Id, lines: seq<CartItem>, rows: seq<Purchase>)
    requires ProductsOk(products, users, nextProductId, now) && PurchasesOk(purchases, users, products, now)
    requires uid in users && Cart.Priced(lines, products)
    requires rows == Cart.Rows(lines, products, uid, |purchases| + 1, now)
    ensures (purchases + rows)[|purchases|..] == rows
    ensures ProductsOk(products, users, nextProductId, now + |rows|)
    ensures PurchasesOk(purchases + rows, users, products, now + |rows|)
  {
    Cart.RowsShape(lines, products, uid, |purchases| + 1, now);
    assert (purchases + rows)[|purchases|..] == rows;
    var ps := purchases + rows;
    Cart.AppendTimesIncrease(purchases, rows, now);
    forall j | 0 <= j < |ps| ensures ps[j].id == j + 1 && ps[j].userId in users && ps[j].productId in products
      && ps[j].purchasedAt < now + |rows|
    {
      if j >= |purchases| {
        assert ps[j] == rows[j - |purchases|];
      }
    }
  }

  /** The rows checkout writes for the user's cart record exactly the user's cart total. */
  lemma CheckoutCharges(items: map<Id, CartItem>, products: map<Id, Product>, uid: Id, k: nat, id0: nat, t0: nat)
    requires Cart.ItemsKeyedById(items) && Cart.ItemsPriced(items, products)
    ensures Cart.Priced(Cart.Lines(items, uid, k), products)
    ensures Cart.Charged(Cart.Rows(Cart.Lines(items, uid, k), products, uid, id0, t0))
      == Cart.UserTotal(items, products, uid, k)
  {
    Cart.LinesTotal(items, products, uid, k);
    Cart.RowsChargeTotal(Cart.Lines(items, uid, k), products, uid, id0, t0);
  }

  /** One more unit on one of the user's items raises the user's total by that product's price. */
  lemma IncrementTotal(items: map<Id, CartItem>, products: map<Id, Product>, uid: Id, id: Id, k: nat)
    requires Cart.ItemsPriced(items, products)
    requires id in items && items[id].userId == uid && id < k
    ensures var items' := items[id := items[id].(qty := items[id].qty + 1)];
      && Cart.ItemsPriced(items', products)
      && Cart.UserTotal(items', products, uid, k) == Cart.UserTotal(items, products, uid, k) + products[items[id].productId].price
  {
    var items' := items[id := items[id].(qty := items[id].qty + 1)];
    Cart.TotalAfterChange(items, items', products, uid, id, k);
  }

  /** A new one-unit item for the user, under the next id, raises the user's total by that product's price. */
  lemma NewItemTotal(items: map<Id, CartItem>, products: map<Id, Product>, item: CartItem, k: nat)
    requires Cart.ItemsPriced(items, products)
    requires k !in items && item.id == k && item.productId in products && item.qty == 1
    ensures var items' := items[k := item];
      && Cart.ItemsPriced(items', products)
      && Cart.UserTotal(items', products, item.userId, k + 1)
         == Cart.UserTotal(items, products, item.userId, k) + products[item.productId].price
  {
    Cart.TotalAfterChange(items, items[k := item], products, item.userId, k, k);
  }

  /** Registering a user under the next id with an e-mail no one has keeps the user table's invariant. */
  lemma UserAddKeeps(users: map<Id, User>, nextUserId: nat, u: User)
    requires UsersOk(users, nextUserId)
    requires u.id == nextUserId && !EmailTaken(users, u.email) && Text.NormalizeEmail(u.email) == u.email
    ensures UsersOk(users[u.id := u], nextUserId + 1)
  {
    var us := users[u.id := u];
    forall a, b | SameEmail(us, a, b) ensures a == b {
      if a != u.id && b != u.id {
        assert SameEmail(users, a, b);
      }
    }
  }

  /** Changing a user's profile fields, keeping the id and the e-mail, keeps the user table's invariant. */
  lemma UserEditKeeps(users: map<Id, User>, nextUserId: nat, u: User)
    requires UsersOk(users, nextUserId)
    requires u.id in users && u.email == users[u.id].email
    ensures UsersOk(users[u.id := u], nextUserId)
  {
    var us := users[u.id := u];
    forall a, b | SameEmail(us, a, b) ensures a == b {
      assert SameEmail(users, a, b);
    }
  }

  /** Removing items keeps the cart's invariant. */
  lemma ItemsRemoveKeeps(
    users: map<Id, User>, products: map<Id, Product>, items: map<Id, CartItem>, nextCartId: nat, ids: set<Id>)
    requires CartOk(items, users, products, nextCartId)
    ensures CartOk(items - ids, users, products, nextCartId)
  {
    forall a, b | SameLine(items - ids, a, b) ensures a == b {
      assert SameLine(items, a, b);
    }
  }

  /** `User.query.filter_by(email=e).first()` finds a row. */
  predicate EmailTaken(users: map<Id, User>, e: string) {
    exists id :: id in users && users[id].email == e
  }

  /** Python's `value or fallback` on a stripped form field. */
  function OrElse(s: string, fallback: string): string {
    if s == [] then fallback else s
  }

  /** The product `add_product` stores: the stripped fields, "General" for a blank category, the placeholder for a
      blank image URL. */
  function Listing(id: Id, title: string, category: string, description: string, price: int, imageUrl: string,
                   createdAt: nat, ownerId: Id): (p: Product)
    ensures p.id == id && p.price == price && p.createdAt == createdAt && p.ownerId == ownerId
    ensures p.category != [] && p.imageUrl != []
  {
    Product(id, Text.Strip(title), OrElse(Text.Strip(category), DefaultCategory), Text.Strip(description),
      price, OrElse(Text.Strip(imageUrl), PlaceholderImageUrl), createdAt, ownerId)
  }

  /** What `add_product` stores for each text field: the stripped input, except that a category made only of
      spaces becomes "General" and an image URL made only of spaces becomes the placeholder. */
  lemma ListingDefaults(id: Id, title: string, category: string, description: string, price: int, imageUrl: string,
                        createdAt: nat, ownerId: Id)
    ensures var p := Listing(id, title, category, description, price, imageUrl, createdAt, ownerId);
      && p.title == Text.Strip(title) && p.description == Text.Strip(description)
      && p.category == (if forall k :: 0 <= k < |category| ==> Text.IsSpace(category[k])
                        then DefaultCategory else Text.Strip(category))
      && p.imageUrl == (if forall k :: 0 <= k < |imageUrl| ==> Text.IsSpace(imageUrl[k])
                        then PlaceholderImageUrl else Text.Strip(imageUrl))
  {
    Text.StripBlank(category);
    Text.StripBlank(imageUrl);
  }

  /** `request.form.get(field, current)`: a field that is present replaces the current value. */
  function GetOr(field: Option<string>, current: string): string {
    match field
    case Some(v) => v
    case None => current
  }

  /** The inner loop of `checkout`: one purchase row per unit of a cart line, each with the next id and the next
      tick of the clock, at the price given. */
  method AppendUnits(rows: seq<Purchase>, uid: Id, productId: Id, price: int, id: nat, clock: nat, qty: nat)
    returns (rows': seq<Purchase>)
    ensures rows' == rows + Cart.Units(uid, productId, price, id, clock, qty)
  {
    rows' := rows;
    var n := 0;
    while n < qty
      invariant 0 <= n <= qty
      invariant rows' == rows + Cart.Units(uid, productId, price, id, clock, n)
    {
      rows' := rows' + [Purchase(id + n, uid, productId, price, clock + n)];
      n := n + 1;
    }
  }

  /** Deleting the items of one more cart line is deleting that line's item from what the earlier lines left. */
  lemma DeleteNext(items: map<Id, CartItem>, lines: seq<CartItem>, i: nat)
    requires i < |lines|
    ensures items - Cart.Ids(lines[..i + 1]) == (items - Cart.Ids(lines[..i])) - {lines[i].id}
  {
    assert lines[..i + 1][..i] == lines[..i];
  }

  /** The loops of `checkout`, staged before the commit: for each cart line in turn, one purchase row per unit at the
      product's current price, the rows taking consecutive ids from `id0` and ticks from `t0`; each line's item is
      deleted once its rows are staged. */
  method StageRows(
    lines: seq<CartItem>, products: map<Id, Product>, items: map<Id, CartItem>, uid: Id, id0: nat, t0: nat)
    returns (rows: seq<Purchase>, remaining: map<Id, CartItem>)
    requires Cart.Priced(lines, products)
    ensures rows == Cart.Rows(lines, products, uid, id0, t0)
    ensures |rows| == Cart.SumQty(lines)
    ensures remaining == items - Cart.Ids(lines)
  {
    rows, remaining := [], items;
    var clock := t0;
    var i := 0;
    while i < |lines|
      invariant 0 <= i <= |lines|
      invariant Cart.Priced(lines[..i], products)
      invariant rows == Cart.Rows(lines[..i], products, uid, id0, t0)
      invariant |rows| == Cart.SumQty(lines[..i]) && clock == t0 + |rows|
      invariant remaining == items - Cart.Ids(lines[..i])
    {
      var line := lines[i];
      ghost var before := rows;
      rows := AppendUnits(rows, uid, line.productId, products[line.productId].price, id0 + |rows|, clock, line.qty);
      clock := clock + line.qty;
      Cart.RowsStep(lines, products, uid, id0, t0, i, [], before, rows);
      DeleteNext(items, lines, i);
      remaining := remaining - {line.id};
      i := i + 1;
    }
    assert lines[..i] == lines;
  }

  /** What `checkout` does to the tables, for user `uid` with the cart table `items` and item ids below `k`:
      one purchase row per unit of each of the user's items, in item order, at the product's current price, with
      the next ids and the next ticks of the clock; every one of the user's items, and no one else's, leaves the
      cart; and the new rows charge exactly the cart's total. */
  ghost predicate CheckedOut(
    products: map<Id, Product>, items: map<Id, CartItem>, purchases: seq<Purchase>, now: nat, uid: Id, k: nat,
    items': map<Id, CartItem>, purchases': seq<Purchase>, now': nat)
  {
    var lines := Cart.Lines(items, uid, k);
    && Cart.ItemsPriced(items, products)
    && Cart.Priced(lines, products)
    && purchases' == purchases + Cart.Rows(lines, products, uid, |purchases| + 1, now)
    && |purchases'| == |purchases| + Cart.SumQty(lines)
    && now' == now + Cart.SumQty(lines)
    && items' == items - Cart.UserItemIds(items, uid)
    && Cart.Charged(purchases'[|purchases|..]) == Cart.UserTotal(items, products, uid, k)
    && Cart.Lines(items', uid, k) == []
  }

  /** `checkout` on the tables: the user's cart lines, staged by `StageRows` with the next purchase ids and the next
      ticks of the clock. Every one of the user's items goes and no one else's, the rows record exactly the cart
      total, and the tables keep their invariants. */
  method StageCheckout(
    users: map<Id, User>, products: map<Id, Product>, items: map<Id, CartItem>, purchases: seq<Purchase>,
    nextProductId: nat, nextCartId: nat, now: nat, uid: Id, nextUserId: nat)
    returns (purchases': seq<Purchase>, items': map<Id, CartItem>, now': nat)
    requires TablesOk(users, products, items, purchases, nextUserId, nextProductId, nextCartId, now)
    requires uid in users
    ensures CheckedOut(products, items, purchases, now, uid, nextCartId, items', purchases', now')
    ensures TablesOk(users, products, items', purchases', nextUserId, nextProductId, nextCartId, now')
  {
    var lines := Cart.Lines(items, uid, nextCartId);
    Cart.LinesPriced(items, products, uid, nextCartId);
    var rows, remaining := StageRows(lines, products, items, uid, |purchases| + 1, now);
    CheckoutRemoves(users, products, items, nextCartId, uid, remaining);
    CheckoutAppendKeeps(users, products, purchases, nextProductId, now, uid, lines, rows);
    CheckoutCharges(items, products, uid, nextCartId, |purchases| + 1, now);
    purchases', items', now' := purchases + rows, remaining, now + |rows|;
  }

  /** `CartItem.query.filter_by(user_id=uid, product_id=pid).first()` finds a row. */
  predicate HasItem(items: map<Id, CartItem>, uid: Id, productId: Id) {
    exists id :: id in items && items[id].userId == uid && items[id].productId == productId
  }

  /** `cart_add` on the cart table, for an existing user and product: the item to store, which is the user's item
      for the product with one more unit, or a new one-unit item under the next id, and the id counter after it.
      Storing it keeps the cart's invariant and raises the user's total by the product's price. */
  method StageCartAdd(
    users: map<Id, User>, products: map<Id, Product>, items: map<Id, CartItem>, nextCartId: nat, uid: Id, productId: Id)
    returns (item: CartItem, nextCartId': nat)
    requires CartOk(items, users, products, nextCartId) && uid in users && productId in products
    ensures HasItem(items, uid, productId) <==> item.id in items
    ensures item.id in items ==>
      && items[item.id].userId == uid && items[item.id].productId == productId
      && item == CartItem(item.id, uid, productId, items[item.id].qty + 1) && nextCartId' == nextCartId
    ensures item.id !in items ==> item == CartItem(nextCartId, uid, productId, 1) && nextCartId' == nextCartId + 1
    ensures CartOk(items[item.id := item], users, products, nextCartId')
    ensures Cart.UserTotal(items[item.id := item], products, uid, nextCartId')
      == Cart.UserTotal(items, products, uid, nextCartId) + products[productId].price
  {
    if HasItem(items, uid, productId) {
      var id :| id in items && items[id].userId == uid && items[id].productId == productId;
      ItemIncrementKeeps(users, products, items, nextCartId, id);
      IncrementTotal(items, products, uid, id, nextCartId);
      item, nextCartId' := items[id].(qty := items[id].qty + 1), nextCartId;
    } else {
      item := CartItem(nextCartId, uid, productId, 1);
      ItemAddKeeps(users, products, items, nextCartId, item);
      NewItemTotal(items, products, item, nextCartId);
      nextCartId' := nextCartId + 1;
    }
  }

  /** What the feed page shows. */
  datatype FeedPage = FeedPage(products: seq<Product>, categories: set<string>)

  /** What the cart page shows. */
  datatype CartPage = CartPage(lines: seq<CartItem>, total: int)

  class Marketplace {
    var users: map<Id, User>
    var products: map<Id, Product>
    var cartItems: map<Id, CartItem>
    var purchases: seq<Purchase>
    /** `session['user_id']` */
    var session: Option<Id>
    /** The logical clock that stamps `created_at` and `purchased_at`. */
    var now: nat
    var nextUserId: nat
    var nextProductId: nat
    var nextCartId: nat

    /** The store's invariant. It does not depend on the session. */
    ghost predicate Valid()
      reads this`users, this`products, this`cartItems, this`purchases, this`now
      reads this`nextUserId, this`nextProductId, this`nextCartId
    {
      TablesOk(users, products, cartItems, purchases, nextUserId, nextProductId, nextCartId, now)
    }

    /** `db.create_all()` on an empty database, with nobody logged in. */
    constructor ()
      ensures Valid()
      ensures users == map[] && products == map[] && cartItems == map[] && purchases == [] && session == None
    {
      users, products, cartItems, purchases := map[], map[], map[], [];
      session := None;
      now := 0;
      nextUserId, nextProductId, nextCartId := 1, 1, 1;
    }

    /** `current_user()`: the session's user, if that user exists. */
    function CurrentUser(): Option<Id>
      reads this`session, this`users
    {
      if session.Some? && session.value in users then session else None
    }

    // ----------------- Auth -----------------

    /** `signup` (POST). `salt` stands for the hashing library's randomness. */
    method Signup(email: string, password: string, salt: string) returns (r: Result<Id>)
      requires Valid()
      modifies this`users, this`nextUserId, this`session
      ensures Valid()
      ensures var e := Text.NormalizeEmail(email);
        if EmailTaken(old(users), e) then
          r == Err(Conflict) && users == old(users) && nextUserId == old(nextUserId) && session == old(session)
        else
          && r.Ok? && r.value !in old(users) && session == Some(r.value)
          && users == old(users)[r.value := User(r.value, e, Auth.Hash(salt, password), DefaultName, DefaultAvatarUrl, "", "")]
    {
      var e := Text.NormalizeEmail(email);
      if EmailTaken(users, e) {
        return Err(Conflict);
      }
      var id := nextUserId;
      Text.NormalizeEmailIdempotent(email);
      UserAddKeeps(users, nextUserId, User(id, e, Auth.Hash(salt, password), DefaultName, DefaultAvatarUrl, "", ""));
      users := users[id := User(id, e, Auth.Hash(salt, password), DefaultName, DefaultAvatarUrl, "", "")];
      nextUserId := nextUserId + 1;
      session := Some(id);
      r := Ok(id);
    }

    /** `login` (POST). A missing user and a wrong password give the same answer, and neither touches the session. */
    method Login(email: string, password: string) returns (r: Result<Id>)
      requires Valid()
      modifies this`session
      ensures Valid()
      ensures var e := Text.NormalizeEmail(email);
        && (r.Ok? <==> exists id :: id in users && users[id].email == e && Auth.Check(users[id].passwordHash, password))
        && (r.Ok? ==> r.value in users && users[r.value].email == e && session == Some(r.value))
        && (r.Err? ==> r == Err(BadCredentials) && session == old(session))
    {
      var e := Text.NormalizeEmail(email);
      if EmailTaken(users, e) {
        var id :| id in users && users[id].email == e;
        if Auth.Check(users[id].passwordHash, password) {
          session := Some(id);
          return Ok(id);
        }
        forall other | other in users && users[other].email == e ensures other == id {
          assert SameEmail(users, other, id);
        }
      }
      return Err(BadCredentials);
    }

    /** `logout`: forgets the session's user; doing it twice is doing it once. */
    method Logout()
      modifies this`session
      ensures session == None
    {
      session := None;
    }

    // ----------------- Catalogue -----------------

    /** `feed`: the products whose title contains the stripped `q` (ignoring case) and whose category is the
        stripped `category`, a blank one not filtering; newest first; with every category in use. */
    function Feed(q: string, category: string): (page: FeedPage)
      reads this
      requires Valid()
      ensures var sel := Catalog.Search(Text.Strip(q), Text.Strip(category));
        forall p :: p in page.products <==> p in products.Values && Catalog.Selects(sel, p)
      ensures Catalog.NewestToOldest(page.products) && Catalog.IdsDecrease(page.products)
      ensures forall c :: c in page.categories <==> exists id :: id in products && products[id].category == c
    {
      var sel := Catalog.Search(Text.Strip(q), Text.Strip(category));
      Catalog.NewestFirstMembers(products, sel, nextProductId);
      Catalog.NewestFirstOrdered(products, sel, nextProductId);
      Catalog.NewestFirstIdsDecrease(products, sel, nextProductId);
      FeedPage(Catalog.NewestFirst(products, sel, nextProductId), Catalog.Categories(products))
    }

    /** `product_detail`: `get_or_404`. */
    function ProductDetail(id: Id): (r: Result<Product>)
      reads this
      requires Valid()
      ensures r.Ok? <==> id in products
      ensures r.Ok? ==> r.value == products[id] && r.value.id == id
      ensures r.Err? ==> r.error == NotFound
    {
      if id in products then Ok(products[id]) else Err(NotFound)
    }

    /** `my_listings`: the current user's products, newest first. */
    function MyListings(): (r: Result<seq<Product>>)
      reads this
      requires Valid()
      ensures r.Err? <==> CurrentUser().None?
      ensures r.Err? ==> r.error == AuthRequired
      ensures r.Ok? ==> forall p :: p in r.value <==> p in products.Values && p.ownerId == session.value
      ensures r.Ok? ==> Catalog.NewestToOldest(r.value) && Catalog.IdsDecrease(r.value)
    {
      match CurrentUser()
      case None => Err(AuthRequired)
      case Some(uid) =>
        Catalog.NewestFirstMembers(products, Catalog.OwnedBy(uid), nextProductId);
        Catalog.NewestFirstOrdered(products, Catalog.OwnedBy(uid), nextProductId);
        Catalog.NewestFirstIdsDecrease(products, Catalog.OwnedBy(uid), nextProductId);
        Ok(Catalog.NewestFirst(products, Catalog.OwnedBy(uid), nextProductId))
    }

    /** `add_product` (POST): a blank category becomes "General" and a blank image URL the placeholder;
        the new listing is the current user's, under the next id, stamped with the current time
        (`ListingsAfterAdd` shows it then heads their listings and the unfiltered feed). */
    method AddProduct(title: string, category: string, description: string, price: int, imageUrl: string)
      returns (r: Result<Id>)
      requires Valid()
      modifies this`products, this`nextProductId, this`now
      ensures Valid()
      ensures old(CurrentUser()).None? ==> r == Err(AuthRequired) && products == old(products) && now == old(now)
      ensures old(CurrentUser()).Some? ==>
        && r.Ok? && r.value !in old(products) && now == old(now) + 1
        && products == old(products)[r.value := Listing(r.value, title, category, description, price, imageUrl, old(now), session.value)]
      ensures r.Err? ==> nextProductId == old(nextProductId)
      ensures r.Ok? ==> r.value == old(nextProductId) && nextProductId == r.value + 1
    {
      var user := CurrentUser();
      if user.None? {
        return Err(AuthRequired);
      }
      var id := nextProductId;
      var p := Listing(id, title, category, description, price, imageUrl, now, user.value);
      ProductAddKeeps(users, products, cartItems, purchases, nextProductId, nextCartId, now, p);
      products := products[id := p];
      nextProductId := nextProductId + 1;
      now := now + 1;
      r := Ok(id);
    }

    /** `edit_product` (POST): owner only; overwrites the text fields and the price with the stripped input, keeps
        the old image URL when the new one is blank, and never touches a purchase's recorded price. */
    method EditProduct(id: Id, title: string, category: string, description: string, price: int, imageUrl: string)
      returns (r: Result<()>)
      requires Valid()
      modifies this`products
      ensures Valid()
      ensures purchases == old(purchases)
      ensures old(CurrentUser()).None? ==> r == Err(AuthRequired)
      ensures old(CurrentUser()).Some? && id !in old(products) ==> r == Err(NotFound)
      ensures old(CurrentUser()).Some? && id in old(products) && old(products)[id].ownerId != session.value ==> r == Err(Forbidden)
      ensures r.Err? ==> products == old(products)
      ensures r.Ok? <==> old(CurrentUser()).Some? && id in old(products) && old(products)[id].ownerId == session.value
      ensures r.Ok? ==>
        products == old(products)[id := old(products)[id].(
             title := Text.Strip(title), category := Text.Strip(category), description := Text.Strip(description),
             price := price, imageUrl := OrElse(Text.Strip(imageUrl), old(products)[id].imageUrl))]
    {
      var user := CurrentUser();
      if user.None? {
        return Err(AuthRequired);
      }
      if id !in products {
        return Err(NotFound);
      }
      var p := products[id];
      if p.ownerId != user.value {
        return Err(Forbidden);
      }
      var edited := p.(
        title := Text.Strip(title), category := Text.Strip(category), description := Text.Strip(description),
        price := price, imageUrl := OrElse(Text.Strip(imageUrl), p.imageUrl));
      ProductEditKeeps(users, products, cartItems, purchases, nextProductId, nextCartId, now, edited);
      products := products[id := edited];
      r := Ok(());
    }

    /** Some cart item or purchase still refers to the product, so the database's foreign keys refuse its deletion. */
    predicate InUse(id: Id)
      reads this`cartItems, this`purchases
    {
      || (exists c :: c in cartItems && cartItems[c].productId == id)
      || (exists i :: 0 <= i < |purchases| && purchases[i].productId == id)
    }

    /** `delete_product`: owner only; a product that a cart item or a purchase still refers to stays. */
    method DeleteProduct(id: Id) returns (r: Result<()>)
      requires Valid()
      modifies this`products
      ensures Valid()
      ensures old(CurrentUser()).None? ==> r == Err(AuthRequired)
      ensures old(CurrentUser()).Some? && id !in old(products) ==> r == Err(NotFound)
      ensures old(CurrentUser()).Some? && id in old(products) && old(products)[id].ownerId != session.value ==> r == Err(Forbidden)
      ensures old(CurrentUser()).Some? && id in old(products) && old(products)[id].ownerId == session.value ==>
        if InUse(id) then r == Err(Referenced) else r == Ok(()) && products == old(products) - {id}
      ensures r.Err? ==> products == old(products)
    {
      var user := CurrentUser();
      if user.None? {
        return Err(AuthRequired);
      }
      if id !in products {
        return Err(NotFound);
      }
      if products[id].ownerId != user.value {
        return Err(Forbidden);
      }
      if InUse(id) {
        return Err(Referenced);
      }
      ProductRemoveKeeps(users, products, cartItems, purchases, nextProductId, nextCartId, now, id);
      products := products - {id};
      r := Ok(());
    }

    // ----------------- Cart & Purchases -----------------

    /** `cart`: the current user's items and their total at current prices. */
    function ViewCart(): (r: Result<CartPage>)
      reads this
      requires Valid()
      ensures r.Err? <==> CurrentUser().None?
      ensures r.Err? ==> r.error == AuthRequired
      ensures r.Ok? ==> forall l :: l in r.value.lines <==> l in cartItems.Values && l.userId == session.value
      ensures r.Ok? ==> forall i, j :: 0 <= i < j < |r.value.lines| ==> r.value.lines[i].id < r.value.lines[j].id
      ensures r.Ok? ==> Cart.Priced(r.value.lines, products) && r.value.total == Cart.Total(r.value.lines, products)
      ensures r.Ok? ==> r.value.total == Cart.UserTotal(cartItems, products, session.value, nextCartId)
    {
      match CurrentUser()
      case None => Err(AuthRequired)
      case Some(uid) =>
        Cart.LinesMembers(cartItems, uid, nextCartId);
        Cart.LinesAscending(cartItems, uid, nextCartId);
        Cart.LinesTotal(cartItems, products, uid, nextCartId);
        Ok(CartPage(Cart.Lines(cartItems, uid, nextCartId), Cart.UserTotal(cartItems, products, uid, nextCartId)))
    }

    /** `cart_add`: one more unit of an existing product; the user's item for it gains one, or is created with one. */
    method CartAdd(productId: Id) returns (r: Result<Id>)
      requires Valid()
      modifies this`cartItems, this`nextCartId
      ensures Valid()
      ensures old(CurrentUser()).None? ==> r == Err(AuthRequired)
      ensures old(CurrentUser()).Some? && productId !in products ==> r == Err(NotFound)
      ensures r.Err? ==> cartItems == old(cartItems) && nextCartId == old(nextCartId)
      ensures r.Ok? <==> old(CurrentUser()).Some? && productId in products
      ensures r.Ok? ==> r.value in cartItems && cartItems == old(cartItems)[r.value := cartItems[r.value]]
      ensures r.Ok? && r.value in old(cartItems) ==>
        && old(cartItems)[r.value].userId == session.value && old(cartItems)[r.value].productId == productId
        && cartItems[r.value] == old(cartItems)[r.value].(qty := old(cartItems)[r.value].qty + 1)
        && nextCartId == old(nextCartId)
      ensures r.Ok? && r.value !in old(cartItems) ==>
        && !HasItem(old(cartItems), session.value, productId)
        && r.value == old(nextCartId) && nextCartId == r.value + 1
        && cartItems[r.value] == CartItem(r.value, session.value, productId, 1)
      ensures r.Ok? ==>
        Cart.UserTotal(cartItems, products, session.value, nextCartId)
        == Cart.UserTotal(old(cartItems), products, session.value, old(nextCartId)) + products[productId].price
    {
      var user := CurrentUser();
      if user.None? {
        return Err(AuthRequired);
      }
      if productId !in products {
        return Err(NotFound);
      }
      var item, next := StageCartAdd(users, products, cartItems, nextCartId, user.value, productId);
      cartItems, nextCartId := cartItems[item.id := item], next;
      r := Ok(item.id);
    }

    /** `cart_remove`: only the item's owner may remove it; exactly that item goes. */
    method CartRemove(itemId: Id) returns (r: Result<()>)
      requires Valid()
      modifies this`cartItems
      ensures Valid()
      ensures old(CurrentUser()).None? ==> r == Err(AuthRequired)
      ensures old(CurrentUser()).Some? && itemId !in old(cartItems) ==> r == Err(NotFound)
      ensures old(CurrentUser()).Some? && itemId in old(cartItems) && old(cartItems)[itemId].userId != session.value ==>
        r == Err(Forbidden)
      ensures r.Err? ==> cartItems == old(cartItems)
      ensures r.Ok? <==>
        old(CurrentUser()).Some? && itemId in old(cartItems) && old(cartItems)[itemId].userId == session.value
      ensures r.Ok? ==>
        && cartItems == old(cartItems) - {itemId}
        && Cart.UserTotal(cartItems, products, session.value, nextCartId)
           == Cart.UserTotal(old(cartItems), products, session.value, nextCartId) - Cart.LineTotal(old(cartItems)[itemId], products)
    {
      var user := CurrentUser();
      if user.None? {
        return Err(AuthRequired);
      }
      if itemId !in cartItems {
        return Err(NotFound);
      }
      if cartItems[itemId].userId != user.value {
        return Err(Forbidden);
      }
      ghost var before := cartItems;
      ItemsRemoveKeeps(users, products, cartItems, nextCartId, {itemId});
      cartItems := cartItems - {itemId};
      r := Ok(());
      Cart.TotalAfterChange(before, cartItems, products, user.value, itemId, nextCartId);
    }

    /** `checkout`: refuses an empty cart; otherwise writes, line by line, one purchase per unit at the
        product's current price, deletes each line, and leaves other users' items and earlier purchases alone.
        The rows it writes record exactly the cart total shown before. */
    method Checkout() returns (r: Result<()>)
      requires Valid()
      modifies this`cartItems, this`purchases, this`now
      ensures Valid()
      ensures old(CurrentUser()).None? ==> r == Err(AuthRequired)
      ensures old(CurrentUser()).Some? && Cart.Lines(old(cartItems), session.value, nextCartId) == [] ==> r == Err(EmptyCart)
      ensures r.Err? ==> cartItems == old(cartItems) && purchases == old(purchases) && now == old(now)
      ensures r.Ok? <==> old(CurrentUser()).Some? && Cart.Lines(old(cartItems), session.value, nextCartId) != []
      ensures r.Ok? ==>
        CheckedOut(products, old(cartItems), old(purchases), old(now), session.value, nextCartId, cartItems, purchases, now)
    {
      var user := CurrentUser();
      if user.None? {
        return Err(AuthRequired);
      }
      var uid := user.value;
      if Cart.Lines(cartItems, uid, nextCartId) == [] {
        return Err(EmptyCart);
      }
      purchases, cartItems, now := StageCheckout(users, products, cartItems, purchases, nextProductId, nextCartId, now, uid, nextUserId);
      assert TablesOk(users, products, cartItems, purchases, nextUserId, nextProductId, nextCartId, now);
      r := Ok(());
    }

    /** `purchases`: the current user's purchases, newest first. */
    function PurchaseHistory(): (r: Result<seq<Purchase>>)
      reads this
      requires Valid()
      ensures r.Err? <==> CurrentUser().None?
      ensures r.Err? ==> r.error == AuthRequired
      ensures r.Ok? ==> forall p :: p in r.value <==> p in purchases && p.userId == session.value
      ensures r.Ok? ==> Cart.TimesDecrease(r.value)
    {
      match CurrentUser()
      case None => Err(AuthRequired)
      case Some(uid) =>
        Cart.HistorySpec(purchases, uid);
        Ok(Cart.History(purchases, uid))
    }

    // ----------------- Dashboard -----------------

    /** `dashboard` (GET): the current user's profile. */
    function Profile(): (r: Result<User>)
      reads this
      requires Valid()
      ensures r.Err? <==> CurrentUser().None?
      ensures r.Err? ==> r.error == AuthRequired
      ensures r.Ok? ==> r.value == users[session.value] && r.value.id == session.value
    {
      match CurrentUser()
      case None => Err(AuthRequired)
      case Some(uid) => Ok(users[uid])
    }

    /** `dashboard` (POST): each profile field present in the form replaces the stored one; e-mail and password stay. */
    method UpdateProfile(name: Option<string>, phone: Option<string>, address: Option<string>, avatarUrl: Option<string>)
      returns (r: Result<()>)
      requires Valid()
      modifies this`users
      ensures Valid()
      ensures r.Err? <==> old(CurrentUser()).None?
      ensures r.Err? ==> r.error == AuthRequired && users == old(users)
      ensures r.Ok? ==>
        var uid := session.value; var u := old(users)[uid];
        && uid in old(users)
        && users == old(users)[uid := u.(
             name := GetOr(name, u.name), phone := GetOr(phone, u.phone),
             address := GetOr(address, u.address), avatarUrl := GetOr(avatarUrl, u.avatarUrl))]
    {
      var user := CurrentUser();
      if user.None? {
        return Err(AuthRequired);
      }
      var u := users[user.value];
      UserEditKeeps(users, nextUserId, u.(
        name := GetOr(name, u.name), phone := GetOr(phone, u.phone),
        address := GetOr(address, u.address), avatarUrl := GetOr(avatarUrl, u.avatarUrl)));
      users := users[user.value := u.(
        name := GetOr(name, u.name), phone := GetOr(phone, u.phone),
        address := GetOr(address, u.address), avatarUrl := GetOr(avatarUrl, u.avatarUrl))];
      r := Ok(());
    }
  }
}
