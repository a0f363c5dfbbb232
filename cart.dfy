/**
 * The read side of "Cart & Purchases": a user's cart lines, the cart total
 * (`sum(i.qty * i.product.price for i in items)`), the purchase rows checkout
 * writes for those lines (one row per unit, at the product's current price),
 * and the purchase history, newest first.
 */
module Cart {
  import opened Records

  /** Every cart item is stored under its own id. */
  ghost predicate ItemsKeyedById(items: map<Id, CartItem>) {
    forall id :: id in items ==> items[id].id == id
  }

  /** `CartItem.query.filter_by(user_id=uid)`: the user's items with id below `k`, in increasing id order. */
  function Lines(items: map<Id, CartItem>, uid: Id, k: nat): seq<CartItem> {
    if k == 0 then []
    else Lines(items, uid, k - 1) + (if k - 1 in items && items[k - 1].userId == uid then [items[k - 1]] else [])
  }

  /** Each cart line is the stored item under its own id, belongs to the user, and its id is below `k`. */
  lemma {:induction false} LinesEntry(items: map<Id, CartItem>, uid: Id, k: nat, i: nat)
    requires ItemsKeyedById(items)
    requires i < |Lines(items, uid, k)|
    ensures var l := Lines(items, uid, k)[i]; l.id < k && l.id in items && items[l.id] == l && l.userId == uid
  {
    var prev := Lines(items, uid, k - 1);
    if i < |prev| {
      LinesEntry(items, uid, k - 1, i);
      assert Lines(items, uid, k)[i] == prev[i];
    }
  }

  /** The cart shows exactly the user's stored items with id below `k`. */
  lemma {:induction false} LinesMembers(items: map<Id, CartItem>, uid: Id, k: nat)
    requires ItemsKeyedById(items)
    ensures forall l :: l in Lines(items, uid, k) <==> l in items.Values && l.userId == uid && l.id < k
  {
    if k > 0 {
      LinesMembers(items, uid, k - 1);
      forall l | l in items.Values && l.userId == uid && l.id < k
        ensures l in Lines(items, uid, k)
      {
        var id :| id in items && items[id] == l;
      }
    }
  }

  /** The cart has no line twice: ids strictly increase along it. */
  lemma {:induction false} LinesAscending(items: map<Id, CartItem>, uid: Id, k: nat)
    requires ItemsKeyedById(items)
    ensures var r := Lines(items, uid, k); forall i, j :: 0 <= i < j < |r| ==> r[i].id < r[j].id
  {
    var r := Lines(items, uid, k);
    forall i, j | 0 <= i < j < |r| ensures r[i].id < r[j].id {
      LinesAscendingAt(items, uid, k, i, j);
    }
  }

  /** Two cart lines in order have increasing ids. */
  lemma {:induction false} LinesAscendingAt(items: map<Id, CartItem>, uid: Id, k: nat, i: nat, j: nat)
    requires ItemsKeyedById(items)
    requires i < j < |Lines(items, uid, k)|
    ensures Lines(items, uid, k)[i].id < Lines(items, uid, k)[j].id
  {
    var prev := Lines(items, uid, k - 1);
    LinesEntry(items, uid, k, i);
    if j < |prev| {
      LinesAscendingAt(items, uid, k - 1, i, j);
      assert Lines(items, uid, k)[i] == prev[i] && Lines(items, uid, k)[j] == prev[j];
    } else {
      LinesEntry(items, uid, k - 1, i);
      assert Lines(items, uid, k)[i] == prev[i];
    }
  }

  /** A user none of whose items is left has an empty cart. */
  lemma LinesNone(items: map<Id, CartItem>, uid: Id, k: nat)
    requires ItemsKeyedById(items)
    requires forall id :: id in items ==> items[id].userId != uid
    ensures Lines(items, uid, k) == []
  {
    var r := Lines(items, uid, k);
    if r != [] {
      LinesEntry(items, uid, k, 0);
    }
  }

  /** The ids of `lines`. */
  function Ids(lines: seq<CartItem>): set<Id> {
    if lines == [] then {} else Ids(lines[..|lines| - 1]) + {lines[|lines| - 1].id}
  }

  /** An id is among the ids of `lines` exactly when some line carries it. */
  lemma {:induction false} IdsMembers(lines: seq<CartItem>)
    ensures forall id :: id in Ids(lines) <==> exists i :: 0 <= i < |lines| && lines[i].id == id
  {
    if lines != [] {
      var init := lines[..|lines| - 1];
      IdsMembers(init);
      forall id | id in Ids(lines) ensures exists i :: 0 <= i < |lines| && lines[i].id == id {
        if id != lines[|lines| - 1].id {
          assert id in Ids(init);
          var i :| 0 <= i < |init| && init[i].id == id;
          assert lines[i] == init[i];
        }
      }
      forall id | (exists i :: 0 <= i < |lines| && lines[i].id == id) ensures id in Ids(lines) {
        var i :| 0 <= i < |lines| && lines[i].id == id;
        if i < |init| {
          assert init[i] == lines[i];
        }
      }
    }
  }

  /** The ids of a user's lines are that user's item ids, once every id is below `k`. */
  lemma LinesIds(items: map<Id, CartItem>, uid: Id, k: nat)
    requires ItemsKeyedById(items)
    requires forall id :: id in items ==> id < k
    ensures Ids(Lines(items, uid, k)) == UserItemIds(items, uid)
  {
    var r := Lines(items, uid, k);
    LinesMembers(items, uid, k);
    IdsMembers(r);
    forall id | id in UserItemIds(items, uid) ensures id in Ids(r) {
      assert items[id] in r;
      var i :| 0 <= i < |r| && r[i] == items[id];
    }
    forall id | id in Ids(r) ensures id in UserItemIds(items, uid) {
      var i :| 0 <= i < |r| && r[i].id == id;
      LinesEntry(items, uid, k, i);
    }
  }

  /** The ids of the items in `uid`'s cart. */
  function UserItemIds(items: map<Id, CartItem>, uid: Id): set<Id> {
    set id | id in items && items[id].userId == uid
  }

  /** Every line refers to a product that exists, so its current price can be read. */
  ghost predicate Priced(lines: seq<CartItem>, products: map<Id, Product>) {
    forall i :: 0 <= i < |lines| ==> lines[i].productId in products
  }

  /** Every stored item refers to a product that exists. */
  ghost predicate ItemsPriced(items: map<Id, CartItem>, products: map<Id, Product>) {
    forall id :: id in items ==> items[id].productId in products
  }

  /** The user's lines refer to existing products when every stored item does. */
  lemma LinesPriced(items: map<Id, CartItem>, products: map<Id, Product>, uid: Id, k: nat)
    requires ItemsKeyedById(items) && ItemsPriced(items, products)
    ensures Priced(Lines(items, uid, k), products)
  {
    forall i | 0 <= i < |Lines(items, uid, k)| ensures Lines(items, uid, k)[i].productId in products {
      LinesEntry(items, uid, k, i);
    }
  }

  /** One line's amount: quantity times the product's current price. */
  function LineTotal(l: CartItem, products: map<Id, Product>): int
    requires l.productId in products
  {
    l.qty * products[l.productId].price
  }

  /** The cart total over `lines`, at current prices. */
  function Total(lines: seq<CartItem>, products: map<Id, Product>): int
    requires Priced(lines, products)
  {
    if lines == [] then 0
    else Total(lines[..|lines| - 1], products) + LineTotal(lines[|lines| - 1], products)
  }

  /** The number of units in `lines`. */
  function SumQty(lines: seq<CartItem>): nat {
    if lines == [] then 0 else SumQty(lines[..|lines| - 1]) + lines[|lines| - 1].qty
  }

  /** What the item stored under `id` adds to `uid`'s total: nothing unless it is in that user's cart. */
  function Contribution(items: map<Id, CartItem>, products: map<Id, Product>, uid: Id, id: Id): int
    requires ItemsPriced(items, products)
  {
    if id in items && items[id].userId == uid then LineTotal(items[id], products) else 0
  }

  /** The user's total summed over the item ids below `k`, in id order. */
  function UserTotal(items: map<Id, CartItem>, products: map<Id, Product>, uid: Id, k: nat): int
    requires ItemsPriced(items, products)
  {
    if k == 0 then 0 else UserTotal(items, products, uid, k - 1) + Contribution(items, products, uid, k - 1)
  }

  /** The total shown beside the cart lines is the user's total over the same ids. */
  lemma {:induction false} LinesTotal(items: map<Id, CartItem>, products: map<Id, Product>, uid: Id, k: nat)
    requires ItemsKeyedById(items) && ItemsPriced(items, products)
    ensures Priced(Lines(items, uid, k), products)
    ensures Total(Lines(items, uid, k), products) == UserTotal(items, products, uid, k)
  {
    LinesPriced(items, products, uid, k);
    if k > 0 {
      LinesTotal(items, products, uid, k - 1);
      TotalSnoc(Lines(items, uid, k - 1), Lines(items, uid, k), products);
    }
  }

  /** Changing the item under one id changes the user's total by the difference of that item's contributions,
      or not at all when the id is not below `k`. */
  lemma {:induction false} TotalAfterChange(
    items: map<Id, CartItem>, items': map<Id, CartItem>, products: map<Id, Product>, uid: Id, id: Id, k: nat)
    requires ItemsPriced(items, products) && ItemsPriced(items', products)
    requires forall x :: x != id ==> (x in items <==> x in items') && (x in items ==> items[x] == items'[x])
    ensures UserTotal(items', products, uid, k)
      == UserTotal(items, products, uid, k)
         + if id < k then Contribution(items', products, uid, id) - Contribution(items, products, uid, id) else 0
  {
    if k > 0 {
      TotalAfterChange(items, items', products, uid, id, k - 1);
    }
  }

  /** Appending at most one line adds that line's amount to the total. */
  lemma TotalSnoc(a: seq<CartItem>, b: seq<CartItem>, products: map<Id, Product>)
    requires Priced(b, products)
    requires |a| <= |b| <= |a| + 1 && a == b[..|a|]
    ensures Priced(a, products)
    ensures Total(b, products) == Total(a, products) + if |b| == |a| then 0 else LineTotal(b[|a|], products)
  {
    if |b| == |a| {
      assert a == b;
    }
  }

  /** `n` unit purchases of one product at one price, with consecutive ids and timestamps. */
  function Units(uid: Id, productId: Id, price: int, id0: nat, t0: nat, n: nat): (r: seq<Purchase>)
    ensures |r| == n
    ensures forall j :: 0 <= j < n ==> r[j] == Purchase(id0 + j, uid, productId, price, t0 + j)
  {
    if n == 0 then [] else Units(uid, productId, price, id0, t0, n - 1) + [Purchase(id0 + n - 1, uid, productId, price, t0 + n - 1)]
  }

  /** The rows checkout appends for `lines`: for each line in turn, `qty` unit purchases at the product's current price. */
  function Rows(lines: seq<CartItem>, products: map<Id, Product>, uid: Id, id0: nat, t0: nat): seq<Purchase>
    requires Priced(lines, products)
  {
    if lines == [] then []
    else
      var init, last := lines[..|lines| - 1], lines[|lines| - 1];
      var done := SumQty(init);
      Rows(init, products, uid, id0, t0)
        + Units(uid, last.productId, products[last.productId].price, id0 + done, t0 + done, last.qty)
  }

  /** Handling the line at `i` after the ones before it: when `after` is `before` followed by that line's units,
      with the ids and timestamps that follow the earlier rows, then `after` holds the rows for the first `i + 1`
      lines; the units and ids handled so far grow by that line's. */
  lemma RowsStep(
    lines: seq<CartItem>, products: map<Id, Product>, uid: Id, id0: nat, t0: nat, i: nat,
    prefix: seq<Purchase>, before: seq<Purchase>, after: seq<Purchase>)
    requires Priced(lines, products) && i < |lines|
    requires Priced(lines[..i], products) && before == prefix + Rows(lines[..i], products, uid, id0, t0)
    requires var done, l := SumQty(lines[..i]), lines[i];
      after == before + Units(uid, l.productId, products[l.productId].price, id0 + done, t0 + done, l.qty)
    ensures Priced(lines[..i + 1], products)
    ensures after == prefix + Rows(lines[..i + 1], products, uid, id0, t0)
    ensures SumQty(lines[..i + 1]) == SumQty(lines[..i]) + lines[i].qty
    ensures Ids(lines[..i + 1]) == Ids(lines[..i]) + {lines[i].id}
  {
    assert lines[..i + 1][..i] == lines[..i];
    var done, l := SumQty(lines[..i]), lines[i];
    var units := Units(uid, l.productId, products[l.productId].price, id0 + done, t0 + done, l.qty);
    assert after == prefix + (Rows(lines[..i], products, uid, id0, t0) + units);
  }

  /** Checkout writes exactly one row per unit in the cart; row `j` is the user's, has the `j`-th id and
      timestamp, and is stamped with its product's current price. */
  lemma {:induction false} RowsShape(lines: seq<CartItem>, products: map<Id, Product>, uid: Id, id0: nat, t0: nat)
    requires Priced(lines, products)
    ensures var r := Rows(lines, products, uid, id0, t0);
      && |r| == SumQty(lines)
      && forall j :: 0 <= j < |r| ==>
           && r[j].id == id0 + j && r[j].purchasedAt == t0 + j && r[j].userId == uid
           && r[j].productId in products && r[j].priceAtPurchase == products[r[j].productId].price
  {
    if lines != [] {
      var init, last := lines[..|lines| - 1], lines[|lines| - 1];
      RowsShape(init, products, uid, id0, t0);
    }
  }

  /** The amount a list of purchase rows records. */
  function Charged(ps: seq<Purchase>): int {
    if ps == [] then 0 else Charged(ps[..|ps| - 1]) + ps[|ps| - 1].priceAtPurchase
  }

  /** What two runs of rows record together is the sum of what each records. */
  lemma {:induction false} ChargedAppend(a: seq<Purchase>, b: seq<Purchase>)
    ensures Charged(a + b) == Charged(a) + Charged(b)
    decreases |b|
  {
    if b == [] {
      assert a + b == a;
    } else {
      var b0 := b[..|b| - 1];
      ChargedAppend(a, b0);
      assert (a + b)[..|a + b| - 1] == a + b0;
    }
  }

  /** `n` unit rows at one price record `n` times that price. */
  lemma {:induction false} ChargedUnits(uid: Id, productId: Id, price: int, id0: nat, t0: nat, n: nat)
    ensures Charged(Units(uid, productId, price, id0, t0, n)) == n * price
  {
    if n > 0 {
      var u := Units(uid, productId, price, id0, t0, n);
      ChargedUnits(uid, productId, price, id0, t0, n - 1);
      assert u[..n - 1] == Units(uid, productId, price, id0, t0, n - 1);
    }
  }

  /** What checkout records is exactly the cart total shown just before it. */
  lemma {:induction false} RowsChargeTotal(lines: seq<CartItem>, products: map<Id, Product>, uid: Id, id0: nat, t0: nat)
    requires Priced(lines, products)
    ensures Charged(Rows(lines, products, uid, id0, t0)) == Total(lines, products)
  {
    if lines != [] {
      var init, last := lines[..|lines| - 1], lines[|lines| - 1];
      assert Priced(init, products);
      var done, price := SumQty(init), products[last.productId].price;
      var head := Rows(init, products, uid, id0, t0);
      var tail := Units(uid, last.productId, price, id0 + done, t0 + done, last.qty);
      assert Rows(lines, products, uid, id0, t0) == head + tail;
      assert Total(lines, products) == Total(init, products) + last.qty * price;
      RowsChargeTotal(init, products, uid, id0, t0);
      ChargedAppend(head, tail);
      ChargedUnits(uid, last.productId, price, id0 + done, t0 + done, last.qty);
    }
  }

  /** `Purchase.query.filter_by(user_id=uid).order_by(Purchase.purchased_at.desc())`, over an
      append-only table: the user's rows, last written first. */
  function History(purchases: seq<Purchase>, uid: Id): seq<Purchase> {
    if purchases == [] then []
    else
      var last := purchases[|purchases| - 1];
      (if last.userId == uid then [last] else []) + History(purchases[..|purchases| - 1], uid)
  }

  /** Row `i` comes before row `j` in `ps`; the trigger of the order predicates below. */
  ghost predicate Earlier(ps: seq<Purchase>, i: int, j: int) {
    0 <= i < j < |ps|
  }

  /** Purchase times strictly increase along the table. */
  ghost predicate TimesIncrease(ps: seq<Purchase>) {
    forall i, j {:trigger Earlier(ps, i, j)} :: Earlier(ps, i, j) ==> ps[i].purchasedAt < ps[j].purchasedAt
  }

  /** Rows stamped with consecutive ticks from `t0`, appended to a table whose times are increasing and all before
      `t0`, keep the times increasing. */
  lemma AppendTimesIncrease(ps: seq<Purchase>, rows: seq<Purchase>, t0: nat)
    requires TimesIncrease(ps)
    requires forall i :: 0 <= i < |ps| ==> ps[i].purchasedAt < t0
    requires forall j :: 0 <= j < |rows| ==> rows[j].purchasedAt == t0 + j
    ensures TimesIncrease(ps + rows)
  {
    var all := ps + rows;
    forall i, j | Earlier(all, i, j) ensures all[i].purchasedAt < all[j].purchasedAt {
      if j < |ps| {
        assert all[i] == ps[i] && all[j] == ps[j] && Earlier(ps, i, j);
      } else if i < |ps| {
        assert all[i] == ps[i] && all[j] == rows[j - |ps|];
      } else {
        assert all[i] == rows[i - |ps|] && all[j] == rows[j - |ps|];
      }
    }
  }

  /** Purchase times strictly decrease along a listing: newest first. */
  ghost predicate TimesDecrease(ps: seq<Purchase>) {
    forall i, j :: 0 <= i < j < |ps| ==> ps[i].purchasedAt > ps[j].purchasedAt
  }

  /** The history holds exactly the user's rows, and, when the table is in time order, newest first. */
  lemma {:induction false} HistorySpec(purchases: seq<Purchase>, uid: Id)
    ensures forall p :: p in History(purchases, uid) <==> p in purchases && p.userId == uid
    ensures TimesIncrease(purchases) ==> TimesDecrease(History(purchases, uid))
  {
    if purchases != [] {
      var init, last := purchases[..|purchases| - 1], purchases[|purchases| - 1];
      HistorySpec(init, uid);
      assert purchases == init + [last];
      var h := History(purchases, uid);
      if TimesIncrease(purchases) {
        forall i, j | Earlier(init, i, j) ensures init[i].purchasedAt < init[j].purchasedAt {
          assert Earlier(purchases, i, j);
        }
        if last.userId == uid {
          forall i, j | 0 <= i < j < |h| ensures h[i].purchasedAt > h[j].purchasedAt {
            var hj := h[j];
            assert hj in History(init, uid);
            var m :| 0 <= m < |init| && init[m] == hj;
            assert purchases[m] == hj;
            if i > 0 {
              assert h[i] == History(init, uid)[i - 1] && h[j] == History(init, uid)[j - 1];
            } else {
              assert Earlier(purchases, m, |init|);
            }
          }
        }
      }
    }
  }
}
