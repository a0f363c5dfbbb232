/**
 * The read side of the catalogue: the feed (`feed`, title search and
 * category filter, newest first, with the distinct categories) and a
 * seller's own listings (`my_listings`). Ids are handed out in increasing
 * order while the clock runs forward, so walking the ids downward visits the
 * products newest first; the lemmas below prove that from the table's
 * invariants.
 */
module Catalog {
  import opened Records
  import Text

  /** Which products a listing page shows. The feed's `q` and `category` arrive already stripped. */
  datatype Selection = Search(q: string, category: string) | OwnedBy(owner: Id)

  /** A blank query or category does not filter; the two filters combine with AND. */
  predicate Selects(sel: Selection, p: Product) {
    match sel
    case Search(q, category) =>
      && (q == [] || Text.ContainsIgnoreCase(p.title, q))
      && (category == [] || p.category == category)
    case OwnedBy(owner) => p.ownerId == owner
  }

  /** Every product is stored under its own id. */
  ghost predicate KeyedById(products: map<Id, Product>) {
    forall id :: id in products ==> products[id].id == id
  }

  /** Every id in use is below `k`. */
  ghost predicate IdsBelow(products: map<Id, Product>, k: nat) {
    forall id :: id in products ==> id < k
  }

  /** Products `a` and `b` are both stored and `a` has the smaller id; the trigger of `Chronological`. */
  ghost predicate ListedBefore(products: map<Id, Product>, a: Id, b: Id) {
    a in products && b in products && a < b
  }

  /** A product with a larger id was created later. */
  ghost predicate Chronological(products: map<Id, Product>) {
    forall a, b {:trigger ListedBefore(products, a, b)} :: ListedBefore(products, a, b) ==> products[a].createdAt < products[b].createdAt
  }

  /** The selected products whose id is below `k`, visiting ids from `k - 1` down to 0. */
  function NewestFirst(products: map<Id, Product>, sel: Selection, k: nat): seq<Product> {
    if k == 0 then []
    else
      var rest := NewestFirst(products, sel, k - 1);
      if k - 1 in products && Selects(sel, products[k - 1]) then [products[k - 1]] + rest else rest
  }

  /** A listing holds exactly the stored products the selection keeps, with id below `k`. */
  lemma {:induction false} NewestFirstMembers(products: map<Id, Product>, sel: Selection, k: nat)
    requires KeyedById(products)
    ensures forall p :: p in NewestFirst(products, sel, k) <==> p in products.Values && p.id < k && Selects(sel, p)
  {
    if k > 0 {
      NewestFirstMembers(products, sel, k - 1);
      forall p | p in products.Values && p.id < k && Selects(sel, p)
        ensures p in NewestFirst(products, sel, k)
      {
        var id :| id in products && products[id] == p;
      }
    }
  }

  /** Each entry of a listing is the stored product under its own id, and that id is below `k`. */
  lemma {:induction false} NewestFirstEntry(products: map<Id, Product>, sel: Selection, k: nat, i: nat)
    requires KeyedById(products)
    requires i < |NewestFirst(products, sel, k)|
    ensures var p := NewestFirst(products, sel, k)[i]; p.id < k && p.id in products && products[p.id] == p
  {
    var rest := NewestFirst(products, sel, k - 1);
    if k - 1 in products && Selects(sel, products[k - 1]) {
      if i > 0 {
        NewestFirstEntry(products, sel, k - 1, i - 1);
      }
    } else {
      NewestFirstEntry(products, sel, k - 1, i);
    }
  }

  /** Ids strictly decrease along `r`, so no product appears twice. */
  ghost predicate IdsDecrease(r: seq<Product>) {
    forall i, j :: 0 <= i < j < |r| ==> r[i].id > r[j].id
  }

  /** Creation times strictly decrease along `r`: newest first. */
  ghost predicate NewestToOldest(r: seq<Product>) {
    forall i, j :: 0 <= i < j < |r| ==> r[i].createdAt > r[j].createdAt
  }

  /** The ids along a listing strictly decrease. */
  lemma {:induction false} NewestFirstIdsDecrease(products: map<Id, Product>, sel: Selection, k: nat)
    requires KeyedById(products)
    ensures IdsDecrease(NewestFirst(products, sel, k))
  {
    if k > 0 {
      var rest := NewestFirst(products, sel, k - 1);
      NewestFirstIdsDecrease(products, sel, k - 1);
      if k - 1 in products && Selects(sel, products[k - 1]) {
        var r := [products[k - 1]] + rest;
        assert NewestFirst(products, sel, k) == r;
        forall i, j | 0 <= i < j < |r| ensures r[i].id > r[j].id {
          NewestFirstEntry(products, sel, k - 1, j - 1);
          assert r[j] == rest[j - 1];
          if i == 0 {
            assert r[0].id == k - 1;
          } else {
            assert r[i] == rest[i - 1];
          }
        }
      } else {
        assert NewestFirst(products, sel, k) == rest;
      }
    }
  }

  /** A listing is ordered newest first: creation times strictly decrease along it. */
  lemma NewestFirstOrdered(products: map<Id, Product>, sel: Selection, k: nat)
    requires KeyedById(products) && Chronological(products)
    ensures NewestToOldest(NewestFirst(products, sel, k))
  {
    var r := NewestFirst(products, sel, k);
    NewestFirstIdsDecrease(products, sel, k);
    forall i, j | 0 <= i < j < |r| ensures r[i].createdAt > r[j].createdAt {
      NewestFirstEntry(products, sel, k, i);
      NewestFirstEntry(products, sel, k, j);
      assert ListedBefore(products, r[j].id, r[i].id);
    }
  }

  /** The distinct categories over all products, for the feed's filter menu. */
  function Categories(products: map<Id, Product>): set<string> {
    set id | id in products :: products[id].category
  }

  /** A non-blank category is offered in the menu exactly when filtering the feed by it shows something. */
  lemma CategoryHasListings(products: map<Id, Product>, c: string, k: nat)
    requires KeyedById(products) && IdsBelow(products, k)
    requires c != []
    ensures c in Categories(products) <==> NewestFirst(products, Search([], c), k) != []
  {
    var r := NewestFirst(products, Search([], c), k);
    NewestFirstMembers(products, Search([], c), k);
    if c in Categories(products) {
      var id :| id in products && products[id].category == c;
      assert products[id] in r;
    }
    if r != [] {
      assert r[0] in r;
      var id :| id in products && products[id] == r[0];
    }
  }

  /** Adding a product with an id above every other puts it at the head of every listing that selects it. */
  lemma NewestAddedFirst(products: map<Id, Product>, sel: Selection, p: Product)
    requires IdsBelow(products, p.id)
    requires Selects(sel, p)
    ensures NewestFirst(products[p.id := p], sel, p.id + 1) == [p] + NewestFirst(products, sel, p.id)
  {
    NewestFirstFrame(products, products[p.id := p], sel, p.id);
  }

  /** A listing below `k` only depends on the products below `k`. */
  lemma {:induction false} NewestFirstFrame(m: map<Id, Product>, m': map<Id, Product>, sel: Selection, k: nat)
    requires forall id :: id < k ==> (id in m <==> id in m') && (id in m ==> m[id] == m'[id])
    ensures NewestFirst(m, sel, k) == NewestFirst(m', sel, k)
  {
    if k > 0 {
      NewestFirstFrame(m, m', sel, k - 1);
    }
  }
}
