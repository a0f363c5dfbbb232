# Mini-market marketplace, modelled in Dafny

A model of the request handlers of a small Flask/SQLAlchemy marketplace (`app.py`): users sign up and log in,
list products for sale, browse a feed filtered by title and category, keep a cart, check it out into purchase
rows, and read their purchase history and profile.

The database is the class `Market.Marketplace`: each table is a field (`users`, `products`, `cartItems` as maps
from id to row; `purchases` as an append-only sequence whose row `i` has id `i + 1`). The id counters the database
hands out are fields. A logical clock `now` stands for `datetime.utcnow` and ticks once per stamped row. The
browser session's `user_id` is the field `session`. Each handler is one method or function, one committed
transaction. Its result is the page data or the error the handler turns into a redirect or a 404.

- `text.dfy`, module `Text`: `str.strip()` (Python's `isspace` set), ASCII `str.lower()`, the e-mail key
  `email.strip().lower()`, and the case-insensitive infix test standing for `ILIKE '%q%'`.
- `records.dfy`: module `Auth` is the password-hash pair. Module `Records` holds the four row types, the error
  outcomes and the column defaults.
- `catalog.dfy`, module `Catalog`: the feed and "my listings" queries, newest first, and the distinct categories.
- `cart.dfy`, module `Cart`: a user's cart lines and total, the rows checkout writes, and the purchase history.
- `market.dfy`, module `Market`: the table invariants, the lemmas that each handler keeps them, the value-level
  staging of checkout and cart-add, and the class `Marketplace` with one member per handler.

The `login_required` guard (app.py:68-76) is the first branch of every guarded member: when `CurrentUser()` is
`None`, the result is `Err(AuthRequired)` and nothing changes.

The store's invariant `Valid()` (`TablesOk`) says:
- rows are stored under their ids, below the counters;
- foreign keys point at existing rows;
- every stored e-mail is normalised, and no two users share one;
- each (user, product) pair has at most one cart item, and every item has at least one unit;
- products were created in id order and purchases were written in time order, all before `now`.

Every state-changing handler keeps it.

## Model

| member | source | states |
|---|---|---|
| Auth.Hash | app.py:94 | a fresh hash accepts the password it was made from and no other password |
| Text.StripSpec | app.py:127-128 | the strip is a piece of the input with only spaces around it and no space at either of its ends |
| Text.StripIdempotent | app.py:89 | stripping a stripped string changes nothing |
| Text.StripBlank | app.py:148 | a field strips to the empty (falsy) string exactly when it is all spaces, which is when `or` picks the default |
| Text.LowerIdentity | app.py:89 | lower-casing leaves no upper-case ASCII letter, and a string is its own lower case exactly when it holds none |
| Text.NormalizeEmailIdempotent | app.py:89 | normalising an already normalised e-mail changes nothing, which is why every stored e-mail stays its own lookup key (`Market.UsersOk`) |
| Text.HasInfixIff | app.py:131 | the infix test holds exactly when the query occurs in the title at some index (both directions) |
| Text.ContainsIgnoresQueryCase | app.py:131 | the title match does not depend on the case of the query |
| Catalog.NewestFirstMembers | app.py:129-134 | a listing holds exactly the stored products the filters keep |
| Catalog.NewestFirstOrdered | app.py:129 | a listing is ordered by `created_at` descending |
| Catalog.NewestFirstIdsDecrease | app.py:134 | ids strictly decrease along a listing, so no product is listed twice |
| Catalog.CategoryHasListings | app.py:135 | a non-blank category is in the distinct-category menu exactly when filtering by it shows some product |
| Catalog.NewestAddedFirst | app.py:152-154 | a product added under a fresh largest id heads every listing that selects it, before the old listing |
| Cart.LinesMembers | app.py:202 | the cart shows exactly the user's stored items |
| Cart.LinesAscending | app.py:235 | no cart line appears twice |
| Cart.LinesIds | app.py:239-243 | the items checkout deletes are exactly the user's items |
| Cart.LinesNone | app.py:243 | a user with no stored items has an empty cart |
| Cart.LinesTotal | app.py:203 | the cart total is the sum of quantity times current price over the user's items |
| Cart.TotalAfterChange | app.py:211-215 | changing one item changes the user's total by that item's change in contribution and leaves other ids' contributions alone |
| Cart.Units | app.py:240-241 | the `qty` rows of one line have consecutive ids and times, the user, the product and the price |
| Cart.RowsShape | app.py:239-242 | checkout writes one row per unit in the cart, each with the next id and time, the user, and the product's current price |
| Cart.RowsChargeTotal | app.py:239-242 | the rows checkout writes record exactly the cart total shown before |
| Cart.AppendTimesIncrease | app.py:56 | rows stamped with later, consecutive times keep the purchase table in time order |
| Cart.HistorySpec | app.py:252 | the history holds exactly the user's purchases and is newest first when the table is in time order |
| Market.UserAddKeeps | app.py:91-96 | registering an unused e-mail under the next id keeps e-mails unique |
| Market.UserEditKeeps | app.py:262-266 | a profile edit that keeps the e-mail keeps the user table's invariant |
| Market.ProductAddKeeps | app.py:152-154 | adding a product under the next id, stamped now, keeps every table's invariant |
| Market.ProductEditKeeps | app.py:174-179 | editing a product's own fields keeps every table's invariant |
| Market.ProductRemoveKeeps | app.py:192-193 | deleting an unreferenced product keeps every table's invariant |
| Market.ListingsAfterAdd | app.py:152-156 | a new listing heads its owner's listings and the unfiltered feed |
| Market.ItemIncrementKeeps | app.py:211-212 | one more unit on an item keeps the cart's invariant |
| Market.ItemAddKeeps | app.py:213-215 | a new one-unit item for a pair with no item keeps one item per (user, product) |
| Market.ItemsRemoveKeeps | app.py:227-228 | deleting cart items keeps the cart's invariant |
| Market.IncrementTotal | app.py:211-212 | one more unit raises the user's total by the product's price |
| Market.NewItemTotal | app.py:213-215 | a new one-unit item raises the user's total by the product's price |
| Market.CheckoutRemoves | app.py:239-243 | checkout deletes every one of the user's items and no one else's, leaving the user's cart empty |
| Market.CheckoutAppendKeeps | app.py:239-242 | appending the checkout rows keeps the purchase table's ids, references and time order |
| Market.CheckoutCharges | app.py:239-242 | the rows written for the user's cart record exactly the user's cart total |
| Market.ListingDefaults | app.py:147-151 | the stored title and description are the stripped input; the category is "General" when the input is all spaces and the stripped input otherwise; likewise the image URL with the placeholder |
| Market.Listing | app.py:147-152 | the stored product has the given id, the price, the time and the owner, and a non-blank category and image URL |
| Market.AppendUnits | app.py:240-242 | the inner loop appends the `qty` unit rows of one line |
| Market.StageRows | app.py:239-243 | the checkout loops write the rows of every line in order and delete each line's item |
| Market.StageCheckout | app.py:235-244 | checkout's effect on the tables, with the invariants kept |
| Market.StageCartAdd | app.py:209-216 | the user's item for the product gains a unit, or a one-unit item is created exactly when none exists; the total rises by the price |
| Market.Marketplace.constructor | app.py:289 | an empty database satisfies the invariant |
| Market.Marketplace.Signup | app.py:86-100 | a taken e-mail is refused unchanged; otherwise the user is stored under a fresh id with defaults and logged in |
| Market.Marketplace.Login | app.py:103-115 | login succeeds exactly when a user with that e-mail accepts the password; a failure leaves the session alone |
| Market.Marketplace.Logout | app.py:117-121 | the session is cleared |
| Market.Marketplace.Feed | app.py:125-136 | the feed shows exactly the products matching both filters, newest first, and exactly the categories in use |
| Market.Marketplace.ProductDetail | app.py:138-141 | the stored product, or `NotFound` |
| Market.Marketplace.MyListings | app.py:160-164 | exactly the user's products, newest first |
| Market.Marketplace.AddProduct | app.py:143-158 | the new listing, with stripped fields and defaults, is stored under the next id, stamped now, owned by the user |
| Market.Marketplace.EditProduct | app.py:166-183 | 404 before owner check; the edit succeeds exactly for the owner and then lands, keeping the image URL when the new one is blank; purchases untouched |
| Market.Marketplace.DeleteProduct | app.py:185-195 | 404 before owner check; the owner's unreferenced product is deleted and nothing else |
| Market.Marketplace.ViewCart | app.py:199-204 | exactly the user's items, each once in id order, with the total over the user's items at current prices |
| Market.Marketplace.CartAdd | app.py:206-218 | 404 for a missing product; it succeeds exactly for an existing product, and then only the user's item for it changes, one unit more or new, and the total rises by the price |
| Market.Marketplace.CartRemove | app.py:220-230 | 404 before owner check; it succeeds exactly for the item's owner, and then exactly that item goes and the total drops by its amount |
| Market.Marketplace.Checkout | app.py:232-246 | an empty cart is refused unchanged; a non-empty one always succeeds, writing one row per unit at current prices, deleting the user's items, the rows recording the cart total |
| Market.Marketplace.PurchaseHistory | app.py:248-253 | exactly the user's purchases, newest first |
| Market.Marketplace.Profile | app.py:257-269 | the current user's row |
| Market.Marketplace.UpdateProfile | app.py:261-268 | each profile field present in the form replaces the stored one; e-mail and password stay |

## Left out

- Page rendering, `flash` messages, redirects and the `next` parameter of `login`: each handler returns its data or
  an error instead.
- The GET branches of the form handlers (`signup`, `login`, `add_product`, `edit_product`, `dashboard`) only render
  a form and change nothing.
- Application configuration, the secret key and the database URL; `initdb` and the `__main__` block. The
  constructor stands for `db.create_all()` on an empty database.
- Auth.Hash: Werkzeug's salted hashing is foreign code, modelled by a hash that records the salt and accepts exactly
  one password. The salt is a parameter standing for the library's randomness.
- Prices are integers (cents) rather than floats. The failure of `float(request.form['price'])` on a malformed
  field is not modelled; the price arrives already parsed.
- Market.Marketplace.AddProduct and Market.Marketplace.EditProduct: negative prices are accepted, as in the code; no
  check exists there.
- Text.Lower: only ASCII letters are lower-cased; Python's full Unicode case mapping is not modelled, nor PostgreSQL's
  case folding of non-ASCII letters in `ILIKE`.
- Text.ContainsIgnoreCase: `%` and `_` typed in the search box are literal characters here, not `ILIKE` wildcards,
  and `\` is not `ILIKE`'s escape character (in PostgreSQL `50\%` matches titles containing `50%`; here it matches
  only the literal `50\%`).
- `datetime.utcnow` is a logical clock that ticks once per stamped row; wall-clock time and ties are not modelled.
- The order of `.all()` without `order_by` (the cart, checkout's loop) is taken to be id order.
- Market.Marketplace.DeleteProduct: deleting a product that a cart item or purchase still refers to is refused by
  the database's foreign keys; the model returns `Err(Referenced)` with nothing changed, rather than an error page.
- Concurrency between requests, transaction rollback and the database's own failures are not modelled: each handler
  is one atomic step. Among those failures are the column widths (app.py:21-26, 34-38): `String(120)` for the
  e-mail, the name and the category, `String(200)` for the title, `String(50)` for the phone and `String(255)` for
  the password hash, the address and both URLs. PostgreSQL refuses a longer value at commit; the model stores it.
- Market.Marketplace.AddProduct: its contract does not state that the new listing heads the listings;
  `Market.ListingsAfterAdd` proves that as a separate lemma.
- Market.Listing: its own contract states the id, price, time, owner and non-blank category and image URL; the
  stripping of the text fields and the defaults are stated in the separate lemma `Market.ListingDefaults`.
- Market.Marketplace.EditProduct: a category that strips to blank is stored blank, as the code does
  (app.py:175); unlike `add_product`, the edit handler does not fall back to "General".
