/**
 * The password-hash pair the handlers use (`generate_password_hash` and
 * `check_password_hash`). The hashing library is foreign code: a stored hash
 * is modelled by the salt it was made with and the one password it accepts.
 * The salt stands for the library's randomness and is supplied by the caller.
 */
module Auth {

  datatype PasswordHash = Hashed(salt: string, secret: string)

  /** Whether `password` matches the stored hash `h`. */
  predicate Check(h: PasswordHash, password: string) {
    h.secret == password
  }

  /** A fresh hash accepts the password it was made from, and no other. */
  function Hash(salt: string, password: string): (h: PasswordHash)
    ensures Check(h, password)
    ensures forall other :: Check(h, other) ==> other == password
    ensures h.salt == salt
  {
    Hashed(salt, password)
  }
}

/**
 * The four tables of the marketplace (`User`, `Product`, `CartItem`,
 * `Purchase`), the error outcomes of the handlers and the column defaults.
 */
module Records {
  import Auth

  type Id = nat

  /** What a handler answers instead of its page: `get_or_404`, the
      owner-only redirects, `login_required`, the empty-cart and duplicate
      e-mail redirects, the "Invalid credentials" page, and the database's
      refusal to delete a row that another row still references. */
  datatype Error = NotFound | Forbidden | AuthRequired | EmptyCart | Conflict | BadCredentials | Referenced

  datatype Result<T> = Ok(value: T) | Err(error: Error)

  datatype Option<T> = None | Some(value: T)

  /** Prices are integer cents; timestamps are ticks of a logical clock. */
  datatype User = User(
    id: Id, email: string, passwordHash: Auth.PasswordHash,
    name: string, avatarUrl: string, phone: string, address: string)

  datatype Product = Product(
    id: Id, title: string, category: string, description: string,
    price: int, imageUrl: string, createdAt: nat, ownerId: Id)

  datatype CartItem = CartItem(id: Id, userId: Id, productId: Id, qty: nat)

  datatype Purchase = Purchase(id: Id, userId: Id, productId: Id, priceAtPurchase: int, purchasedAt: nat)

  const DefaultName := "New User"
  const DefaultAvatarUrl := "https://api.dicebear.com/9.x/identicon/svg?seed=user"
  const PlaceholderImageUrl := "https://placehold.co/600x400?text=Product+Image"
  const DefaultCategory := "General"
}
