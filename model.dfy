/** Entities of the shop, the errors the services raise and the result type
    every service call returns.

    Identifiers are natural numbers handed out by the store (the database
    generates opaque string ids); prices and totals are integer cents. */
module Model {

  type Id = nat

  /** Money in integer cents. */
  type Cents = nat

  datatype Option<+T> = None | Some(value: T)

  datatype Role = UserRole | AdminRole

  datatype OrderStatus = Pending | Shipped | Delivered | Cancelled

  /** A user row as stored; `password` holds the hash, never the plaintext. */
  datatype User = User(
    id: Id,
    email: string,
    password: string,
    firstName: Option<string>,
    lastName: Option<string>,
    role: Role)

  /** What the services return for a user: every column but the password. */
  datatype PublicUser = PublicUser(
    id: Id,
    email: string,
    firstName: Option<string>,
    lastName: Option<string>,
    role: Role)

  datatype Category = Category(id: Id, name: string, description: Option<string>)

  datatype Product = Product(
    id: Id,
    name: string,
    description: Option<string>,
    price: Cents,
    stock: nat,
    categoryId: Id,
    imageUrl: Option<string>,
    createdAt: nat)

  datatype Cart = Cart(id: Id, userId: Id)

  datatype CartItem = CartItem(id: Id, cartId: Id, productId: Id, quantity: nat)

  datatype Order = Order(id: Id, userId: Id, total: Cents, status: OrderStatus, createdAt: nat)

  /** One order line: `price` is the product's price copied at checkout. */
  datatype OrderItem = OrderItem(id: Id, orderId: Id, productId: Id, quantity: nat, price: Cents)

  datatype Entity = ProductEntity | CategoryEntity | CartItemEntity | OrderEntity | UserEntity

  /** The failures the services raise, one constructor per distinct message,
      and `StillReferenced` for the refusal of a delete that rows still
      refer to, which the database raises without a message of the services. */
  datatype Error =
    | NotFound(entity: Entity)              // "<Entity> not found", 404
    | InsufficientStock                     // "Insufficient stock", 400
    | InsufficientStockFor(product: string) // "Insufficient stock for <name>", 400
    | EmptyCart                             // "Cart is empty", 400
    | NameTaken                             // "Category with this name already exists", 400
    | EmailTaken                            // "User already exists with this email", 400
    | CategoryNotEmpty                      // "Cannot delete category that contains products", 400
    | Forbidden                             // "Cannot delete admin users", 403
    | InvalidCredentials                    // "Invalid email or password", 401
    | StillReferenced                       // the database refuses a delete that would leave a dangling reference

  datatype Result<+T> = Success(value: T) | Failure(error: Error)

  /** The password-free view of a stored user. */
  function Public(u: User): PublicUser {
    PublicUser(u.id, u.email, u.firstName, u.lastName, u.role)
  }

  /** JavaScript truthiness of an optional string: absent and "" are both false. */
  predicate Given(s: Option<string>) {
    s.Some? && s.value != ""
  }
}
