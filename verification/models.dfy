/**
 The records exchanged by the pizza shop's REST backend, and the in-memory
 store that stands in for its four database collections.

 Prices are integer cents, timestamps are integers ordered like the instants
 they denote, and ids are opaque strings.
 */
module Models {
  import opened Wrappers
  import Collections

  type Id = string
  type Timestamp = int
  type Cents = int

  /** An account; only `id` and `isAdmin` matter to the handlers. */
  datatype User = User(
    id: Id,
    email: string,
    fullName: string,
    phone: Option<string>,
    address: Option<string>,
    isAdmin: bool,
    createdAt: Timestamp)

  /** A menu section. */
  datatype Category = Category(
    id: Id,
    name: string,
    description: Option<string>,
    imageUrl: Option<string>,
    isActive: bool,
    sortOrder: int,
    createdAt: Timestamp)

  /** The body of a category-creation request. */
  datatype CategoryCreate = CategoryCreate(
    name: string,
    description: Option<string>,
    imageUrl: Option<string>,
    sortOrder: int)

  /** One entry of a product's size list. */
  datatype Size = Size(name: string, price: Cents)

  /** A catalog item. */
  datatype Product = Product(
    id: Id,
    name: string,
    description: Option<string>,
    categoryId: Id,
    price: Cents,
    imageUrl: Option<string>,
    ingredients: Option<seq<string>>,
    sizes: Option<seq<Size>>,
    isAvailable: bool,
    isFeatured: bool,
    createdAt: Timestamp)

  /** The body of a product creation or replacement request. */
  datatype ProductCreate = ProductCreate(
    name: string,
    description: Option<string>,
    categoryId: Id,
    price: Cents,
    imageUrl: Option<string>,
    ingredients: Option<seq<string>>,
    sizes: Option<seq<Size>>,
    isFeatured: bool)

  /** One line of a submitted order, with the price the client sent. */
  datatype CartItem = CartItem(
    productId: Id,
    quantity: int,
    size: Option<string>,
    price: Cents)

  /** A persisted order. */
  datatype Order = Order(
    id: Id,
    userId: Id,
    items: seq<CartItem>,
    totalAmount: Cents,
    status: string,
    deliveryAddress: Option<string>,
    phone: string,
    notes: Option<string>,
    createdAt: Timestamp,
    updatedAt: Timestamp)

  /** The body of an order-creation request. */
  datatype OrderCreate = OrderCreate(
    items: seq<CartItem>,
    deliveryAddress: Option<string>,
    phone: string,
    notes: Option<string>)

  /** The four collections, each in insertion order. */
  datatype Store = Store(
    users: seq<User>,
    categories: seq<Category>,
    products: seq<Product>,
    orders: seq<Order>)

  /** The HTTP status code and detail message of a rejected request. */
  datatype HttpError = HttpError(status: int, detail: string)

  /** What a handler leaves behind: the store after the call and its response. */
  datatype Reply<T> = Reply(store: Store, result: Result<T, HttpError>)

  const AdminRequired := HttpError(403, "Admin access required")
  const InvalidStatus := HttpError(400, "Invalid status")
  const OrderNotFound := HttpError(404, "Order not found")
  const ProductNotFound := HttpError(404, "Product not found")
  const InvalidToken := HttpError(401, "Invalid token")
  const UserNotFound := HttpError(401, "User not found")

  function UserId(u: User): Id { u.id }
  function CategoryId(c: Category): Id { c.id }
  function ProductId(p: Product): Id { p.id }
  function OrderId(o: Order): Id { o.id }

  /** Every collection keeps its ids distinct, as freshly generated UUIDs do. */
  predicate WellFormed(store: Store)
  {
    && Collections.DistinctBy(store.users, UserId)
    && Collections.DistinctBy(store.categories, CategoryId)
    && Collections.DistinctBy(store.products, ProductId)
    && Collections.DistinctBy(store.orders, OrderId)
  }
}
