/** The rows of the shop's relational store and the lookups the handlers run on them.
    A table is a sequence of rows in primary-key order, which is the order in which
    gorm's `First` scans it. */
module Tables {

  datatype Option<T> = None | Some(value: T)

  /** Every way a handler can turn a request down. */
  datatype Error =
    | MalformedHeader      // `tokenParts[1]` on a header without a space panics
    | PermissionDenied
    | RegistrationFailed   // unique index on username or email
    | UserNotFound
    | IncorrectPassword
    | ProductCreationFailed
    | ProductNotFound
    | InvalidQuantity
    | InsufficientStock
    | OrderCreationFailed
    | OrderNotFound
    | AlreadyPaid          // "Order has been paid or cancelled."
    | CacheReadFailed
    | ProductsReadFailed
    | CacheWriteFailed

  datatype Result<T> = Ok(value: T) | Err(error: Error)

  /** Go's `int` on a 64-bit platform. */
  type Int64 = x: int | -0x8000_0000_0000_0000 <= x < 0x8000_0000_0000_0000

  const MinInt64: int := -0x8000_0000_0000_0000
  const TwoTo64: int := 0x1_0000_0000_0000_0000

  /** Two's-complement wrap-around of 64-bit integer arithmetic. */
  function Wrap64(x: int): (r: Int64)
    ensures MinInt64 <= x < MinInt64 + TwoTo64 ==> r == x
    ensures x >= MinInt64 + TwoTo64 && x < MinInt64 + 2 * TwoTo64 ==> r == x - TwoTo64
  {
    (x - MinInt64) % TwoTo64 + MinInt64
  }

  datatype User = User(id: nat, username: string, password: string, email: string, level: int, token: string)

  /** `Price` is kept in integer cents. */
  datatype Product = Product(id: nat, name: string, category: string, price: int, stock: Int64)

  datatype Order = Order(id: nat, userId: nat, productId: nat, quantity: Int64, total: int, status: string)

  /** gorm's `First`: the position of the first row, in primary-key order, that
      satisfies the condition, or `None` when no row does. */
  function First<T>(rows: seq<T>, where: T -> bool): (k: Option<nat>)
    ensures k.Some? ==> k.value < |rows| && where(rows[k.value])
    ensures k.Some? ==> forall j :: 0 <= j < k.value ==> !where(rows[j])
    ensures k.None? <==> forall j :: 0 <= j < |rows| ==> !where(rows[j])
    decreases |rows|
  {
    if |rows| == 0 then None
    else if where(rows[0]) then Some(0)
    else match First(rows[1..], where)
      case None => None
      case Some(k) => Some(k + 1)
  }

  function FindProduct(products: seq<Product>, id: nat): (k: Option<nat>)
    ensures k.Some? ==> k.value < |products| && products[k.value].id == id
    ensures k.None? <==> forall j :: 0 <= j < |products| ==> products[j].id != id
  {
    First(products, (p: Product) => p.id == id)
  }

  function FindOrder(orders: seq<Order>, id: nat): (k: Option<nat>)
    ensures k.Some? ==> k.value < |orders| && orders[k.value].id == id
    ensures k.None? <==> forall j :: 0 <= j < |orders| ==> orders[j].id != id
  {
    First(orders, (o: Order) => o.id == id)
  }

  function FindUsername(users: seq<User>, username: string): (k: Option<nat>)
    ensures k.Some? ==> k.value < |users| && users[k.value].username == username
    ensures k.None? <==> forall j :: 0 <= j < |users| ==> users[j].username != username
  {
    First(users, (u: User) => u.username == username)
  }

  /** The user a token belongs to: the first user, by ID, whose current token is `token`. */
  function FindToken(users: seq<User>, token: string): (k: Option<nat>)
    ensures k.Some? ==> k.value < |users| && users[k.value].token == token
    ensures k.Some? ==> forall j :: 0 <= j < k.value ==> users[j].token != token
    ensures k.None? <==> forall j :: 0 <= j < |users| ==> users[j].token != token
  {
    First(users, (u: User) => u.token == token)
  }

  /** Autoincrement primary keys: all keys lie in [1, next) and grow along the table. */
  ghost predicate UsersKeyed(users: seq<User>, next: nat) {
    && next >= 1
    && (forall i :: 0 <= i < |users| ==> 1 <= users[i].id < next)
    && (forall i, j :: 0 <= i < j < |users| ==> users[i].id < users[j].id)
  }

  ghost predicate ProductsKeyed(products: seq<Product>, next: nat) {
    && next >= 1
    && (forall i :: 0 <= i < |products| ==> 1 <= products[i].id < next)
    && (forall i, j :: 0 <= i < j < |products| ==> products[i].id < products[j].id)
  }

  ghost predicate OrdersKeyed(orders: seq<Order>, next: nat) {
    && next >= 1
    && (forall i :: 0 <= i < |orders| ==> 1 <= orders[i].id < next)
    && (forall i, j :: 0 <= i < j < |orders| ==> orders[i].id < orders[j].id)
  }

  // Inserting with the next key, updating a row in place and deleting a row keep the keys in order.

  lemma {:induction false} UsersKeyedAppend(users: seq<User>, next: nat, u: User)
    requires UsersKeyed(users, next) && u.id == next
    ensures UsersKeyed(users + [u], next + 1)
  {
  }

  lemma {:induction false} UsersKeyedUpdate(users: seq<User>, next: nat, k: nat, u: User)
    requires UsersKeyed(users, next) && k < |users| && u.id == users[k].id
    ensures UsersKeyed(users[k := u], next)
  {
  }

  lemma {:induction false} ProductsKeyedAppend(products: seq<Product>, next: nat, p: Product)
    requires ProductsKeyed(products, next) && p.id == next
    ensures ProductsKeyed(products + [p], next + 1)
  {
  }

  lemma {:induction false} ProductsKeyedUpdate(products: seq<Product>, next: nat, k: nat, p: Product)
    requires ProductsKeyed(products, next) && k < |products| && p.id == products[k].id
    ensures ProductsKeyed(products[k := p], next)
  {
  }

  lemma {:induction false} ProductsKeyedRemove(products: seq<Product>, next: nat, k: nat)
    requires ProductsKeyed(products, next) && k < |products|
    ensures ProductsKeyed(products[..k] + products[k + 1..], next)
    ensures var rest := products[..k] + products[k + 1..];
            forall i :: 0 <= i < |rest| ==> rest[i].id != products[k].id
  {
    var rest := products[..k] + products[k + 1..];
    assert forall i :: 0 <= i < |rest| ==> rest[i] == if i < k then products[i] else products[i + 1];
  }

  lemma {:induction false} OrdersKeyedAppend(orders: seq<Order>, next: nat, o: Order)
    requires OrdersKeyed(orders, next) && o.id == next
    ensures OrdersKeyed(orders + [o], next + 1)
  {
  }

  lemma {:induction false} OrdersKeyedUpdate(orders: seq<Order>, next: nat, k: nat, o: Order)
    requires OrdersKeyed(orders, next) && k < |orders| && o.id == orders[k].id
    ensures OrdersKeyed(orders[k := o], next)
  {
  }
}
