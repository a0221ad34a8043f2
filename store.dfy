/** The HTTP handlers of the shop, lifted out of gin, gorm and Redis: one store
    object holds the users, products and orders tables and the catalogue cache,
    and each handler is a method that updates them and returns a result or an
    error. */
module Shop {
  import opened Tables
  import opened Auth
  import opened Inventory
  import Catalogue

  /** What every order row satisfies: it was placed by a registered user for at
      least one unit, and its status is one of the two the handlers write. */
  ghost predicate OrderWellFormed(o: Order, nextUserId: nat) {
    && 1 <= o.userId < nextUserId
    && o.quantity > 0
    && (o.status == Unpaid || o.status == Paid)
  }

  ghost predicate OrdersWellFormed(orders: seq<Order>, nextUserId: nat) {
    forall i :: 0 <= i < |orders| ==> OrderWellFormed(orders[i], nextUserId)
  }

  /** The unique indexes on `username` and `email`. */
  ghost predicate AccountsUnique(users: seq<User>) {
    forall i, j :: 0 <= i < j < |users| ==>
      users[i].username != users[j].username && users[i].email != users[j].email
  }

  /** The invariant of the store: primary keys, unique indexes, token uniqueness
      and well-formed orders. */
  ghost predicate TablesValid(users: seq<User>, products: seq<Product>, orders: seq<Order>,
                              nextUserId: nat, nextProductId: nat, nextOrderId: nat)
  {
    && UsersKeyed(users, nextUserId)
    && ProductsKeyed(products, nextProductId)
    && OrdersKeyed(orders, nextOrderId)
    && AccountsUnique(users)
    && TokensUnique(users)
    && OrdersWellFormed(orders, nextUserId)
  }

  /** Giving one user a token nobody holds, or the empty token, keeps the users
      table's keys, unique indexes and token uniqueness. */
  lemma {:induction false} SetTokenKeepsUsers(users: seq<User>, next: nat, k: nat, token: string)
    requires UsersKeyed(users, next) && AccountsUnique(users) && TokensUnique(users) && k < |users|
    requires token == "" || forall i :: 0 <= i < |users| ==> users[i].token != token
    ensures var after := users[k := users[k].(token := token)];
            UsersKeyed(after, next) && AccountsUnique(after) && TokensUnique(after)
  {
    UsersKeyedUpdate(users, next, k, users[k].(token := token));
  }

  /** Inserting a user with the next key, a fresh token and a username and email
      nobody has keeps the users table's invariants. */
  lemma {:induction false} AddUserKeepsUsers(users: seq<User>, next: nat, u: User)
    requires UsersKeyed(users, next) && AccountsUnique(users) && TokensUnique(users)
    requires u.id == next && u.token != ""
    requires forall i :: 0 <= i < |users| ==>
               users[i].token != u.token && users[i].username != u.username && users[i].email != u.email
    ensures var after := users + [u];
            UsersKeyed(after, next + 1) && AccountsUnique(after) && TokensUnique(after)
  {
    UsersKeyedAppend(users, next, u);
  }

  /** An order for at least one unit, by the user a request is admitted for, can be
      added to the orders table. */
  lemma {:induction false} AdmittedOrderIsWellFormed(users: seq<User>, next: nat, header: string,
                                                      orders: seq<Order>, o: Order)
    requires UsersKeyed(users, next) && LoginGate(users, header).Ok? && OrdersWellFormed(orders, next)
    requires o.userId == LoginGate(users, header).value && o.quantity > 0 && o.status == Unpaid
    ensures OrdersWellFormed(orders + [o], next)
  {
    assert OrderWellFormed(o, next);
  }

  /** The user a request is admitted for is registered. */
  lemma {:induction false} AdmittedUserIsRegistered(users: seq<User>, next: nat, header: string)
    requires UsersKeyed(users, next) && LoginGate(users, header).Ok?
    ensures 1 <= LoginGate(users, header).value < next
  {
  }

  /** The response to `POST /order` and the products and orders tables afterwards. */
  datatype OrderStep = OrderStep(result: Result<Order>, products: seq<Product>, orders: seq<Order>, nextOrderId: nat)

  /** What `POST /order` does to the tables: look the product up, check and decrement
      its stock, save it, then insert the order. `insertFails` is the outcome of the
      insert, which comes after the product has been saved. */
  function PlaceOrderStep(users: seq<User>, products: seq<Product>, orders: seq<Order>, nextOrderId: nat,
                          header: string, productId: nat, quantity: Int64, insertFails: bool): OrderStep
  {
    match LoginGate(users, header)
    case Err(e) => OrderStep(Err(e), products, orders, nextOrderId)
    case Ok(user) =>
      match FindProduct(products, productId)
      case None => OrderStep(Err(ProductNotFound), products, orders, nextOrderId)
      case Some(k) =>
        match Reserve(products[k], quantity)
        case Err(e) => OrderStep(Err(e), products, orders, nextOrderId)
        case Ok(p) =>
          if insertFails then OrderStep(Err(OrderCreationFailed), products[k := p], orders, nextOrderId)
          else
            var o := Order(nextOrderId, user, productId, quantity, OrderTotal(quantity, products[k].price), Unpaid);
            OrderStep(Ok(o), products[k := p], orders + [o], nextOrderId + 1)
  }

  /** What placing an order promises, for every request and every state of the tables. */
  lemma {:induction false} PlaceOrderEffects(users: seq<User>, products: seq<Product>, orders: seq<Order>, nextOrderId: nat,
                                             header: string, productId: nat, quantity: Int64, insertFails: bool)
    ensures var s := PlaceOrderStep(users, products, orders, nextOrderId, header, productId, quantity, insertFails);
      // Only the ordered product changes, by exactly the quantity, and never below zero.
      && |s.products| == |products|
      && (forall i :: 0 <= i < |products| && s.products[i] != products[i] ==>
            && products[i].id == productId
            && 0 < quantity <= products[i].stock
            && s.products[i] == products[i].(stock := products[i].stock - quantity))
      // A placed order is unpaid, priced at quantity times the product's price, and
      // belongs to the user the token resolves to, whatever the request said.
      && (s.result.Ok? ==>
            && LoginGate(users, header) == Ok(s.result.value.userId)
            && s.result.value.id == nextOrderId
            && s.result.value.productId == productId && s.result.value.quantity == quantity
            && s.result.value.status == Unpaid
            && (exists k :: 0 <= k < |products| && products[k].id == productId &&
                            s.result.value.total == quantity * products[k].price &&
                            s.products[k].stock == products[k].stock - quantity)
            && s.orders == orders + [s.result.value] && s.nextOrderId == nextOrderId + 1)
      && (s.result.Err? ==> s.orders == orders && s.nextOrderId == nextOrderId)
      // Every rejection leaves the stock alone; a failed insert does not.
      && (s.result.Err? && s.result.error != OrderCreationFailed ==> s.products == products)
      && (s.result == Err(OrderCreationFailed) ==> insertFails && s.products != products)
      && (LoginGate(users, header).Err? ==> s.result == Err(LoginGate(users, header).error))
      && (s.result == Err(ProductNotFound) <==>
            LoginGate(users, header).Ok? && forall i :: 0 <= i < |products| ==> products[i].id != productId)
      // Once the user and the product are known, the outcome depends only on the
      // quantity, the stock and the insert: each outcome happens exactly in its case.
      && (LoginGate(users, header).Ok? && FindProduct(products, productId).Some? ==>
            var stock := products[FindProduct(products, productId).value].stock;
            && (s.result.Ok? <==> 0 < quantity <= stock && !insertFails)
            && (s.result == Err(InvalidQuantity) <==> quantity <= 0)
            && (s.result == Err(InsufficientStock) <==> 0 < quantity && stock < quantity)
            && (s.result == Err(OrderCreationFailed) <==> 0 < quantity <= stock && insertFails))
  {
    if LoginGate(users, header).Ok? {
      var k := FindProduct(products, productId);
      if k.Some? && Reserve(products[k.value], quantity).Ok? {
        var p := Reserve(products[k.value], quantity).value;
        assert products[k.value := p][k.value] != products[k.value];
      }
    }
  }

  /** Placing an order keeps the store's invariant, whether it succeeds or not. */
  lemma {:induction false} PlaceOrderKeepsInvariant(users: seq<User>, products: seq<Product>, orders: seq<Order>,
                                                     nextUserId: nat, nextProductId: nat, nextOrderId: nat,
                                                     header: string, productId: nat, quantity: Int64, insertFails: bool)
    requires TablesValid(users, products, orders, nextUserId, nextProductId, nextOrderId)
    ensures var s := PlaceOrderStep(users, products, orders, nextOrderId, header, productId, quantity, insertFails);
            TablesValid(users, s.products, s.orders, nextUserId, nextProductId, s.nextOrderId)
  {
    if LoginGate(users, header).Ok? {
      var k := FindProduct(products, productId);
      if k.Some? && Reserve(products[k.value], quantity).Ok? {
        var p := Reserve(products[k.value], quantity).value;
        ProductsKeyedUpdate(products, nextProductId, k.value, p);
        if !insertFails {
          var s := PlaceOrderStep(users, products, orders, nextOrderId, header, productId, quantity, insertFails);
          AdmittedOrderIsWellFormed(users, nextUserId, header, orders, s.result.value);
          OrdersKeyedAppend(orders, nextOrderId, s.result.value);
        }
      }
    }
  }

  class Store {
    var users: seq<User>
    var products: seq<Product>
    var orders: seq<Order>
    var cache: Option<Catalogue.Entry>
    var nextUserId: nat
    var nextProductId: nat
    var nextOrderId: nat

    ghost predicate Valid()
      reads this
    {
      TablesValid(users, products, orders, nextUserId, nextProductId, nextOrderId)
    }

    constructor ()
      ensures Valid()
      ensures users == [] && products == [] && orders == [] && cache == None
      ensures nextUserId == 1 && nextProductId == 1 && nextOrderId == 1
    {
      users, products, orders, cache := [], [], [], None;
      nextUserId, nextProductId, nextOrderId := 1, 1, 1;
    }

    /** `POST /register`. The level the client asks for is overwritten with 1 and the
        token with a fresh one; the insert fails when the username or the email is
        already taken. */
    method Register(username: string, passwordHash: string, email: string, requestedLevel: int, newToken: string)
      returns (r: Result<string>)
      requires Valid()
      requires newToken != "" && forall i :: 0 <= i < |users| ==> users[i].token != newToken
      modifies this`users, this`nextUserId
      ensures Valid()
      ensures r.Err? <==> exists i :: 0 <= i < |old(users)| &&
                                      (old(users)[i].username == username || old(users)[i].email == email)
      ensures r.Err? ==> r.error == RegistrationFailed && users == old(users) && nextUserId == old(nextUserId)
      ensures r.Ok? ==> && r.value == newToken
                        && users == old(users) + [User(old(nextUserId), username, passwordHash, email, 1, newToken)]
                        && nextUserId == old(nextUserId) + 1
      ensures r.Ok? ==> CheckLoginStrict(users, newToken) == old(nextUserId) &&
                        CheckPermissionStrict(users, newToken) == 1
    {
      var user := User(0, username, passwordHash, email, requestedLevel, "");
      user := user.(level := 1);
      user := user.(token := newToken);
      var clash := First(users, (u: User) => u.username == username || u.email == email);
      if clash.Some? {
        return Err(RegistrationFailed);
      }
      user := user.(id := nextUserId);
      RegisteredUserSession(users, user);
      AddUserKeepsUsers(users, nextUserId, user);
      users := users + [user];
      nextUserId := nextUserId + 1;
      return Ok(newToken);
    }

    /** `POST /login`: the user with that name, if the password matches its hash,
        gets a fresh token in place of the old one. `matches` stands for bcrypt's
        comparison. */
    method Login(username: string, password: string, matches: (string, string) -> bool, newToken: string)
      returns (r: Result<string>)
      requires Valid()
      requires newToken != "" && forall i :: 0 <= i < |users| ==> users[i].token != newToken
      modifies this`users
      ensures Valid()
      ensures FindUsername(old(users), username).None? ==> r == Err(UserNotFound) && users == old(users)
      ensures FindUsername(old(users), username).Some? ==>
                var k := FindUsername(old(users), username).value;
                var u := old(users)[k];
                if matches(u.password, password) then
                  && r == Ok(newToken)
                  && users == old(users)[k := u.(token := newToken)]
                  && CheckLoginStrict(users, newToken) == u.id
                  && CheckLoginStrict(users, u.token) == 0
                else
                  r == Err(IncorrectPassword) && users == old(users)
    {
      var k := FindUsername(users, username);
      if k.None? {
        return Err(UserNotFound);
      }
      var user := users[k.value];
      if !matches(user.password, password) {
        return Err(IncorrectPassword);
      }
      LoginRotatesToken(users, k.value, newToken);
      SetTokenKeepsUsers(users, nextUserId, k.value, newToken);
      user := user.(token := newToken);
      users := users[k.value := user];
      return Ok(newToken);
    }

    /** `POST /logout`: the first user holding the token is given the empty token. */
    method Logout(token: string) returns (r: Result<()>)
      requires Valid()
      modifies this`users
      ensures Valid()
      ensures FindToken(old(users), token).None? ==> r == Err(UserNotFound) && users == old(users)
      ensures FindToken(old(users), token).Some? ==>
                var k := FindToken(old(users), token).value;
                && r == Ok(())
                && users == old(users)[k := old(users)[k].(token := "")]
                && CheckLoginStrict(users, token) == 0
    {
      var k := FindToken(users, token);
      if k.None? {
        return Err(UserNotFound);
      }
      LogoutRevokesToken(users, k.value);
      SetTokenKeepsUsers(users, nextUserId, k.value, "");
      var user := users[k.value];
      user := user.(token := "");
      users := users[k.value := user];
      return Ok(());
    }

    /** `POST /admin/product`. `insertFails` is the outcome of the insert. */
    method CreateProduct(header: string, name: string, category: string, price: int, stock: Int64,
                         insertFails: bool)
      returns (r: Result<Product>)
      requires Valid()
      modifies this`products, this`nextProductId
      ensures AdminGate(users, header).Err? ==>
                r == Err(AdminGate(users, header).error) &&
                products == old(products) && nextProductId == old(nextProductId)
      ensures AdminGate(users, header).Ok? && insertFails ==>
                r == Err(ProductCreationFailed) &&
                products == old(products) && nextProductId == old(nextProductId)
      ensures AdminGate(users, header).Ok? && !insertFails ==>
                && r == Ok(Product(old(nextProductId), name, category, price, stock))
                && products == old(products) + [r.value]
                && nextProductId == old(nextProductId) + 1
      ensures Valid()
    {
      var gate := AdminGate(users, header);
      if gate.Err? {
        return Err(gate.error);
      }
      if insertFails {
        return Err(ProductCreationFailed);
      }
      var product := Product(nextProductId, name, category, price, stock);
      ProductsKeyedAppend(products, nextProductId, product);
      products := products + [product];
      nextProductId := nextProductId + 1;
      return Ok(product);
    }

    /** `GET /admin/product/:id`. */
    method GetProduct(header: string, id: nat) returns (r: Result<Product>)
      ensures AdminGate(users, header).Err? ==> r == Err(AdminGate(users, header).error)
      ensures AdminGate(users, header).Ok? ==>
                (r.Ok? <==> exists i :: 0 <= i < |products| && products[i].id == id) &&
                (r.Err? ==> r.error == ProductNotFound)
      ensures r.Ok? ==> r.value in products && r.value.id == id
    {
      var gate := AdminGate(users, header);
      if gate.Err? {
        return Err(gate.error);
      }
      var k := FindProduct(products, id);
      if k.None? {
        return Err(ProductNotFound);
      }
      return Ok(products[k.value]);
    }

    /** `DELETE /admin/product/:id`. */
    method DeleteProduct(header: string, id: nat) returns (r: Result<()>)
      requires Valid()
      modifies this`products
      ensures Valid()
      ensures AdminGate(users, header).Err? ==> r == Err(AdminGate(users, header).error) && products == old(products)
      ensures AdminGate(users, header).Ok? && FindProduct(old(products), id).None? ==>
                r == Err(ProductNotFound) && products == old(products)
      ensures AdminGate(users, header).Ok? && FindProduct(old(products), id).Some? ==>
                var k := FindProduct(old(products), id).value;
                && r == Ok(())
                && products == old(products)[..k] + old(products)[k + 1..]
                && forall i :: 0 <= i < |products| ==> products[i].id != id
    {
      var gate := AdminGate(users, header);
      if gate.Err? {
        return Err(gate.error);
      }
      var k := FindProduct(products, id);
      if k.None? {
        return Err(ProductNotFound);
      }
      ProductsKeyedRemove(products, nextProductId, k.value);
      products := products[..k.value] + products[k.value + 1..];
      return Ok(());
    }

    /** `GET /product`: read the cache, and on a miss load the table, store it for
        five seconds and return it. */
    method ListProducts(now: int, faults: Catalogue.Faults) returns (r: Result<seq<Product>>)
      requires Valid()
      modifies this`cache
      ensures Valid()
      ensures Catalogue.Read(old(cache), products, now, faults) == Catalogue.Served(r, cache)
    {
      if faults.cacheReadFails {
        return Err(CacheReadFailed);
      }
      var cached := Catalogue.Get(cache, now);
      if cached.Some? {
        return Ok(cached.value);
      }
      if faults.productsReadFails {
        return Err(ProductsReadFailed);
      }
      var loaded := products;
      if faults.cacheWriteFails {
        return Err(CacheWriteFailed);
      }
      cache := Some(Catalogue.Entry(loaded, now + Catalogue.TtlMillis));
      return Ok(loaded);
    }

    /** `POST /order`: check the stock, decrement it, save the product, then insert
        an unpaid order for the user the token belongs to. */
    method PlaceOrder(header: string, productId: nat, quantity: Int64, insertFails: bool)
      returns (r: Result<Order>)
      requires Valid()
      modifies this`products, this`orders, this`nextOrderId
      ensures Valid()
      ensures var s := PlaceOrderStep(users, old(products), old(orders), old(nextOrderId),
                                      header, productId, quantity, insertFails);
              r == s.result && products == s.products && orders == s.orders && nextOrderId == s.nextOrderId
    {
      var gate := LoginGate(users, header);
      if gate.Err? {
        return Err(gate.error);
      }
      var k := FindProduct(products, productId);
      if k.None? {
        return Err(ProductNotFound);
      }
      var product := products[k.value];
      var reserved := Reserve(product, quantity);
      if reserved.Err? {
        return Err(reserved.error);
      }
      AdmittedUserIsRegistered(users, nextUserId, header);
      r := SaveOrder(k.value, reserved.value, gate.value, quantity,
                     OrderTotal(quantity, product.price), insertFails);
    }

    /** The two writes at the end of `POST /order`: save the product with its new
        stock, then insert an unpaid order under the next key. The product stays
        saved when the insert fails. */
    method SaveOrder(k: nat, product: Product, userId: nat, quantity: Int64, total: int, insertFails: bool)
      returns (r: Result<Order>)
      requires Valid()
      requires k < |products| && product.id == products[k].id
      requires 1 <= userId < nextUserId && quantity > 0
      modifies this`products, this`orders, this`nextOrderId
      ensures products == old(products)[k := product]
      ensures insertFails ==> r == Err(OrderCreationFailed) && orders == old(orders) && nextOrderId == old(nextOrderId)
      ensures !insertFails ==>
                && r == Ok(Order(old(nextOrderId), userId, product.id, quantity, total, Unpaid))
                && orders == old(orders) + [r.value]
                && nextOrderId == old(nextOrderId) + 1
      ensures Valid()
    {
      ProductsKeyedUpdate(products, nextProductId, k, product);
      products := products[k := product];
      if insertFails {
        return Err(OrderCreationFailed);
      }
      var order := Order(nextOrderId, userId, product.id, quantity, total, Unpaid);
      assert OrderWellFormed(order, nextUserId);
      OrdersKeyedAppend(orders, nextOrderId, order);
      orders := orders + [order];
      nextOrderId := nextOrderId + 1;
      return Ok(order);
    }

    /** `POST /order/pay`: an unpaid order becomes paid; any other status is refused.
        Any logged-in user may pay any order. */
    method PayOrder(header: string, orderId: nat) returns (r: Result<()>)
      requires Valid()
      modifies this`orders
      ensures LoginGate(users, header).Err? ==> r == Err(LoginGate(users, header).error) && orders == old(orders)
      ensures LoginGate(users, header).Ok? && FindOrder(old(orders), orderId).None? ==>
                r == Err(OrderNotFound) && orders == old(orders)
      ensures LoginGate(users, header).Ok? && FindOrder(old(orders), orderId).Some? ==>
                var k := FindOrder(old(orders), orderId).value;
                if old(orders)[k].status == Unpaid then
                  r == Ok(()) && orders == old(orders)[k := old(orders)[k].(status := Paid)]
                else
                  r == Err(AlreadyPaid) && orders == old(orders)
      ensures Valid()
    {
      var gate := LoginGate(users, header);
      if gate.Err? {
        return Err(gate.error);
      }
      var k := FindOrder(orders, orderId);
      if k.None? {
        return Err(OrderNotFound);
      }
      var order := orders[k.value];
      var paid := Pay(order.status);
      if paid.Err? {
        return Err(paid.error);
      }
      order := order.(status := paid.value);
      assert OrderWellFormed(order, nextUserId);
      OrdersKeyedUpdate(orders, nextOrderId, k.value, order);
      orders := orders[k.value := order];
      return Ok(());
    }
  }
}
