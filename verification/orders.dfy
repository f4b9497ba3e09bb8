/**
 The order endpoints: placing an order, listing orders, and the admin's
 status update.
 */
module Orders {
  import opened Wrappers
  import opened Models
  import opened Collections

  /** The statuses an admin may set, in the order the server lists them. */
  const ValidStatuses: seq<string> := ["pending", "confirmed", "preparing", "ready", "delivered", "cancelled"]

  /** The status every new order starts in. */
  const InitialStatus := "pending"

  const StatusUpdated := "Order status updated successfully"

  /** What one order line contributes to the total. */
  function LineAmount(item: CartItem): Cents
  {
    item.price * item.quantity
  }

  /**
   The sum of price × quantity over the items: nothing for no items, one
   line's amount for one item, and never negative when no price or quantity is.
   */
  function OrderTotal(items: seq<CartItem>): (r: Cents)
    ensures items == [] ==> r == 0
    ensures |items| == 1 ==> r == items[0].price * items[0].quantity
    ensures (forall i :: 0 <= i < |items| ==> items[i].price >= 0 && items[i].quantity >= 0) ==> r >= 0
  {
    if items == [] then 0 else LineAmount(items[0]) + OrderTotal(items[1..])
  }

  /** The total of a concatenation is the sum of the totals. */
  lemma {:induction false} OrderTotalAppend(a: seq<CartItem>, b: seq<CartItem>)
    ensures OrderTotal(a + b) == OrderTotal(a) + OrderTotal(b)
  {
    if a == [] {
      assert a + b == b;
    } else {
      assert (a + b)[1..] == a[1..] + b;
      OrderTotalAppend(a[1..], b);
    }
  }

  /** Two pizzas at 16.95 and one at 10.95 come to 44.85. */
  lemma OrderTotalExample()
    ensures OrderTotal([CartItem("p1", 2, Some("Medium 12\""), 1695), CartItem("p2", 1, None, 1095)]) == 4485
  {
  }

  /** The server's generator sum, accumulated from the first item to the last. */
  method SumLineAmounts(items: seq<CartItem>) returns (total: Cents)
    ensures total == OrderTotal(items)
  {
    total := 0;
    var i := 0;
    while i < |items|
      invariant 0 <= i <= |items|
      invariant total == OrderTotal(items[..i])
    {
      OrderTotalAppend(items[..i], [items[i]]);
      assert items[..i + 1] == items[..i] + [items[i]];
      total := total + LineAmount(items[i]);
      i := i + 1;
    }
    assert items[..i] == items;
  }

  /** The order a request describes, owned by the caller, priced from the request's own items. */
  function NewOrder(caller: User, data: OrderCreate, id: Id, now: Timestamp): Order
  {
    Order(id, caller.id, data.items, OrderTotal(data.items), InitialStatus,
          data.deliveryAddress, data.phone, data.notes, now, now)
  }

  /** POST /orders: any authenticated caller; appends a pending order. */
  function CreateOrder(store: Store, caller: User, data: OrderCreate, freshId: Id, now: Timestamp)
    : (r: Reply<Order>)
    requires forall o :: o in store.orders ==> o.id != freshId
    ensures r.result.Ok?
    ensures r.store == store.(orders := store.orders + [r.result.value])
    ensures var o := r.result.value;
      && o.id == freshId && o.userId == caller.id && o.status == "pending"
      && o.items == data.items && o.totalAmount == OrderTotal(data.items)
      && o.deliveryAddress == data.deliveryAddress && o.phone == data.phone && o.notes == data.notes
      && o.createdAt == now && o.updatedAt == now
  {
    var o := NewOrder(caller, data, freshId, now);
    Reply(store.(orders := store.orders + [o]), Ok(o))
  }

  /** The order created does not depend on the catalog: prices come from the request. */
  lemma CreateOrderIgnoresCatalog(s1: Store, s2: Store, caller: User, data: OrderCreate, freshId: Id, now: Timestamp)
    requires forall o :: o in s1.orders ==> o.id != freshId
    requires forall o :: o in s2.orders ==> o.id != freshId
    ensures CreateOrder(s1, caller, data, freshId, now).result == CreateOrder(s2, caller, data, freshId, now).result
  {
  }

  /** Placing an order keeps order ids distinct. */
  lemma CreateOrderPreservesWellFormed(store: Store, caller: User, data: OrderCreate, freshId: Id, now: Timestamp)
    requires WellFormed(store)
    requires forall o :: o in store.orders ==> o.id != freshId
    ensures WellFormed(CreateOrder(store, caller, data, freshId, now).store)
  {
  }

  /** Sort key putting the most recently created order first. */
  function NewestFirst(o: Order): int { -o.createdAt }

  /** GET /orders: every order for an admin, the caller's own otherwise; newest first. */
  function GetOrders(store: Store, caller: User): (r: seq<Order>)
    ensures caller.isAdmin ==> multiset(r) == multiset(store.orders)
    ensures !caller.isAdmin ==>
      forall o :: multiset(r)[o] == (if o.userId == caller.id then multiset(store.orders)[o] else 0)
    ensures forall o :: o in r <==> o in store.orders && (caller.isAdmin || o.userId == caller.id)
    ensures forall i, j :: 0 <= i < j < |r| ==> r[i].createdAt >= r[j].createdAt
  {
    var mine := (o: Order) => o.userId == caller.id;
    FilterCount(store.orders, mine);
    var scope := if caller.isAdmin then store.orders else Filter(store.orders, mine);
    var r := SortBy(scope, NewestFirst);
    assert forall o :: o in r <==> o in multiset(scope);
    r
  }

  /** A newly placed order is visible to the user who placed it. */
  lemma CreatedOrderIsListedForOwner(store: Store, caller: User, data: OrderCreate, freshId: Id, now: Timestamp)
    requires forall o :: o in store.orders ==> o.id != freshId
    ensures var r := CreateOrder(store, caller, data, freshId, now);
      r.result.value in GetOrders(r.store, caller)
  {
  }

  /** What a user sees is part of what an admin sees. */
  lemma OwnOrdersWithinAllOrders(store: Store, user: User, admin: User)
    requires admin.isAdmin
    ensures multiset(GetOrders(store, user)) <= multiset(GetOrders(store, admin))
  {
  }

  /**
   The database's `update_one`: sets status and update time of the first
   order with the id, and reports how many orders matched.
   */
  function SetStatusOfFirst(orders: seq<Order>, orderId: Id, status: string, now: Timestamp)
    : (r: (seq<Order>, nat))
    ensures r.1 == 0 <==> forall i :: 0 <= i < |orders| ==> orders[i].id != orderId
    ensures r.1 == 0 ==> r.0 == orders
    ensures r.1 != 0 ==> r.1 == 1 && exists k ::
      && 0 <= k < |orders| && orders[k].id == orderId
      && (forall j :: 0 <= j < k ==> orders[j].id != orderId)
      && r.0 == orders[k := orders[k].(status := status, updatedAt := now)]
  {
    match FirstIndexOf(orders, OrderId, orderId)
    case None => (orders, 0)
    case Some(k) => (orders[k := orders[k].(status := status, updatedAt := now)], 1)
  }

  /**
   PUT /orders/{id}/status: admin check, then status validity, then the
   update, whose zero match count becomes a 404. Any valid status is accepted
   whatever the order's current status is.
   */
  function UpdateOrderStatus(store: Store, caller: User, orderId: Id, status: string, now: Timestamp)
    : (r: Reply<string>)
    ensures r.result.Err? ==> r.store == store
    ensures !caller.isAdmin ==> r.result == Err(AdminRequired)
    ensures caller.isAdmin
      && status != "pending" && status != "confirmed" && status != "preparing"
      && status != "ready" && status != "delivered" && status != "cancelled"
      ==> r.result == Err(InvalidStatus)
    ensures caller.isAdmin && status in ValidStatuses
      && (forall i :: 0 <= i < |store.orders| ==> store.orders[i].id != orderId)
      ==> r.result == Err(OrderNotFound)
    ensures r.result.Ok? <==> (caller.isAdmin && status in ValidStatuses
      && exists i :: 0 <= i < |store.orders| && store.orders[i].id == orderId)
    ensures r.result.Ok? ==> r.result.value == StatusUpdated && exists k ::
      && 0 <= k < |store.orders| && store.orders[k].id == orderId
      && (forall j :: 0 <= j < k ==> store.orders[j].id != orderId)
      && r.store == store.(orders := store.orders[k := store.orders[k].(status := status, updatedAt := now)])
  {
    if !caller.isAdmin then Reply(store, Err(AdminRequired))
    else if status !in ValidStatuses then Reply(store, Err(InvalidStatus))
    else
      var (orders', matched) := SetStatusOfFirst(store.orders, orderId, status, now);
      var store' := store.(orders := orders');
      if matched == 0 then Reply(store', Err(OrderNotFound))
      else Reply(store', Ok(StatusUpdated))
  }

  /**
   With distinct ids, a successful update changes the status and update time
   of the order with that id and nothing else: its items, total and owner,
   and every other order, stay as they were.
   */
  lemma StatusUpdateTouchesOnlyTarget(store: Store, caller: User, orderId: Id, status: string, now: Timestamp)
    requires WellFormed(store)
    ensures var r := UpdateOrderStatus(store, caller, orderId, status, now);
      r.result.Ok? ==>
        && r.store.users == store.users && r.store.categories == store.categories
        && r.store.products == store.products
        && |r.store.orders| == |store.orders|
        && forall i :: 0 <= i < |store.orders| ==>
          r.store.orders[i] == if store.orders[i].id == orderId
            then store.orders[i].(status := status, updatedAt := now)
            else store.orders[i]
  {
  }

  /**
   No transition graph is enforced: an admin may move an existing order from
   whatever status it has, terminal ones included, to any valid status.
   */
  lemma AnyValidStatusFromAnyStatus(store: Store, caller: User, i: nat, status: string, now: Timestamp)
    requires caller.isAdmin
    requires i < |store.orders|
    requires status in ValidStatuses
    requires WellFormed(store)
    ensures var r := UpdateOrderStatus(store, caller, store.orders[i].id, status, now);
      r.result.Ok? && r.store.orders[i] == store.orders[i].(status := status, updatedAt := now)
  {
  }

  /** A delivered order can be put back to pending. */
  lemma DeliveredOrderCanBeReopened(store: Store, caller: User, i: nat, now: Timestamp)
    requires caller.isAdmin && WellFormed(store)
    requires i < |store.orders| && store.orders[i].status == "delivered"
    ensures var r := UpdateOrderStatus(store, caller, store.orders[i].id, "pending", now);
      r.result.Ok? && r.store.orders[i].status == "pending"
  {
  }

  /** Repeating a status update with the same time changes nothing further. */
  lemma StatusUpdateIdempotent(store: Store, caller: User, orderId: Id, status: string, now: Timestamp)
    ensures var once := UpdateOrderStatus(store, caller, orderId, status, now);
      UpdateOrderStatus(once.store, caller, orderId, status, now) == once
  {
    var once := UpdateOrderStatus(store, caller, orderId, status, now);
    if once.result.Ok? {
      var k :| 0 <= k < |store.orders| && store.orders[k].id == orderId
        && (forall j :: 0 <= j < k ==> store.orders[j].id != orderId)
        && once.store == store.(orders := store.orders[k := store.orders[k].(status := status, updatedAt := now)]);
      var os := once.store.orders;
      FirstIndexIsFirstMatch(os, OrderId, orderId, k);
      assert os[k := os[k].(status := status, updatedAt := now)] == os;
    }
  }

  /** How many orders a viewer sees depends only on who owns each stored order. */
  lemma ListingSizeFollowsOwners(s1: Store, s2: Store, viewer: User)
    requires |s1.orders| == |s2.orders|
    requires forall i :: 0 <= i < |s1.orders| ==> s1.orders[i].userId == s2.orders[i].userId
    ensures |GetOrders(s1, viewer)| == |GetOrders(s2, viewer)|
  {
    var mine := (o: Order) => o.userId == viewer.id;
    var scope1 := if viewer.isAdmin then s1.orders else Filter(s1.orders, mine);
    var scope2 := if viewer.isAdmin then s2.orders else Filter(s2.orders, mine);
    assert |SortBy(scope1, NewestFirst)| == |multiset(scope1)|;
    assert |SortBy(scope2, NewestFirst)| == |multiset(scope2)|;
    if !viewer.isAdmin {
      FilterSameVerdicts(s1.orders, s2.orders, mine);
    }
  }

  /** A status update changes no one's view of how many orders there are. */
  lemma StatusUpdateKeepsListingSizes(store: Store, caller: User, orderId: Id, status: string, now: Timestamp,
                                      viewer: User)
    ensures var r := UpdateOrderStatus(store, caller, orderId, status, now);
      |GetOrders(r.store, viewer)| == |GetOrders(store, viewer)|
  {
    var r := UpdateOrderStatus(store, caller, orderId, status, now);
    assert |r.store.orders| == |store.orders|;
    assert forall i :: 0 <= i < |store.orders| ==> r.store.orders[i].userId == store.orders[i].userId;
    ListingSizeFollowsOwners(r.store, store, viewer);
  }

  /** A status update keeps order ids distinct. */
  lemma StatusUpdatePreservesWellFormed(store: Store, caller: User, orderId: Id, status: string, now: Timestamp)
    requires WellFormed(store)
    ensures WellFormed(UpdateOrderStatus(store, caller, orderId, status, now).store)
  {
  }
}
