/**
 * Order placement and cancellation (UserOrderCreateSerializer.create,
 * OrderItemCreateSerializer.create, UserOrderCancelSerializer.update).
 * The database tables are the fields of a `Shop`: products by id with their
 * current sale price, orders by id, and the order-item rows.
 */
module Orders {
  import opened Wrappers

  type ProductId = nat
  type UserId = nat
  type OrderId = nat
  type PaymentId = nat

  /** ORDER_STATUS, as far as the serializers use it. */
  datatype Status = WaitingConfirm | Success | Cancel

  /** The shop-wide shipping fee; its value is configured elsewhere and not known here. */
  const SHIPPING_FEE: int

  const CANCEL_REFUSED := "Order has been processed and cannot be cancelled. Please contact admin."

  /**
   * A requested line item as submitted. The client may also send an order
   * id and an order price; creation overwrites both.
   */
  datatype ItemRequest = ItemRequest(product: ProductId, count: int, order: Option<OrderId>, orderPrice: Option<int>)

  /**
   * A validated order submission. The client may also send the price
   * fields of the order; creation overwrites them.
   */
  datatype OrderRequest = OrderRequest(
    user: UserId, payment: PaymentId, status: Status,
    sumPrice: Option<int>, shippingFee: Option<int>, totalCost: Option<int>,
    items: seq<ItemRequest>)

  datatype Order = Order(
    id: OrderId, user: UserId, payment: PaymentId, status: Status,
    sumPrice: int, shippingFee: int, totalCost: int)

  datatype OrderItem = OrderItem(order: OrderId, product: ProductId, count: int, orderPrice: int)

  datatype OrderError = ItemValidationError | ClientException(message: string)

  predicate ProductsKnown(reqs: seq<ItemRequest>, products: map<ProductId, int>)
  {
    forall i :: 0 <= i < |reqs| ==> reqs[i].product in products
  }

  /** Σ sale_price × count over the requested items, summed from the left. */
  function SumPrice(reqs: seq<ItemRequest>, products: map<ProductId, int>): int
    requires ProductsKnown(reqs, products)
    decreases |reqs|
  {
    if reqs == [] then 0
    else
      var last := reqs[|reqs| - 1];
      SumPrice(reqs[..|reqs| - 1], products) + products[last.product] * last.count
  }

  /** The row stored for one requested item of order `order`. */
  function CapturedItem(order: OrderId, req: ItemRequest, products: map<ProductId, int>): OrderItem
    requires req.product in products
  {
    OrderItem(order, req.product, req.count, products[req.product])
  }

  /** The rows stored for the requested items of order `order`, in request order. */
  function LineItems(order: OrderId, reqs: seq<ItemRequest>, products: map<ProductId, int>): seq<OrderItem>
    requires ProductsKnown(reqs, products)
    decreases |reqs|
  {
    if reqs == [] then []
    else LineItems(order, reqs[..|reqs| - 1], products) + [CapturedItem(order, reqs[|reqs| - 1], products)]
  }

  /** Σ order_price × count over the stored rows that belong to order `id`. */
  function ItemsTotal(items: seq<OrderItem>, id: OrderId): int
    decreases |items|
  {
    if items == [] then 0
    else
      var last := items[|items| - 1];
      ItemsTotal(items[..|items| - 1], id) + (if last.order == id then last.orderPrice * last.count else 0)
  }

  /**
   * The cancellation guard: only an order waiting for confirmation can be
   * cancelled, and it then becomes CANCEL; any other status is refused.
   */
  function CancelTransition(s: Status): (r: Result<Status, OrderError>)
    ensures r.Ok? <==> s == WaitingConfirm
    ensures r.Ok? ==> r.value == Cancel
    ensures r.Err? ==> r.error == ClientException(CANCEL_REFUSED)
  {
    if s != WaitingConfirm then Err(ClientException(CANCEL_REFUSED)) else Ok(Cancel)
  }

  /** A second cancellation of the same order always fails. */
  lemma CancelTwiceFails(s: Status)
    requires CancelTransition(s).Ok?
    ensures CancelTransition(CancelTransition(s).value) == Err(ClientException(CANCEL_REFUSED))
  {
  }

  /**
   * Every stored row belongs to the new order, refers to the requested
   * product and count, and captures the product's current sale price
   * (never a client-supplied price).
   */
  lemma {:induction false} LineItemsCapturePrices(order: OrderId, reqs: seq<ItemRequest>, products: map<ProductId, int>)
    requires ProductsKnown(reqs, products)
    ensures |LineItems(order, reqs, products)| == |reqs|
    ensures forall i :: 0 <= i < |reqs| ==>
      && LineItems(order, reqs, products)[i].order == order
      && LineItems(order, reqs, products)[i].product == reqs[i].product
      && LineItems(order, reqs, products)[i].count == reqs[i].count
      && LineItems(order, reqs, products)[i].orderPrice == products[reqs[i].product]
    decreases |reqs|
  {
    if reqs != [] {
      var init := reqs[..|reqs| - 1];
      LineItemsCapturePrices(order, init, products);
      forall i | 0 <= i < |reqs| - 1 ensures init[i] == reqs[i] { }
    }
  }

  /**
   * The stored rows do not depend on the order id or the order price the
   * client sent with each item.
   */
  lemma {:induction false} LineItemsIgnoreClientFields(order: OrderId, a: seq<ItemRequest>, b: seq<ItemRequest>, products: map<ProductId, int>)
    requires ProductsKnown(a, products)
    requires |a| == |b|
    requires forall i :: 0 <= i < |a| ==> a[i].product == b[i].product && a[i].count == b[i].count
    ensures ProductsKnown(b, products)
    ensures LineItems(order, a, products) == LineItems(order, b, products)
    ensures SumPrice(a, products) == SumPrice(b, products)
    decreases |a|
  {
    if a != [] {
      LineItemsIgnoreClientFields(order, a[..|a| - 1], b[..|b| - 1], products);
    }
  }

  lemma {:induction false} ItemsTotalAppend(a: seq<OrderItem>, b: seq<OrderItem>, id: OrderId)
    ensures ItemsTotal(a + b, id) == ItemsTotal(a, id) + ItemsTotal(b, id)
    decreases |b|
  {
    if b == [] {
      assert a + b == a;
    } else {
      var init := b[..|b| - 1];
      ItemsTotalAppend(a, init, id);
      assert (a + b)[..|a + b| - 1] == a + init;
      assert (a + b)[|a + b| - 1] == b[|b| - 1];
    }
  }

  /** Rows of other orders contribute nothing to the total of order `id`. */
  lemma {:induction false} ItemsTotalAbsent(items: seq<OrderItem>, id: OrderId)
    requires forall i :: 0 <= i < |items| ==> items[i].order != id
    ensures ItemsTotal(items, id) == 0
    decreases |items|
  {
    if items != [] {
      ItemsTotalAbsent(items[..|items| - 1], id);
    }
  }

  /**
   * The rows stored for an order add up to the sum price computed for it,
   * and contribute nothing to any other order.
   */
  lemma {:induction false} LineItemsTotal(order: OrderId, reqs: seq<ItemRequest>, products: map<ProductId, int>, id: OrderId)
    requires ProductsKnown(reqs, products)
    ensures ItemsTotal(LineItems(order, reqs, products), id) == if id == order then SumPrice(reqs, products) else 0
    decreases |reqs|
  {
    if reqs != [] {
      var init := reqs[..|reqs| - 1];
      var rows := LineItems(order, reqs, products);
      LineItemsTotal(order, init, products, id);
      assert rows[..|rows| - 1] == LineItems(order, init, products);
    }
  }

  class Shop {
    /** Current sale price of each product. */
    var products: map<ProductId, int>
    var orders: map<OrderId, Order>
    var items: seq<OrderItem>
    /** The id the database assigns to the next order. */
    var nextOrderId: OrderId

    /**
     * Ids are allocated below `nextOrderId`; every row belongs to a stored
     * order; every order carries the shipping fee, a total of sum price plus
     * fee, and a sum price equal to the total of its own rows.
     */
    ghost predicate Valid()
      reads this
    {
      && (forall id :: id in orders ==> id < nextOrderId && orders[id].id == id)
      && (forall i :: 0 <= i < |items| ==> items[i].order in orders)
      && (forall id :: id in orders ==>
            && orders[id].shippingFee == SHIPPING_FEE
            && orders[id].totalCost == orders[id].sumPrice + orders[id].shippingFee
            && orders[id].sumPrice == ItemsTotal(items, id))
    }

    constructor (products: map<ProductId, int>)
      ensures Valid()
      ensures this.products == products && orders == map[] && items == [] && nextOrderId == 0
    {
      this.products := products;
      orders := map[];
      items := [];
      nextOrderId := 0;
    }

    /**
     * Stores one row for `order`, with the product's current sale price as
     * its order price, whatever price the client sent. It is only a step of
     * `CreateOrder`, which stores the order first and restores `Valid()` once
     * all rows are in, as the item serializer is only saved from the order's.
     */
    method CreateItem(order: OrderId, req: ItemRequest)
      requires order in orders && req.product in products
      modifies this
      ensures products == old(products) && orders == old(orders) && nextOrderId == old(nextOrderId)
      ensures items == old(items) + [OrderItem(order, req.product, req.count, products[req.product])]
    {
      items := items + [CapturedItem(order, req, products)];
    }

    /**
     * Places an order: an item naming an unknown product fails validation
     * and nothing is stored; otherwise a new order is stored with
     * sum_price = Σ sale_price × count, shipping_fee = SHIPPING_FEE and
     * total_cost = sum_price + SHIPPING_FEE, followed by one row per item.
     */
    method CreateOrder(req: OrderRequest) returns (r: Result<OrderId, OrderError>)
      requires Valid()
      modifies this
      ensures Valid()
      ensures products == old(products)
      ensures r.Err? <==> !ProductsKnown(req.items, products)
      ensures r.Err? ==>
        && r.error == ItemValidationError
        && orders == old(orders) && items == old(items) && nextOrderId == old(nextOrderId)
      ensures r.Ok? ==>
        && ProductsKnown(req.items, products)
        && r.value == old(nextOrderId) && r.value !in old(orders)
        && nextOrderId == old(nextOrderId) + 1
        && orders == old(orders)[r.value := Order(r.value, req.user, req.payment, req.status,
                                                  SumPrice(req.items, products), SHIPPING_FEE,
                                                  SumPrice(req.items, products) + SHIPPING_FEE)]
        && items == old(items) + LineItems(r.value, req.items, products)
    {
      if !ProductsKnown(req.items, products) {
        return Err(ItemValidationError);
      }
      var id := nextOrderId;
      nextOrderId := nextOrderId + 1;
      var sum := SumPrice(req.items, products);
      orders := orders[id := Order(id, req.user, req.payment, req.status, sum, SHIPPING_FEE, sum + SHIPPING_FEE)];
      ghost var before := items;
      var i := 0;
      while i < |req.items|
        invariant 0 <= i <= |req.items|
        invariant ProductsKnown(req.items[..i], products)
        invariant items == before + LineItems(id, req.items[..i], products)
        invariant products == old(products) && nextOrderId == id + 1
        invariant orders == old(orders)[id := Order(id, req.user, req.payment, req.status, sum, SHIPPING_FEE, sum + SHIPPING_FEE)]
      {
        assert req.items[..i + 1][..i] == req.items[..i];
        CreateItem(id, req.items[i]);
        i := i + 1;
      }
      assert req.items[..i] == req.items;
      forall k | k in orders
        ensures orders[k].sumPrice == ItemsTotal(items, k)
      {
        ItemsTotalAppend(before, LineItems(id, req.items, products), k);
        LineItemsTotal(id, req.items, products, k);
        if k == id {
          ItemsTotalAbsent(before, id);
        } else {
          assert k in old(orders) && orders[k] == old(orders)[k];
        }
      }
      LineItemsCapturePrices(id, req.items, products);
      r := Ok(id);
    }

    /**
     * Cancels order `id`: from WAITING_CONFIRM the status becomes CANCEL and
     * nothing else changes; from any other status it raises ClientException
     * and nothing changes.
     */
    method CancelOrder(id: OrderId) returns (r: Result<Order, OrderError>)
      requires Valid() && id in orders
      modifies this
      ensures Valid()
      ensures r.Ok? <==> old(orders[id].status) == WaitingConfirm
      ensures r.Ok? ==> r.value == old(orders[id]).(status := Cancel) && orders == old(orders)[id := r.value]
      ensures r.Err? ==> r.error == ClientException(CANCEL_REFUSED) && orders == old(orders)
      ensures items == old(items) && products == old(products) && nextOrderId == old(nextOrderId)
    {
      var order := orders[id];
      match CancelTransition(order.status)
      case Err(e) =>
        r := Err(e);
      case Ok(s) =>
        var updated := order.(status := s);
        orders := orders[id := updated];
        r := Ok(updated);
    }
  }
}
