/** The three writing handlers: POST /api/orders, PUT /api/orders/:id/status
    and DELETE /api/orders/:id, as methods on the orders table they change.

    The product service is an object that answers
    GET <product-service>/api/products/:id for each product id and logs
    every id it is asked for, so a handler's contract can say when the
    service is called. A failing store is the flag `storeUp` being false:
    the statement then fails and the table keeps its state. */
module OrderService {
  import opened JsValues
  import opened Pricing
  import opened Orders
  import opened Responses

  const ProductIdRequired: string := "Product ID is required"
  const ProductNotFound: string := "Product not found"
  const ValidateProductFailed: string := "Failed to validate product"
  const CreateOrderFailed: string := "Failed to create order"
  const InvalidStatus: string := "Invalid status"
  const UpdateOrderFailed: string := "Failed to update order"
  const OrderDeleted: string := "Order deleted successfully"
  const DeleteOrderFailed: string := "Failed to delete order"

  /** What the product service answers: the product's two prices, or a
      failed request with the HTTP status of its response, if one came back
      (`None` for a network error or a timeout). */
  datatype Lookup =
    | Found(pricePerMonth: Option<int>, pricePerYear: Option<int>)
    | Failed(responseStatus: Option<int>)

  /** What creation decides before it writes: refuse with a status code and
      a message, or insert a row with this quantity and total price. */
  datatype CreatePlan =
    | Refuse(code: int, message: string)
    | Accept(quantity: int, totalPrice: int)

  /** The checks of POST /api/orders, in the order the handler makes them:
      first the presence of `product_id`, then the product service's answer
      `lookup` for it, then the pricing rule. A product the service reports
      as missing (404) is the client's fault (400); any other failure of the
      service is the server's (500). */
  function PlanCreate(productId: Value, quantity: Option<int>, lookup: Lookup): (p: CreatePlan)
    ensures !Truthy(productId) ==> p == Refuse(400, ProductIdRequired)
    ensures Truthy(productId) && lookup == Failed(Some(404)) ==> p == Refuse(400, ProductNotFound)
    ensures Truthy(productId) && lookup.Failed? && lookup.responseStatus != Some(404) ==>
      p == Refuse(500, ValidateProductFailed)
    ensures p.Refuse? <==> !Truthy(productId) || lookup.Failed?
    ensures p.Refuse? ==> (p.code == 400 <==> !Truthy(productId) || lookup == Failed(Some(404)))
    ensures p.Accept? ==>
      && p.quantity == OrderedQuantity(quantity)
      && p.totalPrice == UnitPrice(lookup.pricePerMonth, lookup.pricePerYear) * p.quantity
  {
    if !Truthy(productId) then Refuse(400, ProductIdRequired)
    else
      match lookup
      case Failed(status) =>
        if status == Some(404) then Refuse(400, ProductNotFound)
        else Refuse(500, ValidateProductFailed)
      case Found(month, year) =>
        Accept(OrderedQuantity(quantity), TotalPrice(month, year, quantity))
  }

  /** The product service as the order service sees it: a fixed answer for
      every product id, and the log of the ids requested so far. */
  class ProductService {
    const answers: Value -> Lookup
    var requests: seq<Value>

    constructor (answers: Value -> Lookup)
      ensures this.answers == answers && requests == []
    {
      this.answers := answers;
      requests := [];
    }

    /** One GET request for a product: logged, and answered. */
    method Fetch(productId: Value) returns (answer: Lookup)
      modifies this
      ensures requests == old(requests) + [productId]
      ensures answer == answers(productId)
    {
      requests := requests + [productId];
      answer := answers(productId);
    }
  }

  /** Whether a request's `status` is one an update accepts
      (`validStatuses.includes(status)`: only one of the four strings). */
  function IsValidStatus(status: Value): (accepted: bool)
    ensures accepted <==>
      status in [Text(Pending), Text(Confirmed), Text(Completed), Text(Cancelled)]
    ensures accepted ==> status.Text?
  {
    status.Text? && status.s in Statuses
  }

  /** The orders table: its rows, the next serial id and the clock that
      stamps `created_at`. */
  class OrderTable {
    var rows: seq<Order>
    var nextId: int
    var clock: nat

    ghost predicate Valid()
      reads this
    {
      WellFormed(rows, nextId, clock)
    }

    /** An empty table; serial ids start at 1. */
    constructor ()
      ensures Valid()
      ensures rows == [] && nextId == 1
    {
      rows := [];
      nextId := 1;
      clock := 0;
    }

    /** POST /api/orders. Sends the product service exactly one request,
        and only once `product_id` is known to be truthy; writes only when
        every check passed and the store is up: then one new row, with a
        fresh id, status pending and the computed total, is appended and
        returned with 201. */
    method Create(productId: Value, quantity: Option<int>, products: ProductService, storeUp: bool)
      returns (resp: Response)
      requires Valid()
      modifies this, products
      ensures Valid()
      ensures products.requests == old(products.requests) + if Truthy(productId) then [productId] else []
      ensures PlanCreate(productId, quantity, products.answers(productId)).Refuse? ==>
        && resp == Response(PlanCreate(productId, quantity, products.answers(productId)).code,
                            Error(PlanCreate(productId, quantity, products.answers(productId)).message))
        && rows == old(rows) && nextId == old(nextId) && clock == old(clock)
      ensures PlanCreate(productId, quantity, products.answers(productId)).Accept? && !storeUp ==>
        && resp == Response(500, Error(CreateOrderFailed))
        && rows == old(rows) && nextId == old(nextId) && clock == old(clock)
      ensures PlanCreate(productId, quantity, products.answers(productId)).Accept? && storeUp ==>
        var plan := PlanCreate(productId, quantity, products.answers(productId));
        var o := Order(old(nextId), productId, plan.quantity, plan.totalPrice, Pending, old(clock));
        && rows == old(rows) + [o]
        && resp == Response(201, Row(o))
        && Find(old(rows), o.id) == None
        && nextId == old(nextId) + 1 && clock == old(clock) + 1
    {
      if !Truthy(productId) {
        return Response(400, Error(ProductIdRequired));
      }
      var product := products.Fetch(productId);
      match product
      case Failed(status) =>
        if status == Some(404) {
          resp := Response(400, Error(ProductNotFound));
        } else {
          resp := Response(500, Error(ValidateProductFailed));
        }
      case Found(month, year) =>
        var unitPrice := UnitPrice(month, year);
        var q := OrderedQuantity(quantity);
        var total := unitPrice * q;
        if !storeUp {
          resp := Response(500, Error(CreateOrderFailed));
        } else {
          var o := Order(nextId, productId, q, total, Pending, clock);
          rows := rows + [o];
          nextId := nextId + 1;
          clock := clock + 1;
          resp := Response(201, Row(o));
        }
    }

    /** PUT /api/orders/:id/status. The status is checked first; any of the
        four is accepted whatever the order's current status. With the store
        up, the row with this id gets the new status and nothing else
        changes; a missing id is a 404. */
    method UpdateStatus(id: int, status: Value, storeUp: bool) returns (resp: Response)
      requires Valid()
      modifies this
      ensures Valid()
      ensures nextId == old(nextId) && clock == old(clock)
      ensures !IsValidStatus(status) ==>
        resp == Response(400, Error(InvalidStatus)) && rows == old(rows)
      ensures IsValidStatus(status) && !storeUp ==>
        resp == Response(500, Error(UpdateOrderFailed)) && rows == old(rows)
      ensures IsValidStatus(status) && storeUp ==>
        && rows == SetStatus(old(rows), id, status.s)
        && match Find(old(rows), id)
           case None => resp == Response(404, Error(OrderNotFound)) && rows == old(rows)
           case Some(o) => resp == Response(200, Row(o.(status := status.s)))
    {
      if !IsValidStatus(status) {
        return Response(400, Error(InvalidStatus));
      }
      if !storeUp {
        return Response(500, Error(UpdateOrderFailed));
      }
      SetStatusKeepsWellFormed(rows, nextId, clock, id, status.s);
      match Find(rows, id)
      case None =>
        var updated := SetStatus(rows, id, status.s);
        forall k | 0 <= k < |rows| ensures updated[k] == rows[k] {
          assert rows[k] in rows;
        }
        resp := Response(404, Error(OrderNotFound));
      case Some(o) =>
        rows := SetStatus(rows, id, status.s);
        resp := Response(200, Row(o.(status := status.s)));
    }

    /** DELETE /api/orders/:id. With the store up, the row with this id is
        removed and returned inside `{ message, order }`; a missing id is a
        404 and the table stays as it was. */
    method Delete(id: int, storeUp: bool) returns (resp: Response)
      requires Valid()
      modifies this
      ensures Valid()
      ensures nextId == old(nextId) && clock == old(clock)
      ensures !storeUp ==> resp == Response(500, Error(DeleteOrderFailed)) && rows == old(rows)
      ensures storeUp ==> match Find(old(rows), id)
        case None => resp == Response(404, Error(OrderNotFound)) && rows == old(rows)
        case Some(o) =>
          && resp == Response(200, Deleted(OrderDeleted, o))
          && rows == Remove(old(rows), id)
          && |rows| == |old(rows)| - 1
          && multiset(rows) + multiset{o} == multiset(old(rows))
    {
      if !storeUp {
        return Response(500, Error(DeleteOrderFailed));
      }
      match Find(rows, id)
      case None =>
        RemoveAbsent(rows, id);
        resp := Response(404, Error(OrderNotFound));
      case Some(o) =>
        RemoveKeepsAscending(rows, id);
        RemoveExactlyOne(rows, id, o);
        rows := Remove(rows, id);
        resp := Response(200, Deleted(OrderDeleted, o));
    }
  }
}
