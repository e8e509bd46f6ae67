/** Request sequences against a fresh orders table, proved from the
    handlers' contracts alone: what a client of the service can rely on. */
module OrderScenarios {
  import opened JsValues
  import opened Orders
  import opened Responses
  import opened OrderQueries
  import opened OrderService

  /** A product priced 1000 a month, ordered three times, costs 3000 and
      starts out pending. */
  method MonthlyPriceTimesQuantity() returns (resp: Response)
    ensures resp.code == 201 && resp.body.Row?
    ensures resp.body.order.totalPrice == 3000 && resp.body.order.status == Pending
  {
    var table := new OrderTable();
    var products := new ProductService(_ => Found(Some(1000), Some(9000)));
    resp := table.Create(Text("P1"), Some(3), products, true);
  }

  /** A product the product service does not know is a 400 and writes
      nothing; an empty product id is refused without asking the service,
      whose log then holds only the first request. */
  method UnknownProductIsClientError() returns (missing: Response, empty: Response, asked: seq<Value>)
    ensures missing == Response(400, Error(ProductNotFound))
    ensures empty == Response(400, Error(ProductIdRequired))
    ensures asked == [Text("P404")]
  {
    var table := new OrderTable();
    var products := new ProductService(_ => Failed(Some(404)));
    missing := table.Create(Text("P404"), None, products, true);
    assert table.rows == [] && products.requests == [Text("P404")];
    empty := table.Create(Text(""), None, products, true);
    asked := products.requests;
  }

  /** A cancelled order can be moved back to pending; an unknown status is
      refused and leaves the status as it was. */
  method CancelledOrderReopens() returns (reopened: Response, refused: Response, after: Response)
    ensures reopened.code == 200 && reopened.body.Row? && reopened.body.order.status == Pending
    ensures refused == Response(400, Error(InvalidStatus))
    ensures after.code == 200 && after.body.Joined? && after.body.row.order.status == Pending
  {
    var table := new OrderTable();
    var products := new ProductService(_ => Found(None, Some(12000)));
    var created := table.Create(Number(7), None, products, true);
    var id := created.body.order.id;
    var cancelled := table.UpdateStatus(id, Text(Cancelled), true);
    reopened := table.UpdateStatus(id, Text(Pending), true);
    refused := table.UpdateStatus(id, Text("done"), true);
    after := GetOrder(table.rows, map[], id, true);
  }

  /** A deleted order is gone: getting it, or deleting it again, is a 404. */
  method DeleteThenGet() returns (deleted: Response, get: Response, again: Response)
    ensures deleted.code == 200 && deleted.body.Deleted?
    ensures get == Response(404, Error(OrderNotFound))
    ensures again == Response(404, Error(OrderNotFound))
  {
    var table := new OrderTable();
    var products := new ProductService(_ => Found(None, None));
    var created := table.Create(Number(1), Some(2), products, true);
    var id := created.body.order.id;
    deleted := table.Delete(id, true);
    get := GetOrder(table.rows, map[], id, true);
    again := table.Delete(id, true);
  }
}
