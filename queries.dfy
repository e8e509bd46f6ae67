/** The three read handlers: GET /api/orders, GET /api/orders/:id and
    GET /api/orders/status/:status. Each is a SELECT over the orders table
    left-joined to the products table for `publication_name`; here the
    products table is the map from product id to publication name, and a
    failing store is the flag `storeUp` being false. */
module OrderQueries {
  import opened JsValues
  import opened Orders
  import opened Responses

  const FetchOrdersFailed: string := "Failed to fetch orders"
  const FetchOrderFailed: string := "Failed to fetch order"

  /** `LEFT JOIN products p ON o.product_id = p.id`: the name, when a
      product matches. */
  function NameOf(names: map<Value, string>, productId: Value): (name: Option<string>)
    ensures name.Some? <==> productId in names
    ensures name.Some? ==> name.value == names[productId]
  {
    if productId in names then Some(names[productId]) else None
  }

  /** Each order with its joined publication name, in the same order. */
  function Join(os: seq<Order>, names: map<Value, string>): (r: seq<JoinedRow>)
    ensures |r| == |os|
    ensures forall i :: 0 <= i < |os| ==>
      r[i].order == os[i] && r[i].publicationName == NameOf(names, os[i].productId)
  {
    if os == [] then [] else [JoinedRow(os[0], NameOf(names, os[0].productId))] + Join(os[1..], names)
  }

  /** `Orders.KeepStatus` lifted to joined rows: the rows of a listing whose
      order has status `status`, in the listing's order. */
  function KeepJoined(rs: seq<JoinedRow>, status: string): (r: seq<JoinedRow>)
    ensures forall x :: x in r <==> x in rs && x.order.status == status
  {
    if rs == [] then []
    else
      assert rs == [rs[0]] + rs[1..];
      (if rs[0].order.status == status then [rs[0]] else []) + KeepJoined(rs[1..], status)
  }

  /** GET /api/orders: every order, newest first, with its publication name. */
  function ListOrders(rows: seq<Order>, names: map<Value, string>, storeUp: bool): (resp: Response)
    ensures !storeUp ==> resp == Response(500, Error(FetchOrdersFailed))
    ensures storeUp ==> resp.code == 200 && resp.body.Listing? && |resp.body.rows| == |rows|
    ensures storeUp ==> forall i :: 0 <= i < |rows| ==>
      && resp.body.rows[i].order == rows[|rows| - 1 - i]
      && resp.body.rows[i].publicationName == NameOf(names, rows[|rows| - 1 - i].productId)
    ensures storeUp && Ascending(rows) ==> forall i, j :: 0 <= i < j < |resp.body.rows| ==>
      resp.body.rows[i].order.createdAt > resp.body.rows[j].order.createdAt
  {
    if !storeUp then Response(500, Error(FetchOrdersFailed))
    else Response(200, Listing(Join(NewestFirst(rows), names)))
  }

  /** GET /api/orders/:id: the order with this id and its publication name,
      or 404 when no row has the id. */
  function GetOrder(rows: seq<Order>, names: map<Value, string>, id: int, storeUp: bool): (resp: Response)
    ensures !storeUp ==> resp == Response(500, Error(FetchOrderFailed))
    ensures storeUp ==> (resp.code == 404 <==> forall o :: o in rows ==> o.id != id)
    ensures storeUp && resp.code == 404 ==> resp.body == Error(OrderNotFound)
    ensures storeUp && resp.code != 404 ==>
      && resp.code == 200 && resp.body.Joined?
      && resp.body.row.order in rows && resp.body.row.order.id == id
      && resp.body.row.publicationName == NameOf(names, resp.body.row.order.productId)
  {
    if !storeUp then Response(500, Error(FetchOrderFailed))
    else
      match Find(rows, id)
      case None => Response(404, Error(OrderNotFound))
      case Some(o) => Response(200, Joined(JoinedRow(o, NameOf(names, o.productId))))
  }

  /** GET /api/orders/status/:status: the orders with exactly this status,
      newest first. The status is not checked against the four known ones. */
  function ListOrdersByStatus(rows: seq<Order>, names: map<Value, string>, status: string, storeUp: bool): (resp: Response)
    ensures !storeUp ==> resp == Response(500, Error(FetchOrdersFailed))
    ensures storeUp ==> resp.code == 200 && resp.body.Listing?
    ensures storeUp ==> forall x :: x in resp.body.rows ==>
      x.order in rows && x.order.status == status
      && x.publicationName == NameOf(names, x.order.productId)
    ensures storeUp ==> forall o :: o in rows && o.status == status ==>
      JoinedRow(o, NameOf(names, o.productId)) in resp.body.rows
  {
    if !storeUp then Response(500, Error(FetchOrdersFailed))
    else
      var os := WithStatus(rows, status);
      var r := Join(os, names);
      assert forall o :: o in os ==> JoinedRow(o, NameOf(names, o.productId)) in r by {
        forall o | o in os ensures JoinedRow(o, NameOf(names, o.productId)) in r {
          var k :| 0 <= k < |os| && os[k] == o;
          assert r[k] == JoinedRow(o, NameOf(names, o.productId));
        }
      }
      Response(200, Listing(r))
  }

  // ---------------------------------------------------------------------
  // Lemmas relating the queries

  /** Joining names commutes with filtering by status. */
  lemma {:induction false} JoinKeepsFilter(os: seq<Order>, names: map<Value, string>, status: string)
    ensures Join(KeepStatus(os, status), names) == KeepJoined(Join(os, names), status)
  {
    if os != [] {
      var j := Join(os, names);
      assert j[1..] == Join(os[1..], names);
      JoinKeepsFilter(os[1..], names, status);
      var k := KeepStatus(os[1..], status);
      if os[0].status == status {
        assert KeepStatus(os, status) == [os[0]] + k;
        assert Join([os[0]] + k, names)[1..] == Join(k, names);
      } else {
        assert KeepStatus(os, status) == k;
      }
    }
  }

  /** The by-status listing is exactly the full listing with the rows of
      other statuses taken out, in the same relative order. */
  lemma ByStatusIsFilteredList(rows: seq<Order>, names: map<Value, string>, status: string)
    ensures ListOrdersByStatus(rows, names, status, true).body.rows
         == KeepJoined(ListOrders(rows, names, true).body.rows, status)
  {
    WithStatusIsFilteredListing(rows, status);
    JoinKeepsFilter(NewestFirst(rows), names, status);
  }

  /** The by-status listing is newest first. */
  lemma ByStatusNewestFirst(rows: seq<Order>, names: map<Value, string>, status: string)
    requires Ascending(rows)
    ensures forall i, j :: 0 <= i < j < |ListOrdersByStatus(rows, names, status, true).body.rows| ==>
      ListOrdersByStatus(rows, names, status, true).body.rows[i].order.createdAt
      > ListOrdersByStatus(rows, names, status, true).body.rows[j].order.createdAt
  {
    WithStatusNewestFirst(rows, status);
  }

  /** A status outside the four yields an empty listing, not an error. */
  lemma UnknownStatusListsNothing(rows: seq<Order>, nextId: int, clock: nat, names: map<Value, string>, status: string)
    requires WellFormed(rows, nextId, clock)
    requires status !in Statuses
    ensures ListOrdersByStatus(rows, names, status, true) == Response(200, Listing([]))
  {
  }

  /** After a delete, getting the same id is a 404. */
  lemma GetAfterRemoveNotFound(rows: seq<Order>, names: map<Value, string>, id: int)
    ensures GetOrder(Remove(rows, id), names, id, true) == Response(404, Error(OrderNotFound))
  {
  }
}
