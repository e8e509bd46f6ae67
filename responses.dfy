/** What a handler sends back: an HTTP status code and a JSON body. */
module Responses {
  import opened JsValues
  import opened Orders

  /** A row of a read query: the order's columns plus `publication_name`
      from the left-joined products table (`None` when no product matches). */
  datatype JoinedRow = JoinedRow(order: Order, publicationName: Option<string>)

  datatype Body =
    | Error(message: string)                    // `{ error }`
    | Row(order: Order)                         // a row from `RETURNING *`
    | Joined(row: JoinedRow)                    // one row of a read query
    | Listing(rows: seq<JoinedRow>)             // the rows of a read query
    | Deleted(message: string, order: Order)    // `{ message, order }`

  datatype Response = Response(code: int, body: Body)

  const OrderNotFound: string := "Order not found"
}
