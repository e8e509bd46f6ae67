/** The `orders` table: its rows, the invariant every state of the table
    keeps, and the row-level operations behind the handlers' INSERT, UPDATE,
    DELETE and SELECT statements.

    The table is kept as its rows in insertion order. Ids come from a serial
    counter and `created_at` from a clock that strictly increases, so both
    strictly increase along the rows; "ORDER BY created_at DESC" is then the
    rows read from the last to the first. */
module Orders {
  import opened JsValues

  const Pending: string := "pending"
  const Confirmed: string := "confirmed"
  const Completed: string := "completed"
  const Cancelled: string := "cancelled"

  /** The status values an update accepts. */
  const Statuses: seq<string> := [Pending, Confirmed, Completed, Cancelled]

  datatype Order = Order(
    id: int,
    productId: Value,
    quantity: int,
    totalPrice: int,
    status: string,
    createdAt: nat)

  /** Rows in insertion order: ids and creation stamps strictly increase. */
  predicate Ascending(rows: seq<Order>) {
    forall i, j :: 0 <= i < j < |rows| ==>
      rows[i].id < rows[j].id && rows[i].createdAt < rows[j].createdAt
  }

  /** Newest first: creation stamps strictly decrease. */
  predicate NewestFirstOrder(os: seq<Order>) {
    forall i, j :: 0 <= i < j < |os| ==> os[i].createdAt > os[j].createdAt
  }

  /** The invariant of the table: rows in insertion order, every id below the
      next serial value, every stamp below the clock, every status one of the
      four, every product id truthy (creation refuses a falsy one). */
  predicate WellFormed(rows: seq<Order>, nextId: int, clock: nat) {
    && Ascending(rows)
    && forall o :: o in rows ==>
         o.id < nextId && o.createdAt < clock && o.status in Statuses && Truthy(o.productId)
  }

  /** `SELECT ... WHERE id = $1`: the row with this id, if any. */
  function Find(rows: seq<Order>, id: int): (r: Option<Order>)
    ensures r.Some? ==> r.value in rows && r.value.id == id
    ensures r.None? <==> forall o :: o in rows ==> o.id != id
  {
    if rows == [] then None
    else if rows[0].id == id then Some(rows[0])
    else Find(rows[1..], id)
  }

  /** `DELETE ... WHERE id = $1`: the rows without the one with this id. */
  function Remove(rows: seq<Order>, id: int): (r: seq<Order>)
    ensures forall o :: o in r <==> o in rows && o.id != id
    ensures |r| <= |rows|
  {
    if rows == [] then []
    else
      assert rows == [rows[0]] + rows[1..];
      (if rows[0].id == id then [] else [rows[0]]) + Remove(rows[1..], id)
  }

  /** `UPDATE orders SET status = $1 WHERE id = $2`: every row with this id
      gets the new status; every other row, and every other column, stays. */
  function SetStatus(rows: seq<Order>, id: int, status: string): (r: seq<Order>)
    ensures |r| == |rows|
    ensures forall i :: 0 <= i < |rows| ==>
      r[i] == if rows[i].id == id then rows[i].(status := status) else rows[i]
  {
    if rows == [] then []
    else
      [if rows[0].id == id then rows[0].(status := status) else rows[0]]
      + SetStatus(rows[1..], id, status)
  }

  /** `ORDER BY created_at DESC` over the whole table. */
  function NewestFirst(rows: seq<Order>): (r: seq<Order>)
    ensures |r| == |rows|
    ensures forall i :: 0 <= i < |rows| ==> r[i] == rows[|rows| - 1 - i]
    ensures multiset(r) == multiset(rows)
    ensures Ascending(rows) ==> NewestFirstOrder(r)
  {
    if rows == [] then []
    else
      var n := |rows| - 1;
      assert rows == rows[..n] + [rows[n]];
      [rows[n]] + NewestFirst(rows[..n])
  }

  /** `WHERE status = $1 ORDER BY created_at DESC`: the rows with this
      status, newest first. */
  function WithStatus(rows: seq<Order>, status: string): (r: seq<Order>)
    ensures forall o :: o in r <==> o in rows && o.status == status
  {
    if rows == [] then []
    else
      var n := |rows| - 1;
      assert rows == rows[..n] + [rows[n]];
      (if rows[n].status == status then [rows[n]] else []) + WithStatus(rows[..n], status)
  }

  /** The orders of a listing whose status is `status`, in the listing's order. */
  function KeepStatus(os: seq<Order>, status: string): (r: seq<Order>)
    ensures forall o :: o in r <==> o in os && o.status == status
  {
    if os == [] then []
    else
      assert os == [os[0]] + os[1..];
      (if os[0].status == status then [os[0]] else []) + KeepStatus(os[1..], status)
  }

  // ---------------------------------------------------------------------
  // Lemmas about the row operations

  /** Deleting keeps the remaining rows in insertion order. */
  lemma {:induction false} RemoveKeepsAscending(rows: seq<Order>, id: int)
    requires Ascending(rows)
    ensures Ascending(Remove(rows, id))
  {
    if rows != [] {
      var tail := rows[1..];
      assert Ascending(tail);
      RemoveKeepsAscending(tail, id);
      var t := Remove(tail, id);
      if rows[0].id != id {
        forall j | 0 <= j < |t|
          ensures rows[0].id < t[j].id && rows[0].createdAt < t[j].createdAt
        {
          assert t[j] in tail;
          var k :| 0 <= k < |tail| && tail[k] == t[j];
          assert rows[k + 1] == t[j];
        }
        var r := [rows[0]] + t;
        assert Remove(rows, id) == r;
        forall i, j | 0 <= i < j < |r|
          ensures r[i].id < r[j].id && r[i].createdAt < r[j].createdAt
        {
          if i > 0 {
            assert r[i] == t[i - 1] && r[j] == t[j - 1];
          } else {
            assert r[j] == t[j - 1];
          }
        }
      } else {
        assert Remove(rows, id) == t;
      }
    }
  }

  /** Deleting a row that has no duplicate id changes nothing else. */
  lemma {:induction false} RemoveAbsent(rows: seq<Order>, id: int)
    requires forall o :: o in rows ==> o.id != id
    ensures Remove(rows, id) == rows
  {
    if rows != [] {
      assert rows == [rows[0]] + rows[1..];
      RemoveAbsent(rows[1..], id);
    }
  }

  /** In insertion order, no later row repeats the first row's id. */
  lemma HeadIdUnique(rows: seq<Order>)
    requires Ascending(rows) && rows != []
    ensures forall p :: p in rows[1..] ==> p.id != rows[0].id
  {
  }

  /** In a well-ordered table, deleting an existing id removes exactly that
      one row: one fewer row, and the removed row plus the rest is the table. */
  lemma {:induction false} RemoveExactlyOne(rows: seq<Order>, id: int, o: Order)
    requires Ascending(rows)
    requires Find(rows, id) == Some(o)
    ensures |Remove(rows, id)| == |rows| - 1
    ensures multiset(Remove(rows, id)) + multiset{o} == multiset(rows)
  {
    var tail := rows[1..];
    assert rows == [rows[0]] + tail;
    assert multiset(rows) == multiset{rows[0]} + multiset(tail);
    if rows[0].id == id {
      HeadIdUnique(rows);
      RemoveAbsent(tail, id);
      assert Remove(rows, id) == tail;
    } else {
      assert Ascending(tail);
      RemoveExactlyOne(tail, id, o);
      assert Remove(rows, id) == [rows[0]] + Remove(tail, id);
    }
  }

  /** Updating a status keeps the table's invariant, since it touches
      neither ids nor stamps nor product ids. */
  lemma SetStatusKeepsWellFormed(rows: seq<Order>, nextId: int, clock: nat, id: int, status: string)
    requires WellFormed(rows, nextId, clock)
    requires status in Statuses
    ensures WellFormed(SetStatus(rows, id, status), nextId, clock)
  {
  }

  /** After an update, looking the id up finds the row with the new status,
      and every other id finds what it found before. */
  lemma {:induction false} FindAfterSetStatus(rows: seq<Order>, id: int, status: string, other: int)
    ensures Find(SetStatus(rows, id, status), id) ==
      match Find(rows, id)
      case None => None
      case Some(o) => Some(o.(status := status))
    ensures other != id ==> Find(SetStatus(rows, id, status), other) == Find(rows, other)
  {
    if rows != [] {
      var r := SetStatus(rows, id, status);
      assert r[1..] == SetStatus(rows[1..], id, status);
      FindAfterSetStatus(rows[1..], id, status, other);
    }
  }

  /** Putting a newer order in front of a newest-first listing keeps it
      newest first. */
  lemma PrependNewest(x: Order, t: seq<Order>)
    requires NewestFirstOrder(t)
    requires forall j :: 0 <= j < |t| ==> x.createdAt > t[j].createdAt
    ensures NewestFirstOrder([x] + t)
  {
  }

  /** Filtering a newest-first listing by status keeps it newest first. */
  lemma {:induction false} KeepStatusKeepsOrder(os: seq<Order>, status: string)
    requires NewestFirstOrder(os)
    ensures NewestFirstOrder(KeepStatus(os, status))
  {
    if os != [] {
      var tail := os[1..];
      KeepStatusKeepsOrder(tail, status);
      var t := KeepStatus(tail, status);
      if os[0].status == status {
        forall j | 0 <= j < |t| ensures os[0].createdAt > t[j].createdAt {
          assert t[j] in tail;
          var k :| 0 <= k < |tail| && tail[k] == t[j];
          assert os[k + 1] == t[j];
        }
        PrependNewest(os[0], t);
        assert KeepStatus(os, status) == [os[0]] + t;
      } else {
        assert KeepStatus(os, status) == t;
      }
    }
  }

  /** Listing by status is the full newest-first listing with the other
      statuses taken out, in the same relative order. */
  lemma {:induction false} WithStatusIsFilteredListing(rows: seq<Order>, status: string)
    ensures WithStatus(rows, status) == KeepStatus(NewestFirst(rows), status)
  {
    if rows != [] {
      var n := |rows| - 1;
      var all := NewestFirst(rows);
      assert all == [rows[n]] + NewestFirst(rows[..n]);
      assert all[1..] == NewestFirst(rows[..n]);
      WithStatusIsFilteredListing(rows[..n], status);
    }
  }

  /** Listing by status is newest first, as the full listing is. */
  lemma {:induction false} WithStatusNewestFirst(rows: seq<Order>, status: string)
    requires Ascending(rows)
    ensures NewestFirstOrder(WithStatus(rows, status))
  {
    WithStatusIsFilteredListing(rows, status);
    KeepStatusKeepsOrder(NewestFirst(rows), status);
  }
}
