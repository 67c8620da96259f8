/**
  The orders table (backend/repository/market_repository.go).

  The table is a map from primary key to row plus the table's AUTO_INCREMENT
  counter: an inserted row with id 0 takes the counter's value, a row with an
  explicit id keeps it and moves the counter past it, a reused key makes the
  whole insert fail, and TRUNCATE empties the table and resets the counter to 1.
*/
module MarketRepo {
  import opened Wrappers
  import opened Domain

  /** The statements this repository sends to the database. */
  datatype Statement =
    | TruncateOrders
    | InsertOrders(orders: seq<Order>)
    | UpdateStatus(id: nat, status: nat)

  /** Every row sits under its own id, and every id is below the counter. */
  predicate WellFormed(rows: map<nat, Order>, next: nat)
  {
    next >= 1 && forall id :: id in rows ==> 1 <= id < next && rows[id].id == id
  }

  function Max(a: nat, b: nat): nat
  {
    if a < b then b else a
  }

  /**
    One multi-row INSERT, rows taken in list order; `None` when a key is already
    taken.  Existing rows are kept as they were.
  */
  function Inserted(rows: map<nat, Order>, next: nat, orders: seq<Order>): (r: Option<(map<nat, Order>, nat)>)
    requires WellFormed(rows, next)
    ensures r.Some? ==> WellFormed(r.value.0, r.value.1)
    ensures r.Some? ==> forall id :: id in rows ==> id in r.value.0 && r.value.0[id] == rows[id]
    decreases |orders|
  {
    if orders == [] then Some((rows, next))
    else
      var o := orders[0];
      var id := if o.id == 0 then next else o.id;
      if id in rows then None
      else
        Inserted(rows[id := o.(id := id)], Max(next, id + 1), orders[1..])
  }

  /** A successful insert adds exactly one row per given order. */
  lemma {:induction false} InsertedCount(rows: map<nat, Order>, next: nat, orders: seq<Order>)
    requires WellFormed(rows, next)
    requires Inserted(rows, next, orders).Some?
    ensures |Inserted(rows, next, orders).value.0| == |rows| + |orders|
    decreases |orders|
  {
    if orders != [] {
      var id := if orders[0].id == 0 then next else orders[0].id;
      var rows' := rows[id := orders[0].(id := id)];
      InsertedFirst(rows, next, orders);
      assert |rows'| == |rows| + 1;
      InsertedCount(rows', Max(next, id + 1), orders[1..]);
    }
  }

  /** A successful insert stores its first order under a free key, then inserts the rest. */
  lemma InsertedFirst(rows: map<nat, Order>, next: nat, orders: seq<Order>)
    requires WellFormed(rows, next)
    requires orders != [] && Inserted(rows, next, orders).Some?
    ensures var id := if orders[0].id == 0 then next else orders[0].id;
      && id !in rows
      && WellFormed(rows[id := orders[0].(id := id)], Max(next, id + 1))
      && Inserted(rows, next, orders) == Inserted(rows[id := orders[0].(id := id)], Max(next, id + 1), orders[1..])
  {
  }

  /**
    Orders that all carry id 0 receive the consecutive ids `next`, `next + 1`, ...
    in list order, and the counter ends just past the last of them.
  */
  lemma {:induction false} InsertedAutoIds(rows: map<nat, Order>, next: nat, orders: seq<Order>)
    requires WellFormed(rows, next)
    requires forall i :: 0 <= i < |orders| ==> orders[i].id == 0
    ensures var r := Inserted(rows, next, orders);
      && r.Some?
      && r.value.1 == next + |orders|
      && (forall k :: k in r.value.0 <==> k in rows || next <= k < next + |orders|)
      && (forall i :: 0 <= i < |orders| ==> r.value.0[next + i] == orders[i].(id := next + i))
    decreases |orders|
  {
    if orders != [] {
      var row := orders[0].(id := next);
      var rows' := rows[next := row];
      InsertedStep(rows, next, orders);
      InsertedAutoIds(rows', next + 1, orders[1..]);
      var r := Inserted(rows', next + 1, orders[1..]);
      forall i | 0 <= i < |orders|
        ensures r.value.0[next + i] == orders[i].(id := next + i)
      {
        if i > 0 {
          assert orders[1..][i - 1] == orders[i];
          assert next + i == next + 1 + (i - 1);
        }
      }
    }
  }

  /** The first of a run of id-0 orders takes the counter's value. */
  lemma InsertedStep(rows: map<nat, Order>, next: nat, orders: seq<Order>)
    requires WellFormed(rows, next)
    requires orders != [] && orders[0].id == 0
    ensures WellFormed(rows[next := orders[0].(id := next)], next + 1)
    ensures Inserted(rows, next, orders) == Inserted(rows[next := orders[0].(id := next)], next + 1, orders[1..])
  {
    assert next !in rows;
  }

  /**
    After a truncate (empty table, counter 1), the k-th of n id-0 orders is stored
    under id k + 1 and no other id is used.
  */
  lemma FreshTableIds(orders: seq<Order>)
    requires forall i :: 0 <= i < |orders| ==> orders[i].id == 0
    ensures Inserted(map[], 1, orders).Some?
    ensures var rows := Inserted(map[], 1, orders).value.0;
      && (forall k :: k in rows <==> 1 <= k <= |orders|)
      && (forall i :: 0 <= i < |orders| ==> rows[i + 1] == orders[i].(id := i + 1))
    ensures Inserted(map[], 1, orders).value.1 == |orders| + 1
  {
    InsertedAutoIds(map[], 1, orders);
  }

  /** A single order with an explicit id is stored under that id unless the id is taken. */
  lemma InsertedExplicitId(rows: map<nat, Order>, next: nat, o: Order)
    requires WellFormed(rows, next)
    requires o.id > 0
    ensures o.id in rows ==> Inserted(rows, next, [o]) == None
    ensures o.id !in rows ==> Inserted(rows, next, [o]) == Some((rows[o.id := o], Max(next, o.id + 1)))
  {
    assert [o][1..] == [];
  }

  /** `UPDATE orders SET status = ? WHERE id = ?`: only that row's status changes. */
  function WithStatus(rows: map<nat, Order>, id: nat, status: nat): (r: map<nat, Order>)
    ensures r.Keys == rows.Keys
    ensures forall k :: k in rows && k != id ==> r[k] == rows[k]
    ensures id in rows ==> r[id].status == status && r[id] == rows[id].(status := status)
  {
    if id in rows then rows[id := rows[id].(status := status)] else rows
  }

  /** Setting the same status twice is the same as setting it once. */
  lemma WithStatusIdempotent(rows: map<nat, Order>, id: nat, status: nat)
    ensures WithStatus(WithStatus(rows, id, status), id, status) == WithStatus(rows, id, status)
  {
  }

  class MarketRepository {
    /** Which statements the database refuses. */
    const rejects: Statement -> bool
    var orders: map<nat, Order>
    var nextId: nat

    ghost predicate Valid()
      reads this
    {
      WellFormed(orders, nextId)
    }

    constructor(rejects: Statement -> bool)
      ensures Valid()
      ensures this.rejects == rejects && orders == map[] && nextId == 1
    {
      this.rejects := rejects;
      orders := map[];
      nextId := 1;
    }

    /** The row whose primary key is `id`, or not-found. */
    method GetOrderByID(id: nat) returns (r: Result<Order, Error>)
      requires Valid()
      ensures r.Ok? <==> id in orders
      ensures r.Ok? ==> r.value == orders[id] && r.value.id == id
      ensures r.Err? ==> r.error == NotFound
    {
      if id in orders {
        r := Ok(orders[id]);
      } else {
        r := Err(NotFound);
      }
    }

    method ClearOrders() returns (r: Outcome<Error>)
      requires Valid()
      modifies this
      ensures Valid()
      ensures rejects(TruncateOrders) ==> r == Fail(Rejected) && orders == old(orders) && nextId == old(nextId)
      ensures !rejects(TruncateOrders) ==> r == Pass && orders == map[] && nextId == 1
    {
      if rejects(TruncateOrders) {
        return Fail(Rejected);
      }
      orders := map[];
      nextId := 1;
      r := Pass;
    }

    /**
      Inserts every order, all or nothing (the chunks of 100 run in one
      transaction); an empty batch sends no statement and succeeds.
    */
    method BatchInsertOrders(batch: seq<Order>) returns (r: Outcome<Error>)
      requires Valid()
      modifies this
      ensures Valid()
      ensures batch == [] ==> r == Pass && orders == old(orders) && nextId == old(nextId)
      ensures batch != [] && rejects(InsertOrders(batch)) ==>
        r == Fail(Rejected) && orders == old(orders) && nextId == old(nextId)
      ensures batch != [] && !rejects(InsertOrders(batch)) && Inserted(old(orders), old(nextId), batch).None? ==>
        r == Fail(DuplicateKey) && orders == old(orders) && nextId == old(nextId)
      ensures batch != [] && !rejects(InsertOrders(batch)) && Inserted(old(orders), old(nextId), batch).Some? ==>
        r == Pass && (orders, nextId) == Inserted(old(orders), old(nextId), batch).value
    {
      if batch == [] {
        return Pass;
      }
      if rejects(InsertOrders(batch)) {
        return Fail(Rejected);
      }
      var inserted := Inserted(orders, nextId, batch);
      if inserted.None? {
        return Fail(DuplicateKey);
      }
      orders, nextId := inserted.value.0, inserted.value.1;
      r := Pass;
    }

    /** Sets the status of the row with this id; no matching row is not an error. */
    method UpdateOrderStatus(id: nat, status: nat) returns (r: Outcome<Error>)
      requires Valid()
      modifies this
      ensures Valid()
      ensures rejects(UpdateStatus(id, status)) ==> r == Fail(Rejected) && orders == old(orders)
      ensures !rejects(UpdateStatus(id, status)) ==> r == Pass && orders == WithStatus(old(orders), id, status)
      ensures nextId == old(nextId)
    {
      if rejects(UpdateStatus(id, status)) {
        return Fail(Rejected);
      }
      orders := WithStatus(orders, id, status);
      r := Pass;
    }
  }
}
