/**
 * The five request handlers (src/main.rs:44-108). Each one is a function from
 * the table and the already-decoded request inputs to the table after the
 * request and the handler's `Result`; the routing table of src/main.rs:35-40
 * binds them to
 *   GET /orders -> GetOrders,          POST /orders -> CreateOrder,
 *   GET /orders/{id} -> GetOrderById,  PATCH /orders/{id} -> UpdateOrderStatus,
 *   DELETE /orders/{id} -> DeleteOrder.
 * Each `fault` argument is what the engine does with one statement the
 * handler sends; `?` turns a rejected statement into `CustomError::Other`.
 */
module Handlers {
  import opened Wrappers
  import opened OrderStatuses
  import opened Orders
  import opened Errors

  /** `get_orders`: every stored order. */
  function GetOrders(t: Table, fault: Option<EngineError>): (s: Step<seq<Order>, CustomError>)
    ensures s.db == t
    ensures fault.Some? ==> s.result == Failure(Other(fault.value))
    ensures fault.None? ==> s.result.Success?
    ensures s.result.Success? ==>
      && |s.result.value| == |t.rows|
      && IdsOf(s.result.value) == t.rows.Keys
      && forall i :: 0 <= i < |s.result.value| ==>
           s.result.value[i].id.Some? && s.result.value[i].id.value in t.rows &&
           s.result.value[i] == Load(t, s.result.value[i].id.value)
  {
    Step(t, GetAll(t, fault).MapFailure(FromEngine))
  }

  /** `get_order_by_id`: the stored order, or `RecordNotFound` when there is none. */
  function GetOrderById(t: Table, id: i64, fault: Option<EngineError>): (s: Step<Order, CustomError>)
    ensures s.db == t
    ensures fault.Some? ==> s.result == Failure(Other(fault.value))
    ensures fault.None? && id in t.rows ==> s.result == Success(Load(t, id))
    ensures fault.None? && id !in t.rows ==> s.result == Failure(RecordNotFound)
  {
    match GetById(t, id, fault)
    case Failure(e) => Step(t, Failure(FromEngine(e)))
    case Success(Some(order)) => Step(t, Success(order))
    case Success(None) => Step(t, Failure(RecordNotFound))
  }

  /**
   * `create_order`: saves the decoded body and returns it. A body without an
   * identifier is inserted and returned with its new identifier; a body that
   * carries one goes down the update branch of `save`.
   */
  function CreateOrder(t: Table, body: Order, fault: Option<EngineError>): (s: Step<Order, CustomError>)
    ensures fault.Some? ==> s == Step(t, Failure(Other(fault.value)))
    ensures body.id.None? && fault.None? && t.nextId <= I64_MAX ==>
      && s.result.Success?
      && s.result.value.id.Some?
      && s.result.value.id.value == t.nextId
      && s.result.value.id.value !in t.rows
      && s.db.nextId == t.nextId + 1
      && s.result.value == body.(id := s.result.value.id)
      && s.result.value.id.value in s.db.rows
      && s.db.rows[s.result.value.id.value] == ToRow(body)
      && GetById(s.db, s.result.value.id.value, None) == Success(Some(s.result.value))
      && AgreeExcept(t.rows, s.db.rows, s.result.value.id.value)
    ensures body.id.None? && t.nextId > I64_MAX ==> s.db == t && s.result.Failure? && s.result.error.Other?
    ensures body.id.Some? && fault.None? ==>
      && s.result == Success(body)
      && (body.id.value in t.rows ==> s.db.rows == t.rows[body.id.value := ToRow(body)])
      && (body.id.value !in t.rows ==> s.db == t)
      && s.db.nextId == t.nextId
  {
    var saved := Save(t, body, fault);
    RoundTrip(body.status);
    Step(saved.db, saved.result.MapFailure(FromEngine))
  }

  /**
   * `update_order_status`: reads the order, sets its status and saves it.
   * `fetchFault` and `saveFault` are what the engine does with the read and
   * with the write; the two are separate statements, run one after the other.
   */
  function UpdateOrderStatus(t: Table, id: i64, status: OrderStatus,
                             fetchFault: Option<EngineError>, saveFault: Option<EngineError>): (s: Step<(), CustomError>)
    ensures fetchFault.Some? ==> s == Step(t, Failure(Other(fetchFault.value)))
    ensures fetchFault.None? && id !in t.rows ==> s == Step(t, Failure(RecordNotFound))
    ensures fetchFault.None? && id in t.rows && saveFault.Some? ==> s == Step(t, Failure(Other(saveFault.value)))
    ensures fetchFault.None? && id in t.rows && saveFault.None? ==>
      && s.result == Success(())
      && id in s.db.rows
      && s.db.rows[id] == Row(ToText(status), t.rows[id].amount)
      && AgreeExcept(t.rows, s.db.rows, id)
      && s.db.nextId == t.nextId
  {
    match GetById(t, id, fetchFault)
    case Failure(e) => Step(t, Failure(FromEngine(e)))
    case Success(None) => Step(t, Failure(RecordNotFound))
    case Success(Some(order)) =>
      var saved := Save(t, order.(status := status), saveFault);
      Step(saved.db, if saved.result.Success? then Success(()) else Failure(FromEngine(saved.result.error)))
  }

  /** `delete_order`: removes the row, or `RecordNotFound` when there was none. */
  function DeleteOrder(t: Table, id: i64, fault: Option<EngineError>): (s: Step<(), CustomError>)
    ensures fault.Some? ==> s == Step(t, Failure(Other(fault.value)))
    ensures fault.None? ==>
      && (s.result == Success(()) <==> id in t.rows)
      && (s.result == Failure(RecordNotFound) <==> id !in t.rows)
      && id !in s.db.rows
      && AgreeExcept(t.rows, s.db.rows, id)
      && s.db.nextId == t.nextId
  {
    var deleted := DeleteById(t, id, fault);
    Step(deleted.db, match deleted.result
      case Failure(e) => Failure(FromEngine(e))
      case Success(true) => Success(())
      case Success(false) => Failure(RecordNotFound))
  }

  /** After a successful PATCH the order reads back with the new status and its old amount (src/main.rs:178-215). */
  lemma UpdateThenGet(t: Table, id: i64, status: OrderStatus)
    requires id in t.rows
    ensures var s := UpdateOrderStatus(t, id, status, None, None);
      && RespondEmpty(s.result).status == OK
      && GetById(s.db, id, None) == Success(Some(Order(Some(id), t.rows[id].amount, status)))
      && GetOrderById(s.db, id, None).result == Success(Order(Some(id), t.rows[id].amount, status))
  {
    RoundTrip(status);
  }

  /** After a successful DELETE the order is gone, and a GET for it answers 404 (src/main.rs:374-404). */
  lemma DeleteThenNotFound(t: Table, id: i64)
    requires id in t.rows
    ensures var s := DeleteOrder(t, id, None);
      && RespondEmpty(s.result).status == OK
      && GetById(s.db, id, None) == Success(None)
      && RespondJson(GetOrderById(s.db, id, None).result) == Response(NOT_FOUND, Text(NotFoundBody))
  {
  }

  /**
   * An identifier with no row answers 404 to GET, PATCH and DELETE, and none
   * of them changes the table (src/main.rs:217-239, 319-336, 406-423).
   */
  lemma AbsentIdIsNotFound(t: Table, id: i64, status: OrderStatus)
    requires id !in t.rows
    ensures GetOrderById(t, id, None) == Step(t, Failure(RecordNotFound))
    ensures UpdateOrderStatus(t, id, status, None, None) == Step(t, Failure(RecordNotFound))
    ensures DeleteOrder(t, id, None).result == Failure(RecordNotFound)
    ensures DeleteOrder(t, id, None).db.rows == t.rows
    ensures RespondJson(GetOrderById(t, id, None).result) == Response(NOT_FOUND, Text(NotFoundBody))
    ensures RespondEmpty(UpdateOrderStatus(t, id, status, None, None).result) == Response(NOT_FOUND, Text(NotFoundBody))
    ensures RespondEmpty(DeleteOrder(t, id, None).result) == Response(NOT_FOUND, Text(NotFoundBody))
  {
    assert t.rows - {id} == t.rows;
  }

  /**
   * Whatever the engine reports, a rejected statement makes every handler
   * answer 500 with the fixed text, and leaves the table as it was
   * (src/main.rs:427-451).
   */
  lemma StoreFailureIs500(t: Table, e: EngineError, id: i64, body: Order, status: OrderStatus)
    ensures id in t.rows ==>
      && UpdateOrderStatus(t, id, status, None, Some(e)).db == t
      && RespondEmpty(UpdateOrderStatus(t, id, status, None, Some(e)).result) == Response(INTERNAL_SERVER_ERROR, Text(OtherBody))
    ensures var fault := Some(e);
      && GetOrders(t, fault).db == t
      && RespondJson(GetOrders(t, fault).result) == Response(INTERNAL_SERVER_ERROR, Text(OtherBody))
      && GetOrderById(t, id, fault).db == t
      && RespondJson(GetOrderById(t, id, fault).result) == Response(INTERNAL_SERVER_ERROR, Text(OtherBody))
      && CreateOrder(t, body, fault).db == t
      && RespondJson(CreateOrder(t, body, fault).result) == Response(INTERNAL_SERVER_ERROR, Text(OtherBody))
      && UpdateOrderStatus(t, id, status, fault, None).db == t
      && RespondEmpty(UpdateOrderStatus(t, id, status, fault, None).result) == Response(INTERNAL_SERVER_ERROR, Text(OtherBody))
      && DeleteOrder(t, id, fault).db == t
      && RespondEmpty(DeleteOrder(t, id, fault).result) == Response(INTERNAL_SERVER_ERROR, Text(OtherBody))
  {
  }

  /**
   * A POST whose body carries an identifier with no row is answered 200 with
   * that body, yet nothing is stored: the update branch of `save` touches no
   * row and reports no error.
   */
  lemma CreateWithUnknownIdStoresNothing(t: Table, body: Order)
    requires body.id.Some? && body.id.value !in t.rows
    ensures var s := CreateOrder(t, body, None);
      && RespondJson(s.result) == Response(OK, Json(body))
      && s.db == t
      && GetById(s.db, body.id.value, None) == Success(None)
  {
  }

  /** Listing after N creations returns N orders (src/main.rs:338-372). */
  lemma GetOrdersAfterInserts(amounts: seq<i64>)
    requires |amounts| <= I64_MAX
    ensures var s := GetOrders(InsertAll(Empty, amounts), None);
      RespondJson(s.result).status == OK && |s.result.value| == |amounts|
  {
    GetAllAfterInserts(amounts);
  }

  /**
   * A whole lifecycle on the empty table: POST an order for 500, PATCH it to
   * complete, GET it, DELETE it, GET it again.
   */
  lemma Lifecycle()
    ensures var created := CreateOrder(Empty, New(500), None);
      && created.result == Success(Order(Some(1), 500, Pending))
      && var patched := UpdateOrderStatus(created.db, 1, Complete, None, None);
      && patched.result == Success(())
      && GetOrderById(patched.db, 1, None).result == Success(Order(Some(1), 500, Complete))
      && var deleted := DeleteOrder(patched.db, 1, None);
      && deleted.result == Success(())
      && RespondJson(GetOrderById(deleted.db, 1, None).result).status == NOT_FOUND
  {
    var created := CreateOrder(Empty, New(500), None);
    assert created.db.rows == map[1 := Row("pending", 500)];
    UpdateThenGet(created.db, 1, Complete);
  }

  /**
   * Identifiers are not reused: after a DELETE of row k, a POST of a new
   * order never answers with k.
   */
  lemma DeletedIdNotReissued(t: Table, k: i64, body: Order)
    requires k in t.rows
    requires body.id.None?
    ensures var deleted := DeleteOrder(t, k, None);
      var created := CreateOrder(deleted.db, body, None);
      created.result.Success? ==> created.result.value.id != Some(k)
  {
    var deleted := DeleteOrder(t, k, None);
    assert deleted.db.nextId == t.nextId;
    assert k < t.nextId;
  }
}
