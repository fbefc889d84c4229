/**
 * The order entity and its persistence contract (src/orders.rs:9-64).
 *
 * The `orders` table is modelled as a finite map from row identifier to the
 * stored (status text, amount) pair, plus the table's autoincrement counter.
 * Each store operation receives `fault`, what the database engine does with
 * the one statement the operation sends: `None` when the statement runs,
 * `Some(e)` when the engine rejects it (lost connection, missing schema, ...).
 * A rejected statement changes nothing.
 */
module Orders {
  import opened Wrappers
  import opened OrderStatuses

  const I64_MIN: int := -0x8000_0000_0000_0000
  const I64_MAX: int := 0x7fff_ffff_ffff_ffff

  /** Rust's `i64`, the type of identifiers and amounts. */
  type i64 = x: int | I64_MIN <= x <= I64_MAX

  /** An order; `id` is `None` until the order is first saved. */
  datatype Order = Order(id: Option<i64>, amount: i64, status: OrderStatus)

  /** The derived `Default` of `Order`. */
  function DefaultOrder(): (o: Order)
    ensures o.id == None
    ensures o.amount == 0
    ensures ToText(o.status) == "pending"
  {
    Order(None, 0, Default())
  }

  /** `Order::new`: an unsaved order for `amount`, every other field defaulted. */
  function New(amount: i64): (o: Order)
    ensures o.id == None
    ensures o.amount == amount
    ensures o.status == Pending
  {
    DefaultOrder().(amount := amount)
  }

  /** A row of the `orders` table, without its key. */
  datatype Row = Row(status: string, amount: i64)

  /** A failure reported by the database engine; its text is never inspected. */
  datatype EngineError = EngineError(message: string)

  /** What the engine reports when the autoincrement counter is exhausted. */
  const Full: EngineError := EngineError("database or disk is full")

  /**
   * The table: rows by identifier, and `nextId`, one more than the largest
   * identifier ever handed out (identifiers are never reused).
   */
  datatype Db = Db(rows: map<int, Row>, nextId: int)

  /** Every key was handed out by the counter, and the counter stays within one past the `i64` range. */
  predicate Valid(db: Db)
  {
    && 1 <= db.nextId <= I64_MAX + 1
    && forall k :: k in db.rows ==> 1 <= k < db.nextId
  }

  /** The states the table can be in. */
  type Table = db: Db | Valid(db) witness Db(map[], 1)

  /** The freshly migrated, empty table. */
  const Empty: Table := Db(map[], 1)

  /** A store operation's outcome: the table after it, and what it returned. */
  datatype Step<+T, +E> = Step(db: Table, result: Result<T, E>)

  /** The row that saving `o` writes. */
  function ToRow(o: Order): (r: Row)
    ensures r.amount == o.amount
    ensures r.status in Canonical
    ensures FromText(r.status) == o.status
  {
    RoundTrip(o.status);
    Row(ToText(o.status), o.amount)
  }

  /** The order that reading row `k` yields (the `FromRow` mapping). */
  function Load(t: Table, k: int): (o: Order)
    requires k in t.rows
    ensures o.id == Some(k)
    ensures o.amount == t.rows[k].amount
    ensures t.rows[k].status in Canonical ==> ToRow(o) == t.rows[k]
    ensures t.rows[k].status !in Canonical ==> o.status == Pending
  {
    Order(Some(k), t.rows[k].amount, FromText(t.rows[k].status))
  }

  /** `a` and `b` hold the same rows at every key other than `n`. */
  ghost predicate AgreeExcept(a: map<int, Row>, b: map<int, Row>, n: int)
  {
    forall k :: k != n ==> (k in a <==> k in b) && (k in a ==> a[k] == b[k])
  }

  /**
   * `Order::save` (src/orders.rs:24-50). An order without an identifier is
   * inserted and comes back carrying the identifier the table assigned; an
   * order with one overwrites that row, and nothing at all happens when that
   * row does not exist.
   */
  function Save(t: Table, order: Order, fault: Option<EngineError>): (s: Step<Order, EngineError>)
    // A rejected statement changes nothing and its error is returned.
    ensures s.result.Failure? ==> s.db == t
    ensures fault.Some? ==> s.result == Failure(fault.value)
    // Insert: exactly one new row, under an identifier not used before, which the order now carries.
    ensures order.id.None? ==> (s.result.Success? <==> fault.None? && t.nextId <= I64_MAX)
    ensures order.id.None? && s.result.Success? ==>
      var saved := s.result.value;
      && saved.id.Some?
      && saved == order.(id := saved.id)
      && saved.id.value == t.nextId
      && saved.id.value !in t.rows
      && saved.id.value in s.db.rows
      && s.db.rows[saved.id.value] == ToRow(order)
      && AgreeExcept(t.rows, s.db.rows, saved.id.value)
      && |s.db.rows| == |t.rows| + 1
      && s.db.nextId == t.nextId + 1
    // Update: the order is returned as it was; only its own row changes, and only if it exists.
    ensures order.id.Some? ==> (s.result.Success? <==> fault.None?)
    ensures order.id.Some? && s.result.Success? ==>
      var n := order.id.value;
      && s.result.value == order
      && (n in s.db.rows <==> n in t.rows)
      && (n in t.rows ==> s.db.rows[n] == ToRow(order))
      && (n !in t.rows ==> s.db == t)
      && AgreeExcept(t.rows, s.db.rows, n)
      && s.db.nextId == t.nextId
  {
    if fault.Some? then
      Step(t, Failure(fault.value))
    else
      match order.id
      case None =>
        if t.nextId > I64_MAX then
          Step(t, Failure(Full))
        else
          var n: i64 := t.nextId;
          var after := Db(t.rows[n := ToRow(order)], n + 1);
          Step(after, Success(order.(id := Some(n))))
      case Some(n) =>
        var after := if n in t.rows then t.(rows := t.rows[n := ToRow(order)]) else t;
        Step(after, Success(order))
  }

  /**
   * `Order::get_by_id` (src/orders.rs:52-58): the stored order, or `None`
   * when no row has that identifier. An absent row is not an error.
   */
  function GetById(t: Table, id: i64, fault: Option<EngineError>): (r: Result<Option<Order>, EngineError>)
    ensures fault.Some? ==> r == Failure(fault.value)
    ensures fault.None? ==> r.Success? && (r.value.Some? <==> id in t.rows)
    ensures r.Success? && r.value.Some? ==> r.value.value == Load(t, id)
  {
    if fault.Some? then Failure(fault.value)
    else if id in t.rows then Success(Some(Load(t, id)))
    else Success(None)
  }

  /**
   * `Order::delete_by_id`, known from its use at src/main.rs:104-107: removes
   * the row and reports whether there was one to remove.
   */
  function DeleteById(t: Table, id: i64, fault: Option<EngineError>): (s: Step<bool, EngineError>)
    ensures s.result.Failure? ==> s.db == t
    ensures fault.Some? ==> s.result == Failure(fault.value)
    ensures fault.None? ==> s.result == Success(id in t.rows)
    ensures s.result.Success? ==>
      && id !in s.db.rows
      && AgreeExcept(t.rows, s.db.rows, id)
      && s.db.nextId == t.nextId
  {
    if fault.Some? then Step(t, Failure(fault.value))
    else Step(t.(rows := t.rows - {id}), Success(id in t.rows))
  }

  /** The identifiers carried by a list of orders. */
  function IdsOf(os: seq<Order>): set<int>
  {
    set i | 0 <= i < |os| && os[i].id.Some? :: os[i].id.value
  }

  /** Every order carries an identifier, and they strictly increase along the list. */
  predicate Ascending(os: seq<Order>)
  {
    && (forall i :: 0 <= i < |os| ==> os[i].id.Some?)
    && (forall i, j :: 0 <= i < j < |os| ==> os[i].id.value < os[j].id.value)
  }

  /** The identifiers of a list with one more order in front. */
  lemma IdsOfCons(o: Order, rest: seq<Order>)
    requires o.id.Some?
    ensures IdsOf([o] + rest) == {o.id.value} + IdsOf(rest)
  {
    var os := [o] + rest;
    forall k | k in IdsOf(os) ensures k in {o.id.value} + IdsOf(rest) {
      var i :| 0 <= i < |os| && os[i].id.Some? && os[i].id.value == k;
      if i > 0 {
        assert rest[i - 1] == os[i];
      }
    }
    forall k | k in IdsOf(rest) ensures k in IdsOf(os) {
      var i :| 0 <= i < |rest| && rest[i].id.Some? && rest[i].id.value == k;
      assert os[i + 1] == rest[i];
    }
    assert os[0] == o;
  }

  /** The stored orders with identifiers in `[lo, hi)`, in identifier order. */
  function Collect(t: Table, lo: int, hi: int): (os: seq<Order>)
    decreases hi - lo
    ensures Ascending(os)
    ensures forall i :: 0 <= i < |os| ==> lo <= os[i].id.value < hi
    ensures forall i :: 0 <= i < |os| ==> os[i].id.value in t.rows && os[i] == Load(t, os[i].id.value)
    ensures IdsOf(os) == set k | k in t.rows && lo <= k < hi
  {
    if lo >= hi then []
    else
      var rest := Collect(t, lo + 1, hi);
      if lo in t.rows then
        IdsOfCons(Load(t, lo), rest);
        [Load(t, lo)] + rest
      else
        rest
  }

  /** A list of orders with strictly increasing identifiers carries as many identifiers as it has orders. */
  lemma {:induction false} AscendingIdsCount(os: seq<Order>)
    requires Ascending(os)
    ensures |IdsOf(os)| == |os|
  {
    if os != [] {
      var rest := os[1..];
      assert os == [os[0]] + rest;
      assert Ascending(rest) by {
        forall i, j | 0 <= i < j < |rest| ensures rest[i].id.value < rest[j].id.value {
          assert rest[i] == os[i + 1] && rest[j] == os[j + 1];
        }
      }
      AscendingIdsCount(rest);
      IdsOfCons(os[0], rest);
      assert os[0].id.value !in IdsOf(rest) by {
        forall i | 0 <= i < |rest| ensures rest[i].id.value > os[0].id.value {
          assert rest[i] == os[i + 1];
        }
      }
    }
  }

  /**
   * `Order::get_all` (src/orders.rs:60-64): every stored order, each once.
   * The query has no ORDER BY; the model lists them by identifier.
   */
  function GetAll(t: Table, fault: Option<EngineError>): (r: Result<seq<Order>, EngineError>)
    ensures fault.Some? ==> r == Failure(fault.value)
    ensures fault.None? ==> r.Success?
    ensures r.Success? ==>
      && IdsOf(r.value) == t.rows.Keys
      && |r.value| == |t.rows|
      && (forall i :: 0 <= i < |r.value| ==> r.value[i].id.Some? && r.value[i].id.value in t.rows)
      && (forall i :: 0 <= i < |r.value| ==> r.value[i] == Load(t, r.value[i].id.value))
      && (forall i, j :: 0 <= i < j < |r.value| ==> r.value[i].id != r.value[j].id)
  {
    if fault.Some? then Failure(fault.value)
    else
      var os := Collect(t, 1, t.nextId);
      assert IdsOf(os) == t.rows.Keys;
      AscendingIdsCount(os);
      assert |t.rows| == |t.rows.Keys|;
      Success(os)
  }

  /**
   * Reading back a saved order yields it unchanged, whether the save inserted
   * it or overwrote its existing row.
   */
  lemma SaveThenGet(t: Table, order: Order)
    requires order.id.None? ==> t.nextId <= I64_MAX
    requires order.id.Some? ==> order.id.value in t.rows
    ensures Save(t, order, None).result.Success?
    ensures var s := Save(t, order, None);
      GetById(s.db, s.result.value.id.value, None) == Success(Some(s.result.value))
  {
    RoundTrip(order.status);
  }

  /**
   * The scenario of src/orders.rs:113-145: a new order is saved, its amount is
   * changed and it is saved again; it keeps its identifier, and reading it back
   * shows the new amount and the default status.
   */
  lemma SaveChangeAmountResave(t: Table, amount: i64, newAmount: i64)
    requires t.nextId <= I64_MAX
    ensures var first := Save(t, New(amount), None);
      && first.result.Success?
      && var second := Save(first.db, first.result.value.(amount := newAmount), None);
      && second.result.Success?
      && second.result.value.id == first.result.value.id
      && GetById(second.db, first.result.value.id.value, None) ==
           Success(Some(Order(first.result.value.id, newAmount, Pending)))
      && |second.db.rows| == |t.rows| + 1
  {
    var first := Save(t, New(amount), None);
    SaveThenGet(first.db, first.result.value.(amount := newAmount));
  }

  /** Deleting a row makes it unreadable. */
  lemma DeleteThenGet(t: Table, id: i64)
    ensures GetById(DeleteById(t, id, None).db, id, None) == Success(None)
  {
  }

  /** Saves a new order for each amount in turn, as the loop of src/orders.rs:161-167 does. */
  function InsertAll(t: Table, amounts: seq<i64>): Table
    decreases |amounts|
  {
    if amounts == [] then t
    else InsertAll(Save(t, New(amounts[0]), None).db, amounts[1..])
  }

  /** While the counter lasts, each of the inserts adds exactly one row. */
  lemma {:induction false} InsertAllGrows(t: Table, amounts: seq<i64>)
    requires t.nextId + |amounts| <= I64_MAX + 1
    decreases |amounts|
    ensures |InsertAll(t, amounts).rows| == |t.rows| + |amounts|
    ensures InsertAll(t, amounts).nextId == t.nextId + |amounts|
  {
    if amounts != [] {
      InsertAllGrows(Save(t, New(amounts[0]), None).db, amounts[1..]);
    }
  }

  /** After N inserts into the empty table, listing returns N orders (src/orders.rs:158-172). */
  lemma GetAllAfterInserts(amounts: seq<i64>)
    requires |amounts| <= I64_MAX
    ensures GetAll(InsertAll(Empty, amounts), None).Success?
    ensures |GetAll(InsertAll(Empty, amounts), None).value| == |amounts|
  {
    InsertAllGrows(Empty, amounts);
  }
}
