/** The order store of lib/order.ts: the pending-order fetch from the
    external order API, the guarded status transition written together with
    its log entry, and the upsert of the per-order failure ledger. The
    database is an immutable `Store` value; a database fault is a boolean
    parameter saying that the database call threw. */
module OrderStore {
  import opened Wrappers

  datatype OrderStatus = Pending | Shipped | Delivered | DeliveryFailed {
    /** No automatic transition leaves these. */
    predicate IsTerminal() {
      this == Delivered || this == DeliveryFailed
    }

    /** The enum value's text as the database and the JSON responses show it. */
    function Name(): string {
      match this
      case Pending => "PENDING"
      case Shipped => "SHIPPED"
      case Delivered => "DELIVERED"
      case DeliveryFailed => "DELIVERY_FAILED"
    }
  }

  /** An order as the external order API reports it. */
  datatype OrderFromApi = OrderFromApi(orderId: string, waybillNo: string, courierCode: string, status: OrderStatus)

  /** The local mirror of an order. */
  datatype Order = Order(orderId: string, waybillNo: string, courierCode: string, status: OrderStatus)

  /** One row of the status transition log. */
  datatype StatusLog = StatusLog(orderId: string, oldStatus: OrderStatus, newStatus: OrderStatus)

  /** One row of the failure ledger. */
  datatype FailRecord = FailRecord(orderId: string, waybillNo: string, courierCode: string, failCount: nat)

  /** The database: orders and failure records keyed by order id (both keys
      are unique), and the log in insertion order. */
  datatype Store = Store(orders: map<string, Order>, logs: seq<StatusLog>, failRecords: map<string, FailRecord>)

  /** Every row is filed under its own order id. */
  ghost predicate WellKeyed(st: Store) {
    && (forall id :: id in st.orders ==> st.orders[id].orderId == id)
    && (forall id :: id in st.failRecords ==> st.failRecords[id].orderId == id)
  }

  /** `failCount` of a freshly created ledger row: the create call leaves it
      to the column default. */
  const InitialFailCount: nat := 1

  // ---------------------------------------------------------------------------
  // getPendingOrders

  /** The body of the order API's answer, `{ code, message, data }`; `data`
      is absent when the field is missing or not a list. */
  datatype ApiBody = ApiBody(code: int, message: string, data: Option<seq<OrderFromApi>>)

  /** What the HTTP GET gave: a body, or a thrown error (network, timeout,
      non-2xx status). */
  datatype ApiReply = Answered(body: ApiBody) | Unreachable

  const FetchFailedMessage := "Failed to fetch pending orders"

  /** `getPendingOrders`: the orders of a code-200 answer; every other outcome
      is the one generic error, whatever went wrong. */
  function GetPendingOrders(reply: ApiReply): (r: Result<seq<OrderFromApi>, string>)
    ensures r.Success? <==> reply.Answered? && reply.body.code == 200 && reply.body.data.Some?
    ensures r.Success? ==> r.value == reply.body.data.value
    ensures r.Failure? ==> r.error == FetchFailedMessage
  {
    match reply
    case Unreachable => Failure(FetchFailedMessage)
    case Answered(body) =>
      if body.code != 200 then Failure(FetchFailedMessage)
      else
        match body.data
        case None => Failure(FetchFailedMessage)
        case Some(orders) => Success(orders)
  }

  // ---------------------------------------------------------------------------
  // updateOrderStatus

  /** The store after a call and the message of the error it threw, if any.
      A call that completes resolves to no value. */
  datatype Completion = Completion(store: Store, thrown: Option<string>)

  const UpdateFailedMessage := "Failed to update order status"

  /** `updateOrderStatus`: in one transaction, set the order's status to
      `newStatus` provided it is still `oldStatus`, and append one log entry.
      A missing order or a different stored status makes the update find no
      row, which throws; a thrown error rolls the transaction back. */
  function UpdateOrderStatus(st: Store, orderId: string, oldStatus: OrderStatus, newStatus: OrderStatus, dbFault: bool)
    : (c: Completion)
    ensures c.thrown.None? <==> !dbFault && orderId in st.orders && st.orders[orderId].status == oldStatus
    ensures c.thrown.Some? ==> c.thrown == Some(UpdateFailedMessage) && c.store == st
    ensures c.thrown.None? ==>
              && c.store.orders.Keys == st.orders.Keys
              && c.store.orders[orderId] == st.orders[orderId].(status := newStatus)
              && (forall id :: id in st.orders && id != orderId ==> c.store.orders[id] == st.orders[id])
              && c.store.logs == st.logs + [StatusLog(orderId, oldStatus, newStatus)]
              && c.store.failRecords == st.failRecords
  {
    if dbFault || orderId !in st.orders || st.orders[orderId].status != oldStatus then
      Completion(st, Some(UpdateFailedMessage))
    else
      var updated := st.orders[orderId].(status := newStatus);
      Completion(Store(st.orders[orderId := updated], st.logs + [StatusLog(orderId, oldStatus, newStatus)], st.failRecords),
                 None)
  }

  /** The update keeps every row under its own key. */
  lemma UpdatePreservesWellKeyed(st: Store, orderId: string, oldStatus: OrderStatus, newStatus: OrderStatus, dbFault: bool)
    requires WellKeyed(st)
    ensures WellKeyed(UpdateOrderStatus(st, orderId, oldStatus, newStatus, dbFault).store)
  {
  }

  /** Two writers that both saw `oldStatus` and both try to move the order on:
      the first succeeds, the second finds no matching row and fails, so the
      log gains exactly one entry. */
  lemma GuardedUpdateAppliesOnce(st: Store, orderId: string, oldStatus: OrderStatus, newStatus: OrderStatus)
    requires orderId in st.orders && st.orders[orderId].status == oldStatus
    requires newStatus != oldStatus
    ensures var first := UpdateOrderStatus(st, orderId, oldStatus, newStatus, false);
            var second := UpdateOrderStatus(first.store, orderId, oldStatus, newStatus, false);
            && first.thrown.None?
            && second.thrown.Some?
            && second.store == first.store
            && |second.store.logs| == |st.logs| + 1
  {
  }

  // ---------------------------------------------------------------------------
  // saveLogisticsFailRecord

  /** `saveLogisticsFailRecord`: increment the order's ledger row, or create it
      with the given waybill and carrier. It never throws: a database fault
      is swallowed and leaves the store as it was. */
  function SaveLogisticsFailRecord(st: Store, orderId: string, waybillNo: string, courierCode: string, dbFault: bool)
    : (r: Store)
    ensures r.orders == st.orders && r.logs == st.logs
    ensures dbFault ==> r == st
    ensures !dbFault ==> r.failRecords.Keys == st.failRecords.Keys + {orderId}
    ensures !dbFault && orderId in st.failRecords ==>
              var prev := st.failRecords[orderId];
              r.failRecords[orderId] == prev.(failCount := prev.failCount + 1)
    ensures !dbFault && orderId !in st.failRecords ==>
              r.failRecords[orderId] == FailRecord(orderId, waybillNo, courierCode, InitialFailCount)
    ensures forall id :: id in st.failRecords && id != orderId ==> r.failRecords[id] == st.failRecords[id]
  {
    if dbFault then
      st
    else if orderId in st.failRecords then
      var existing := st.failRecords[orderId];
      st.(failRecords := st.failRecords[orderId := existing.(failCount := existing.failCount + 1)])
    else
      st.(failRecords := st.failRecords[orderId := FailRecord(orderId, waybillNo, courierCode, InitialFailCount)])
  }

  /** The ledger keeps at most one row per order: saving never files a row
      under another order's key. */
  lemma SavePreservesWellKeyed(st: Store, orderId: string, waybillNo: string, courierCode: string, dbFault: bool)
    requires WellKeyed(st)
    ensures WellKeyed(SaveLogisticsFailRecord(st, orderId, waybillNo, courierCode, dbFault))
  {
  }

  /** An existing row keeps its waybill and carrier: later saves with other
      values only raise the count. */
  lemma SaveKeepsFirstWaybill(st: Store, orderId: string, w1: string, c1: string, w2: string, c2: string)
    requires orderId !in st.failRecords
    ensures var once := SaveLogisticsFailRecord(st, orderId, w1, c1, false);
            var twice := SaveLogisticsFailRecord(once, orderId, w2, c2, false);
            twice.failRecords[orderId] == FailRecord(orderId, w1, c1, InitialFailCount + 1)
  {
  }
}
