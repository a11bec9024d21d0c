/** The manual sync endpoint of app/api/manual-sync/route.ts: one order, named
    by id, is looked up in the local store, its waybill is tracked, and a
    delivered or failed result moves it to the matching terminal status
    through the guarded update of lib/order.ts. */
module ManualSync {
  import opened Wrappers
  import Strings
  import L = Logistics
  import opened OrderStore
  import SyncOrderStatus

  /** The JSON request body. `Malformed` is any body that makes the handler
      throw before validation: text that does not parse, and the JSON value
      `null`, whose destructuring throws. `Json` is any other value, with its
      `orderId` field absent or a string; a number, string or array has no
      such field. */
  datatype RequestBody = Malformed | Json(orderId: Option<string>)

  datatype SyncData = SyncData(orderId: string, currentStatus: OrderStatus,
                               logisticsStatus: L.LogisticsStatus, statusTime: L.Instant)

  datatype ManualResponse = ManualResponse(httpStatus: int, success: bool, message: string, data: Option<SyncData>)

  datatype ManualResult = ManualResult(response: ManualResponse, store: Store)

  const FailedResponse := ManualResponse(500, false, "Manual sync failed", None)

  /** The id the request names, when it names one: `!orderId` rejects both
      the absent field and the empty string. */
  function RequestedId(body: RequestBody): (id: Option<string>)
    ensures id.Some? <==> body.Json? && body.orderId.Some? && body.orderId.value != ""
    ensures id.Some? ==> id == body.orderId
  {
    if body.Json? && body.orderId.Some? && body.orderId.value != "" then body.orderId else None
  }

  /** The handler, with the one place where the corrected variant departs
      from the code as written made a switch: `reportUpdated` says whether
      the response's `currentStatus` reports the status after the update. */
  function Handle(body: RequestBody, st: Store, tracker: L.Tracker, findFault: bool, updateFault: bool,
                  reportUpdated: bool): (r: ManualResult)
    ensures body.Malformed? ==> r == ManualResult(FailedResponse, st)
    ensures body.Json? && RequestedId(body).None? ==>
              r == ManualResult(ManualResponse(400, false, "orderId is required", None), st)
    ensures RequestedId(body).Some? && findFault ==> r == ManualResult(FailedResponse, st)
    ensures RequestedId(body).Some? && !findFault && RequestedId(body).value !in st.orders ==>
              r == ManualResult(ManualResponse(404, false, "Order " + RequestedId(body).value + " not found", None), st)
    ensures RequestedId(body).Some? && !findFault && RequestedId(body).value in st.orders ==>
              var id := RequestedId(body).value;
              var order := st.orders[id];
              var q := L.QueryLogisticsStatus(order.waybillNo, order.courierCode, tracker);
              if order.status.IsTerminal() then
                r == ManualResult(ManualResponse(200, false,
                       "Order " + id + " is already in final status: " + order.status.Name(), None), st)
              else if q.Failure? then
                r == ManualResult(FailedResponse, st)
              else if q.value.status == L.InTransit || q.value.status == L.Unknown then
                r == ManualResult(ManualResponse(200, true, "Manual sync completed",
                       Some(SyncData(id, order.status, q.value.status, q.value.statusTime))), st)
              else if updateFault then
                r == ManualResult(FailedResponse, st)
              else
                var target := if q.value.status == L.Delivered then Delivered else DeliveryFailed;
                && r.store == UpdateOrderStatus(st, id, order.status, target, false).store
                && r.response == ManualResponse(200, true, "Manual sync completed",
                     Some(SyncData(id, if reportUpdated then target else order.status,
                                   q.value.status, q.value.statusTime)))
  {
    match RequestedId(body)
    case None =>
      if body.Malformed? then ManualResult(FailedResponse, st)
      else ManualResult(ManualResponse(400, false, "orderId is required", None), st)
    case Some(id) =>
      if findFault then
        ManualResult(FailedResponse, st)
      else if id !in st.orders then
        ManualResult(ManualResponse(404, false, "Order " + id + " not found", None), st)
      else
        var order := st.orders[id];
        if order.status.IsTerminal() then
          ManualResult(ManualResponse(200, false, "Order " + id + " is already in final status: " + order.status.Name(), None), st)
        else
          match L.QueryLogisticsStatus(order.waybillNo, order.courierCode, tracker)
          case Failure(_) => ManualResult(FailedResponse, st)
          case Success(result) =>
            var data := SyncData(id, order.status, result.status, result.statusTime);
            if result.status == L.InTransit || result.status == L.Unknown then
              ManualResult(ManualResponse(200, true, "Manual sync completed", Some(data)), st)
            else
              var target := if result.status == L.Delivered then Delivered else DeliveryFailed;
              var c := UpdateOrderStatus(st, id, order.status, target, updateFault);
              if c.thrown.Some? then
                ManualResult(FailedResponse, st)
              else
                var shown := if reportUpdated then target else order.status;
                ManualResult(ManualResponse(200, true, "Manual sync completed", Some(data.(currentStatus := shown))),
                             c.store)
  }

  /** `POST` as written: `updateOrderStatus` resolves to no value, so the
      response always reports the status read before the update. */
  function PostAsWritten(body: RequestBody, st: Store, tracker: L.Tracker, findFault: bool, updateFault: bool)
    : (r: ManualResult)
    ensures r.response.data.Some? ==>
              var d := r.response.data.value;
              d.orderId in st.orders && d.currentStatus == st.orders[d.orderId].status
  {
    Handle(body, st, tracker, findFault, updateFault, false)
  }

  /** `POST` with `currentStatus` reporting the order's status once the call
      is over, as the `updateResult ? updateResult.status : order.status`
      expression intends. */
  function Post(body: RequestBody, st: Store, tracker: L.Tracker, findFault: bool, updateFault: bool)
    : (r: ManualResult)
    ensures r.response.data.Some? ==>
              var d := r.response.data.value;
              d.orderId in r.store.orders && d.currentStatus == r.store.orders[d.orderId].status
  {
    Handle(body, st, tracker, findFault, updateFault, true)
  }

  /** The discrepancy on a concrete input: a shipped order reported delivered is
      stored as DELIVERED, yet the response as written says SHIPPED. */
  lemma StaleCurrentStatus(st: Store, tracker: L.Tracker)
    requires st == Store(map["A" := Order("A", "WA", "SF", Shipped)], [], map[])
    requires tracker("sfexpress", "WA") == L.Tracked(Some("delivered"), 0)
    ensures var r := PostAsWritten(Json(Some("A")), st, tracker, false, false);
            && r.store.orders["A"].status == Delivered
            && r.response.data.Some?
            && r.response.data.value.currentStatus == Shipped
  {
    var l := "delivered";
    assert Strings.OccursAt(l, "delivered", 0);
    assert Strings.Lower(l) == l;
    assert L.QueryLogisticsStatus("WA", "SF", tracker).value.status == L.Delivered;
  }

  /** Only a non-terminal order can move, only to the terminal status the
      tracker reports, with exactly one new log entry; every other request
      leaves the store as it was. */
  lemma ManualSyncMovesOnlyForward(body: RequestBody, st: Store, tracker: L.Tracker, findFault: bool, updateFault: bool)
    ensures var r := Post(body, st, tracker, findFault, updateFault);
            r.store != st ==>
              && RequestedId(body).Some?
              && var id := RequestedId(body).value;
                 && id in st.orders && !st.orders[id].status.IsTerminal()
                 && r.store.orders[id].status.IsTerminal()
                 && r.store.logs == st.logs + [StatusLog(id, st.orders[id].status, r.store.orders[id].status)]
                 && L.QueryLogisticsStatus(st.orders[id].waybillNo, st.orders[id].courierCode, tracker).Success?
                 && SyncOrderStatus.TargetStatus(L.QueryLogisticsStatus(st.orders[id].waybillNo, st.orders[id].courierCode, tracker)
                               .value.status) == Some(r.store.orders[id].status)
  {
  }

  /** Without database faults, a manual sync of a known non-terminal order
      whose tracking result is terminal always applies: the guard compares
      against the status just read. */
  lemma ManualSyncApplies(id: string, st: Store, tracker: L.Tracker)
    requires id != "" && id in st.orders && !st.orders[id].status.IsTerminal()
    requires var q := L.QueryLogisticsStatus(st.orders[id].waybillNo, st.orders[id].courierCode, tracker);
             q.Success? && SyncOrderStatus.TargetStatus(q.value.status).Some?
    ensures var r := Post(Json(Some(id)), st, tracker, false, false);
            var q := L.QueryLogisticsStatus(st.orders[id].waybillNo, st.orders[id].courierCode, tracker);
            && r.response.success
            && r.store.orders[id].status == SyncOrderStatus.TargetStatus(q.value.status).value
            && |r.store.logs| == |st.logs| + 1
  {
  }
}
