/** The scheduled reconciliation endpoint of
    app/api/sync-order-status/route.ts: bearer-token check, fetch of the
    pending orders, then a strictly sequential pass over them that mirrors
    each order locally, asks the tracker, moves delivered or failed orders to
    their terminal status, and files a failure record for any order whose
    processing threw, without stopping the pass. */
module SyncOrderStatus {
  import opened Wrappers
  import Strings
  import L = Logistics
  import opened OrderStore

  datatype TaskStats = TaskStats(
    totalOrders: nat,
    successCount: nat,
    failCount: nat,
    deliveredCount: nat,
    failedDeliveryCount: nat)

  const ZeroStats := TaskStats(0, 0, 0, 0, 0)

  /** The database calls made for one order. */
  datatype DbStep = FindMirror | CreateMirror | UpdateStatus | SaveFailRecord

  /** Which database calls throw: a fault oracle per order and call. Being a
      function of the order's value, it makes two identical entries of the
      pending list meet the same faults at the same calls. */
  type Faults = (OrderFromApi, DbStep) -> bool

  /** What the pass carries from one order to the next. */
  datatype RunState = RunState(store: Store, stats: TaskStats)

  /** How processing one order ended. */
  datatype Outcome = Transitioned(to: OrderStatus) | Unchanged | Failed

  datatype Attempt = Attempt(store: Store, outcome: Outcome)

  function Mirror(o: OrderFromApi): Order {
    Order(o.orderId, o.waybillNo, o.courierCode, o.status)
  }

  /** Step 4.1: look the order up locally and create it, with the API's
      status, when absent. `None` when either database call threw. */
  function EnsureMirror(st: Store, o: OrderFromApi, faults: Faults): (r: Option<Store>)
    ensures r.Some? <==> !faults(o, FindMirror) && (o.orderId in st.orders || !faults(o, CreateMirror))
    ensures r.Some? && o.orderId in st.orders ==> r.value == st
    ensures r.Some? && o.orderId !in st.orders ==>
              r.value == st.(orders := st.orders[o.orderId := Mirror(o)])
  {
    if faults(o, FindMirror) then None
    else if o.orderId in st.orders then Some(st)
    else if faults(o, CreateMirror) then None
    else Some(st.(orders := st.orders[o.orderId := Mirror(o)]))
  }

  /** The order status a tracking result moves the order to, if any. */
  function TargetStatus(s: L.LogisticsStatus): (t: Option<OrderStatus>)
    ensures t.Some? <==> s == L.Delivered || s == L.DeliveryFailed
    ensures t.Some? ==> t.value.IsTerminal()
    ensures s == L.Delivered <==> t == Some(Delivered)
  {
    match s
    case Delivered => Some(Delivered)
    case DeliveryFailed => Some(DeliveryFailed)
    case _ => None
  }

  /** Steps 4.1 to 4.3 for one order, up to the point where an error would be
      caught. The guarded update compares against the status the order API
      reported, not the local mirror's. */
  function AttemptOrder(st: Store, o: OrderFromApi, tracker: L.Tracker, faults: Faults): (a: Attempt)
    ensures a.outcome != Failed ==>
              && EnsureMirror(st, o, faults).Some?
              && L.QueryLogisticsStatus(o.waybillNo, o.courierCode, tracker).Success?
    ensures a.outcome == Unchanged <==>
              && EnsureMirror(st, o, faults).Some?
              && var q := L.QueryLogisticsStatus(o.waybillNo, o.courierCode, tracker);
                 q.Success? && TargetStatus(q.value.status).None?
    ensures a.outcome.Transitioned? ==>
              && a.outcome.to.IsTerminal()
              && a.store.logs == st.logs + [StatusLog(o.orderId, o.status, a.outcome.to)]
              && o.orderId in a.store.orders
              && a.store.orders[o.orderId].status == a.outcome.to
    ensures !a.outcome.Transitioned? ==>
              a.store == st || Some(a.store) == EnsureMirror(st, o, faults)
    ensures a.outcome.Transitioned? ==>
              && var m := EnsureMirror(st, o, faults);
                 var q := L.QueryLogisticsStatus(o.waybillNo, o.courierCode, tracker);
                 && m.Some? && q.Success?
                 && TargetStatus(q.value.status) == Some(a.outcome.to)
                 && o.orderId in m.value.orders && m.value.orders[o.orderId].status == o.status
                 && !faults(o, UpdateStatus)
    ensures var m := EnsureMirror(st, o, faults);
            var q := L.QueryLogisticsStatus(o.waybillNo, o.courierCode, tracker);
            && m.Some? && q.Success? && TargetStatus(q.value.status).Some?
            && o.orderId in m.value.orders && m.value.orders[o.orderId].status == o.status
            && !faults(o, UpdateStatus)
            ==> a.outcome == Transitioned(TargetStatus(q.value.status).value)
    ensures a.store.failRecords == st.failRecords
    ensures st.orders.Keys <= a.store.orders.Keys <= st.orders.Keys + {o.orderId}
    ensures forall id :: id in st.orders && id != o.orderId ==> a.store.orders[id] == st.orders[id]
    ensures EnsureMirror(st, o, faults).None? ==> a.store == st
    ensures EnsureMirror(st, o, faults).Some? && !a.outcome.Transitioned? ==>
              a.store == EnsureMirror(st, o, faults).value
    ensures a.outcome.Transitioned? ==>
              && EnsureMirror(st, o, faults).Some?
              && a.store == UpdateOrderStatus(EnsureMirror(st, o, faults).value, o.orderId, o.status, a.outcome.to, false).store
  {
    match EnsureMirror(st, o, faults)
    case None => Attempt(st, Failed)
    case Some(mirrored) =>
      match L.QueryLogisticsStatus(o.waybillNo, o.courierCode, tracker)
      case Failure(_) => Attempt(mirrored, Failed)
      case Success(result) =>
        match TargetStatus(result.status)
        case None => Attempt(mirrored, Unchanged)
        case Some(target) =>
          var c := UpdateOrderStatus(mirrored, o.orderId, o.status, target, faults(o, UpdateStatus));
          if c.thrown.Some? then Attempt(mirrored, Failed) else Attempt(c.store, Transitioned(target))
  }

  /** When the local mirror already holds a different status than the order
      API reported, a terminal tracking result cannot be applied: the guarded
      update finds no row and the order counts as failed. */
  lemma StaleMirrorBlocksTransition(st: Store, o: OrderFromApi, tracker: L.Tracker, faults: Faults)
    requires o.orderId in st.orders && st.orders[o.orderId].status != o.status
    ensures !AttemptOrder(st, o, tracker, faults).outcome.Transitioned?
  {
  }

  /** One iteration of the loop, including the catch block. */
  function ProcessOrder(rs: RunState, o: OrderFromApi, tracker: L.Tracker, faults: Faults): (r: RunState)
    ensures r.stats.totalOrders == rs.stats.totalOrders
    ensures r.stats.successCount + r.stats.failCount == rs.stats.successCount + rs.stats.failCount + 1
    ensures var a := AttemptOrder(rs.store, o, tracker, faults);
            && (a.outcome == Failed <==> r.stats.failCount == rs.stats.failCount + 1)
            && (a.outcome == Failed ==>
                  r.store == SaveLogisticsFailRecord(a.store, o.orderId, o.waybillNo, o.courierCode, faults(o, SaveFailRecord)))
            && (a.outcome != Failed ==> r.store == a.store)
            && (a.outcome == Unchanged ==> r.stats.(successCount := rs.stats.successCount) == rs.stats)
            && (a.outcome == Transitioned(Delivered) ==>
                  r.stats == rs.stats.(successCount := rs.stats.successCount + 1,
                                       deliveredCount := rs.stats.deliveredCount + 1))
            && (a.outcome == Transitioned(DeliveryFailed) ==>
                  r.stats == rs.stats.(successCount := rs.stats.successCount + 1,
                                       failedDeliveryCount := rs.stats.failedDeliveryCount + 1))
    ensures var a := AttemptOrder(rs.store, o, tracker, faults);
            && r.stats.deliveredCount == rs.stats.deliveredCount + (if a.outcome == Transitioned(Delivered) then 1 else 0)
            && r.stats.failedDeliveryCount
               == rs.stats.failedDeliveryCount + (if a.outcome == Transitioned(DeliveryFailed) then 1 else 0)
    ensures StepsForward(rs, r, {o.orderId})
  {
    var a := AttemptOrder(rs.store, o, tracker, faults);
    var s := rs.stats;
    match a.outcome
    case Failed =>
      RunState(SaveLogisticsFailRecord(a.store, o.orderId, o.waybillNo, o.courierCode, faults(o, SaveFailRecord)),
               s.(failCount := s.failCount + 1))
    case Unchanged =>
      RunState(a.store, s.(successCount := s.successCount + 1))
    case Transitioned(to) =>
      if to == Delivered then
        RunState(a.store, s.(successCount := s.successCount + 1, deliveredCount := s.deliveredCount + 1))
      else
        RunState(a.store, s.(successCount := s.successCount + 1, failedDeliveryCount := s.failedDeliveryCount + 1))
  }

  /** The delivered counter moves exactly when the tracker reported the
      parcel delivered and the guarded update went through: the mirror was
      there or could be created, it still held the status the order API
      reported, and the update did not throw. */
  lemma DeliveredCountedExactlyWhenApplied(rs: RunState, o: OrderFromApi, tracker: L.Tracker, faults: Faults)
    ensures var r := ProcessOrder(rs, o, tracker, faults);
            var m := EnsureMirror(rs.store, o, faults);
            var q := L.QueryLogisticsStatus(o.waybillNo, o.courierCode, tracker);
            r.stats.deliveredCount == rs.stats.deliveredCount + 1 <==>
              && m.Some? && q.Success? && q.value.status == L.Delivered
              && o.orderId in m.value.orders && m.value.orders[o.orderId].status == o.status
              && !faults(o, UpdateStatus)
  {
    var q := L.QueryLogisticsStatus(o.waybillNo, o.courierCode, tracker);
    if q.Success? && q.value.status == L.Delivered {
      assert TargetStatus(q.value.status) == Some(Delivered);
    }
  }

  /** What any stretch of the pass guarantees, between the state `before` and
      the state `after`, having processed orders with ids in `ids`: counters
      only grow, the delivered and failed-delivery counters only together
      with the success counter, the log grows by one terminal transition per
      such count, and rows are only added, for the processed orders; the rows
      of every other order, and their ledger rows, stay as they were. */
  ghost predicate StepsForward(before: RunState, after: RunState, ids: set<string>) {
    var b, a := before.stats, after.stats;
    && a.totalOrders == b.totalOrders
    && a.successCount >= b.successCount && a.failCount >= b.failCount
    && a.deliveredCount >= b.deliveredCount && a.failedDeliveryCount >= b.failedDeliveryCount
    && (a.deliveredCount - b.deliveredCount) + (a.failedDeliveryCount - b.failedDeliveryCount)
       <= a.successCount - b.successCount
    && |after.store.logs| == |before.store.logs| + (a.deliveredCount - b.deliveredCount)
                                                  + (a.failedDeliveryCount - b.failedDeliveryCount)
    && after.store.logs[..|before.store.logs|] == before.store.logs
    && (forall k :: |before.store.logs| <= k < |after.store.logs| ==> after.store.logs[k].newStatus.IsTerminal())
    && before.store.orders.Keys <= after.store.orders.Keys <= before.store.orders.Keys + ids
    && before.store.failRecords.Keys <= after.store.failRecords.Keys <= before.store.failRecords.Keys + ids
    && (forall id :: id in before.store.orders && id !in ids ==> after.store.orders[id] == before.store.orders[id])
    && (forall id :: id in before.store.failRecords && id !in ids ==>
          after.store.failRecords[id] == before.store.failRecords[id])
  }

  /** Two stretches of the pass make one. */
  lemma StepsForwardTrans(s1: RunState, s2: RunState, s3: RunState, ids1: set<string>, ids2: set<string>)
    requires StepsForward(s1, s2, ids1) && StepsForward(s2, s3, ids2)
    ensures StepsForward(s1, s3, ids1 + ids2)
  {
    var l1, l2, l3 := s1.store.logs, s2.store.logs, s3.store.logs;
    assert l3[..|l1|] == l3[..|l2|][..|l1|];
    forall k | |l1| <= k < |l3| ensures l3[k].newStatus.IsTerminal() {
      if k < |l2| {
        assert l3[k] == l3[..|l2|][k] == l2[k];
      }
    }
  }

  /** The ids of a list of orders. */
  function Ids(orders: seq<OrderFromApi>): set<string> {
    set k | 0 <= k < |orders| :: orders[k].orderId
  }

  /** The loop: every order in turn, each starting from the state the previous
      one left, whatever became of it. */
  function Run(orders: seq<OrderFromApi>, rs: RunState, tracker: L.Tracker, faults: Faults): (r: RunState)
    ensures r.stats.successCount + r.stats.failCount == rs.stats.successCount + rs.stats.failCount + |orders|
    ensures StepsForward(rs, r, Ids(orders))
    decreases |orders|
  {
    if |orders| == 0 then
      assert StepsForward(rs, rs, {});
      rs
    else
      var next := ProcessOrder(rs, orders[0], tracker, faults);
      var r := Run(orders[1..], next, tracker, faults);
      IdsCons(orders);
      StepsForwardTrans(rs, next, r, {orders[0].orderId}, Ids(orders[1..]));
      r
  }

  lemma IdsCons(orders: seq<OrderFromApi>)
    requires |orders| > 0
    ensures Ids(orders) == {orders[0].orderId} + Ids(orders[1..])
  {
    forall id | id in Ids(orders) ensures id in {orders[0].orderId} + Ids(orders[1..]) {
      var k :| 0 <= k < |orders| && orders[k].orderId == id;
      if k > 0 { assert orders[1..][k - 1] == orders[k]; }
    }
    forall id | id in Ids(orders[1..]) ensures id in Ids(orders) {
      var k :| 0 <= k < |orders[1..]| && orders[1..][k].orderId == id;
      assert orders[k + 1] == orders[1..][k];
    }
  }

  /** The pass over `a + b` is the pass over `a` followed by the pass over
      `b`: what happens to one order only reaches later orders through the
      store and the counters. */
  lemma {:induction false} RunAppend(a: seq<OrderFromApi>, b: seq<OrderFromApi>, rs: RunState, tracker: L.Tracker, faults: Faults)
    ensures Run(a + b, rs, tracker, faults) == Run(b, Run(a, rs, tracker, faults), tracker, faults)
    decreases |a|
  {
    if |a| > 0 {
      assert (a + b)[0] == a[0];
      assert (a + b)[1..] == a[1..] + b;
      RunAppend(a[1..], b, ProcessOrder(rs, a[0], tracker, faults), tracker, faults);
    } else {
      assert a + b == b;
    }
  }

  /** Per-order failure isolation: an order whose tracking query fails adds
      exactly one to `failCount`, files or bumps its failure record (unless
      that write itself fails), and the pass goes on with the next order from
      the resulting state. */
  lemma TrackingFailureIsIsolated(o: OrderFromApi, rest: seq<OrderFromApi>, rs: RunState, tracker: L.Tracker, faults: Faults)
    requires EnsureMirror(rs.store, o, faults).Some?
    requires L.QueryLogisticsStatus(o.waybillNo, o.courierCode, tracker).Failure?
    requires !faults(o, SaveFailRecord)
    ensures var next := ProcessOrder(rs, o, tracker, faults);
            && next.stats == rs.stats.(failCount := rs.stats.failCount + 1)
            && o.orderId in next.store.failRecords
            && next.store.failRecords[o.orderId].failCount
               == (if o.orderId in rs.store.failRecords then rs.store.failRecords[o.orderId].failCount + 1
                   else InitialFailCount)
            && Run([o] + rest, rs, tracker, faults) == Run(rest, next, tracker, faults)
  {
    assert ([o] + rest)[0] == o;
    assert ([o] + rest)[1..] == rest;
  }

  // ---------------------------------------------------------------------------
  // The GET handler

  datatype SyncResponse = SyncResponse(httpStatus: int, success: bool, message: string, stats: Option<TaskStats>)

  datatype SyncResult = SyncResult(response: SyncResponse, store: Store)

  /** The header value that authorises a run: `Bearer ` followed by the
      secret, where an unset secret reads as the text "undefined". */
  function ExpectedAuth(cronSecret: Option<string>): (h: string)
    ensures |h| >= 7 && h[..7] == "Bearer "
    ensures h[7..] == if cronSecret.Some? then cronSecret.value else "undefined"
  {
    "Bearer " + cronSecret.GetOr("undefined")
  }

  /** `GET`: authorise, fetch, then run the pass. */
  function Get(authHeader: Option<string>, cronSecret: Option<string>, source: ApiReply, st: Store,
               tracker: L.Tracker, faults: Faults): (r: SyncResult)
    ensures authHeader != Some(ExpectedAuth(cronSecret)) ==>
              r == SyncResult(SyncResponse(401, false, "Unauthorized", None), st)
    ensures authHeader == Some(ExpectedAuth(cronSecret)) && GetPendingOrders(source).Failure? ==>
              r == SyncResult(SyncResponse(500, false, "Order status sync task failed", Some(ZeroStats)), st)
    ensures authHeader == Some(ExpectedAuth(cronSecret)) && GetPendingOrders(source) == Success([]) ==>
              r == SyncResult(SyncResponse(200, true, "No pending orders to sync", Some(ZeroStats)), st)
    ensures r.response.httpStatus == 200 ==>
              && r.response.success && r.response.stats.Some?
              && var s := r.response.stats.value;
                 && GetPendingOrders(source).Success?
                 && s.totalOrders == |GetPendingOrders(source).value|
                 && s.successCount + s.failCount == s.totalOrders
                 && s.deliveredCount + s.failedDeliveryCount <= s.successCount
                 && |r.store.logs| == |st.logs| + s.deliveredCount + s.failedDeliveryCount
    ensures authHeader == Some(ExpectedAuth(cronSecret)) && GetPendingOrders(source).Success?
            && |GetPendingOrders(source).value| > 0 ==>
              var orders := GetPendingOrders(source).value;
              var final := Run(orders, RunState(st, ZeroStats.(totalOrders := |orders|)), tracker, faults);
              r == SyncResult(SyncResponse(200, true, "Order status sync completed", Some(final.stats)), final.store)
    ensures r.response.httpStatus in {200, 401, 500}
  {
    if authHeader != Some(ExpectedAuth(cronSecret)) then
      SyncResult(SyncResponse(401, false, "Unauthorized", None), st)
    else
      match GetPendingOrders(source)
      case Failure(_) =>
        SyncResult(SyncResponse(500, false, "Order status sync task failed", Some(ZeroStats)), st)
      case Success(orders) =>
        if |orders| == 0 then
          SyncResult(SyncResponse(200, true, "No pending orders to sync", Some(ZeroStats)), st)
        else
          var final := Run(orders, RunState(st, ZeroStats.(totalOrders := |orders|)), tracker, faults);
          SyncResult(SyncResponse(200, true, "Order status sync completed", Some(final.stats)), final.store)
  }

  /** A rejected caller learns nothing and touches nothing: the order API's
      answer, the tracker and the database faults make no difference. */
  lemma UnauthorisedIgnoresEverything(authHeader: Option<string>, cronSecret: Option<string>,
                                      s1: ApiReply, s2: ApiReply, st: Store,
                                      t1: L.Tracker, t2: L.Tracker, f1: Faults, f2: Faults)
    requires authHeader != Some(ExpectedAuth(cronSecret))
    ensures Get(authHeader, cronSecret, s1, st, t1, f1) == Get(authHeader, cronSecret, s2, st, t2, f2)
  {
  }

  /** With the secret unset, the literal header "Bearer undefined" is
      accepted. */
  lemma UnsetSecretAcceptsUndefined(source: ApiReply, st: Store, tracker: L.Tracker, faults: Faults)
    ensures Get(Some("Bearer undefined"), None, source, st, tracker, faults).response.httpStatus != 401
  {
    assert ExpectedAuth(None) == "Bearer undefined";
  }

  /** The tracker text "Delivered" classifies as Delivered. */
  lemma DeliveredReadsDelivered(s: string)
    requires s == "Delivered"
    ensures L.Classify(s) == L.Delivered
  {
    var l := "delivered";
    assert Strings.Lower(s) == l;
    assert Strings.OccursAt(l, "delivered", 0);
  }

  /** First order of the worked scenario: a shipped order, unknown locally,
      that the tracker reports delivered is mirrored and moved to DELIVERED. */
  lemma ScenarioDelivered(rs: RunState, a: OrderFromApi, tracker: L.Tracker, faults: Faults)
    requires a == OrderFromApi("A", "WA", "SF", Shipped)
    requires tracker("sfexpress", "WA") == L.Tracked(Some("Delivered"), 0)
    requires forall o, step :: !faults(o, step)
    requires "A" !in rs.store.orders
    ensures var r := ProcessOrder(rs, a, tracker, faults);
            && r.stats == rs.stats.(successCount := rs.stats.successCount + 1,
                                    deliveredCount := rs.stats.deliveredCount + 1)
            && r.store.orders == rs.store.orders["A" := Order("A", "WA", "SF", Delivered)]
            && r.store.logs == rs.store.logs + [StatusLog("A", Shipped, Delivered)]
            && r.store.failRecords == rs.store.failRecords
  {
    DeliveredReadsDelivered("Delivered");
    assert L.QueryLogisticsStatus("WA", "SF", tracker).value.status == L.Delivered;
  }

  /** Second order: the tracker throws for a pending order, unknown locally
      and absent from the ledger. It is mirrored with its status, counted as
      failed and gets a ledger row with the initial count. */
  lemma ScenarioTrackerThrows(rs: RunState, b: OrderFromApi, tracker: L.Tracker, faults: Faults)
    requires b == OrderFromApi("B", "WB", "SF", Pending)
    requires tracker("sfexpress", "WB") == L.TrackFailed
    requires forall o, step :: !faults(o, step)
    requires "B" !in rs.store.orders && "B" !in rs.store.failRecords
    ensures var r := ProcessOrder(rs, b, tracker, faults);
            && r.stats == rs.stats.(failCount := rs.stats.failCount + 1)
            && r.store.orders == rs.store.orders["B" := Order("B", "WB", "SF", Pending)]
            && r.store.logs == rs.store.logs
            && r.store.failRecords == rs.store.failRecords["B" := FailRecord("B", "WB", "SF", InitialFailCount)]
  {
    assert L.QueryLogisticsStatus("WB", "SF", tracker) == Failure(L.QueryFailed);
  }

  /** A worked scenario: on an empty database, order A
      (shipped) is reported delivered and the tracker throws for order B
      (pending). One success with one delivery, one failure; A is DELIVERED
      with one log entry, B keeps its status and has a ledger row with count
      1. */
  lemma TwoOrderScenario(secret: string, a: OrderFromApi, b: OrderFromApi, tracker: L.Tracker, faults: Faults)
    requires a == OrderFromApi("A", "WA", "SF", Shipped)
    requires b == OrderFromApi("B", "WB", "SF", Pending)
    requires tracker("sfexpress", "WA") == L.Tracked(Some("Delivered"), 0)
    requires tracker("sfexpress", "WB") == L.TrackFailed
    requires forall o, step :: !faults(o, step)
    ensures var r := Get(Some("Bearer " + secret), Some(secret), Answered(ApiBody(200, "ok", Some([a, b]))),
                         Store(map[], [], map[]), tracker, faults);
            && r.response == SyncResponse(200, true, "Order status sync completed", Some(TaskStats(2, 1, 1, 1, 0)))
            && r.store.orders == map["A" := Order("A", "WA", "SF", Delivered), "B" := Order("B", "WB", "SF", Pending)]
            && r.store.logs == [StatusLog("A", Shipped, Delivered)]
            && r.store.failRecords == map["B" := FailRecord("B", "WB", "SF", 1)]
  {
    var rs0 := RunState(Store(map[], [], map[]), ZeroStats.(totalOrders := 2));
    ScenarioDelivered(rs0, a, tracker, faults);
    var rs1 := ProcessOrder(rs0, a, tracker, faults);
    ScenarioTrackerThrows(rs1, b, tracker, faults);
    var rs2 := ProcessOrder(rs1, b, tracker, faults);
    assert [a, b][1..] == [b];
    assert Run([b], rs1, tracker, faults) == rs2;
    assert Run([a, b], rs0, tracker, faults) == rs2;
    assert ExpectedAuth(Some(secret)) == "Bearer " + secret;
  }
}
