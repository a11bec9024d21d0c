/** The single-waybill query endpoint of app/api/logistics/query/route.ts:
    validate the two fields, run the tracking client, and answer with the
    logical status and its Chinese display text. */
module QueryRoute {
  import opened Wrappers
  import opened Logistics

  /** The JSON request body. `Malformed` is any body that makes the handler
      throw before validation, with the thrown error's message: text that
      does not parse, and the JSON value `null`, whose destructuring throws.
      `Json` is any other value, with its two fields each absent or a string;
      a number, string or array has neither field. */
  datatype RequestBody =
    | Malformed(parseError: string)
    | Json(waybillNo: Option<string>, courierCode: Option<string>)

  datatype QueryData = QueryData(waybillNo: string, courierCode: string, status: LogisticsStatus,
                                 statusText: string, statusTime: Instant)

  datatype QueryResponse = QueryResponse(httpStatus: int, success: bool, message: Option<string>, data: Option<QueryData>)

  const MissingFieldsMessage := "运单号和快递公司编码不能为空"

  /** The Chinese display text of each logical status: delivered, in
      transit, delivery failed, status unknown. */
  function GetStatusText(s: LogisticsStatus): (t: string)
    ensures s == Delivered <==> t == "已送达"
    ensures s == InTransit <==> t == "运输中"
    ensures s == DeliveryFailed <==> t == "配送失败"
    ensures s == Unknown <==> t == "状态未知"
  {
    match s
    case Delivered => "已送达"
    case InTransit => "运输中"
    case DeliveryFailed => "配送失败"
    case Unknown => "状态未知"
  }

  /** Distinct statuses read differently. */
  lemma StatusTextInjective(s1: LogisticsStatus, s2: LogisticsStatus)
    ensures GetStatusText(s1) == GetStatusText(s2) <==> s1 == s2
  {
    if s1 != s2 {
      assert GetStatusText(s1)[0] != GetStatusText(s2)[0];
    }
  }

  /** A field as `!field` tests it: present and non-empty. */
  predicate Given(f: Option<string>) {
    f.Some? && f.value != ""
  }

  /** `POST`: a missing or empty field is rejected before the tracking
      client runs; an error the client throws becomes a 500 carrying its
      message, as does a body that does not parse. */
  function Post(body: RequestBody, tracker: Tracker): (r: QueryResponse)
    ensures body.Malformed? ==> r == QueryResponse(500, false, Some(body.parseError), None)
    ensures body.Json? && !(Given(body.waybillNo) && Given(body.courierCode)) ==>
              r == QueryResponse(400, false, Some(MissingFieldsMessage), None)
    ensures body.Json? && Given(body.waybillNo) && Given(body.courierCode) ==>
              var w, c := body.waybillNo.value, body.courierCode.value;
              match QueryLogisticsStatus(w, c, tracker)
              case Failure(e) => r == QueryResponse(500, false, Some(ErrorMessage(e)), None)
              case Success(res) =>
                r == QueryResponse(200, true, None,
                                   Some(QueryData(w, c, res.status, GetStatusText(res.status), res.statusTime)))
    ensures r.success <==> r.httpStatus == 200
    ensures r.success <==> r.data.Some?
    ensures !r.success ==> r.message.Some?
  {
    match body
    case Malformed(msg) => QueryResponse(500, false, Some(msg), None)
    case Json(waybillNo, courierCode) =>
      if !Given(waybillNo) || !Given(courierCode) then
        QueryResponse(400, false, Some(MissingFieldsMessage), None)
      else
        match QueryLogisticsStatus(waybillNo.value, courierCode.value, tracker)
        case Failure(e) => QueryResponse(500, false, Some(ErrorMessage(e)), None)
        case Success(res) =>
          QueryResponse(200, true, None,
                        Some(QueryData(waybillNo.value, courierCode.value, res.status,
                                       GetStatusText(res.status), res.statusTime)))
  }

  /** The route's own check makes the client's argument error unreachable:
      a 500 from a parsed body is an unsupported carrier or a failed query,
      never the missing-fields message of the client. */
  lemma ServerErrorIsCarrierOrTracker(w: string, c: string, tracker: Tracker)
    ensures var r := Post(Json(Some(w), Some(c)), tracker);
            r.httpStatus == 500 ==>
              || r.message == Some(ErrorMessage(UnsupportedCarrier(c)))
              || r.message == Some(ErrorMessage(QueryFailed))
  {
  }

  /** A successful answer's text is the text of the classification of what
      the tracker reported for the mapped carrier. */
  lemma SuccessTextIsClassification(w: string, c: string, tracker: Tracker)
    requires Post(Json(Some(w), Some(c)), tracker).success
    ensures c in CourierCodeMapping
    ensures var reply := tracker(CourierCodeMapping[c], w);
            && reply.Tracked? && reply.lastStatus.Some?
            && Post(Json(Some(w), Some(c)), tracker).data.value.statusText == GetStatusText(Classify(reply.lastStatus.value))
  {
    QuerySuccessIsTrackerStatus(w, c, tracker);
  }
}
