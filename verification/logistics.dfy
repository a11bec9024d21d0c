/** The tracking client of lib/logistics.ts: argument validation, the
    carrier-code table, one call to the external tracker, and the ordered
    substring rules that turn the tracker's free-text last status into a
    logical status. */
module Logistics {
  import opened Wrappers
  import opened Strings

  /** Milliseconds since the epoch as reported by the tracker; the model never
      looks inside it. */
  type Instant = int

  datatype LogisticsStatus = Delivered | InTransit | DeliveryFailed | Unknown

  /** System carrier code to the tracker library's carrier code. */
  const CourierCodeMapping: map<string, string> := map[
    "SF" := "sfexpress",
    "YTO" := "yto",
    "ZTO" := "zto",
    "Yunda" := "yunda",
    "TTKDEX" := "ttkdex",
    "JD" := "jdlogistics",
    "Cainiao" := "cainiao"
  ]

  /** Vocabulary of each rule, checked against the lower-cased status. */
  const DeliveredTerms: seq<string> := ["delivered", "签收"]
  const FailureTerms: seq<string> := ["fail", "异常", "拒收"]
  const TransitTerms: seq<string> := ["transit", "运输", "派送"]

  /** Some term of `terms` occurs in `s`. */
  ghost predicate MentionsAny(s: string, terms: seq<string>) {
    exists k, i :: 0 <= k < |terms| && OccursAt(s, terms[k], i)
  }

  /** The two-term vocabulary check, read as the table says. */
  lemma MentionsTwo(s: string, terms: seq<string>)
    requires |terms| == 2
    ensures MentionsAny(s, terms) <==> Contains(s, terms[0]) || Contains(s, terms[1])
  {
    if MentionsAny(s, terms) {
      var k, i :| 0 <= k < |terms| && OccursAt(s, terms[k], i);
      assert k == 0 || k == 1;
    }
  }

  lemma MentionsThree(s: string, terms: seq<string>)
    requires |terms| == 3
    ensures MentionsAny(s, terms) <==> Contains(s, terms[0]) || Contains(s, terms[1]) || Contains(s, terms[2])
  {
    if MentionsAny(s, terms) {
      var k, i :| 0 <= k < |terms| && OccursAt(s, terms[k], i);
      assert k == 0 || k == 1 || k == 2;
    }
  }

  /** The classification rules on an already lower-cased status string: the
      first vocabulary that occurs decides, in the order delivered, failure,
      transit; nothing matching gives Unknown. */
  function ClassifyLowered(l: string): (r: LogisticsStatus)
    ensures r == Delivered <==> MentionsAny(l, DeliveredTerms)
    ensures r == DeliveryFailed <==> !MentionsAny(l, DeliveredTerms) && MentionsAny(l, FailureTerms)
    ensures r == InTransit <==>
              !MentionsAny(l, DeliveredTerms) && !MentionsAny(l, FailureTerms) && MentionsAny(l, TransitTerms)
    ensures r == Unknown <==>
              !MentionsAny(l, DeliveredTerms) && !MentionsAny(l, FailureTerms) && !MentionsAny(l, TransitTerms)
  {
    MentionsTwo(l, DeliveredTerms);
    MentionsThree(l, FailureTerms);
    MentionsThree(l, TransitTerms);
    if Contains(l, "delivered") || Contains(l, "签收") then
      Delivered
    else if Contains(l, "fail") || Contains(l, "异常") || Contains(l, "拒收") then
      DeliveryFailed
    else if Contains(l, "transit") || Contains(l, "运输") || Contains(l, "派送") then
      InTransit
    else
      Unknown
  }

  /** The status classifier: the tracker's last status is lower-cased, then
      the first matching rule wins (delivered, then failure, then transit). */
  function Classify(lastStatus: string): (r: LogisticsStatus)
    ensures r == Delivered <==> MentionsAny(Lower(lastStatus), DeliveredTerms)
    ensures r == DeliveryFailed <==>
              !MentionsAny(Lower(lastStatus), DeliveredTerms) && MentionsAny(Lower(lastStatus), FailureTerms)
    ensures r == InTransit <==>
              && !MentionsAny(Lower(lastStatus), DeliveredTerms) && !MentionsAny(Lower(lastStatus), FailureTerms)
              && MentionsAny(Lower(lastStatus), TransitTerms)
    ensures r == Unknown <==>
              && !MentionsAny(Lower(lastStatus), DeliveredTerms) && !MentionsAny(Lower(lastStatus), FailureTerms)
              && !MentionsAny(Lower(lastStatus), TransitTerms)
  {
    ClassifyLowered(Lower(lastStatus))
  }

  /** Classification does not depend on letter case. */
  lemma ClassifyCaseInsensitive(s: string)
    ensures Classify(s) == Classify(Lower(s))
  {
    LowerIdempotent(s);
  }

  /** What the tracker library reports for one query: the raw last status
      (absent in a malformed reply) and its time, or a thrown error
      (network failure, provider error, timeout). */
  datatype TrackReply = Tracked(lastStatus: Option<string>, lastTime: Instant) | TrackFailed

  /** The external tracker: tracker carrier code and waybill number to reply.
      Being a function, it gives the same reply to the same question every
      time it is asked, so two queries for one waybill within a run agree. */
  type Tracker = (string, string) -> TrackReply

  datatype TrackingResult = TrackingResult(status: LogisticsStatus, statusTime: Instant, raw: TrackReply)

  datatype TrackError =
    | InvalidArgument
    | UnsupportedCarrier(code: string)
    | QueryFailed

  /** The `message` of the error each case throws. */
  function ErrorMessage(e: TrackError): (m: string)
    ensures e.InvalidArgument? ==> m == "运单号和快递公司编码不能为空"
    ensures e.UnsupportedCarrier? ==> m == "不支持的快递公司：" + e.code
    ensures e.QueryFailed? ==> m == "Failed to query logistics status"
  {
    match e
    case InvalidArgument => "运单号和快递公司编码不能为空"
    case UnsupportedCarrier(code) => "不支持的快递公司：" + code
    case QueryFailed => "Failed to query logistics status"
  }

  /** The two checks made before any tracker call: both arguments non-empty,
      and the carrier code a key of the table (case-sensitive). On success,
      the tracker's code for the carrier. */
  function ResolveCarrier(waybillNo: string, courierCode: string): (r: Result<string, TrackError>)
    ensures r.Failure? && r.error == InvalidArgument <==> waybillNo == "" || courierCode == ""
    ensures r.Failure? && r.error.UnsupportedCarrier? <==>
              waybillNo != "" && courierCode != "" && courierCode !in CourierCodeMapping
    ensures r.Failure? ==> r.error != QueryFailed
    ensures r.Success? ==> courierCode in CourierCodeMapping && r.value == CourierCodeMapping[courierCode]
  {
    if waybillNo == "" || courierCode == "" then
      Failure(InvalidArgument)
    else if courierCode !in CourierCodeMapping then
      Failure(UnsupportedCarrier(courierCode))
    else
      Success(CourierCodeMapping[courierCode])
  }

  /** `queryLogisticsStatus`: validate, map the carrier, ask the tracker once,
      classify its last status. Any failure of the tracker or of reading its
      reply becomes the one generic error. */
  function QueryLogisticsStatus(waybillNo: string, courierCode: string, tracker: Tracker)
    : (r: Result<TrackingResult, TrackError>)
    ensures waybillNo == "" || courierCode == "" ==> r == Failure(InvalidArgument)
    ensures (waybillNo != "" && courierCode != "" && courierCode !in CourierCodeMapping)
              ==> r == Failure(UnsupportedCarrier(courierCode))
    ensures courierCode in CourierCodeMapping && waybillNo != "" ==>
              var reply := tracker(CourierCodeMapping[courierCode], waybillNo);
              match reply
              case Tracked(Some(s), t) => r == Success(TrackingResult(Classify(s), t, reply))
              case _ => r == Failure(QueryFailed)
  {
    match ResolveCarrier(waybillNo, courierCode)
    case Failure(e) => Failure(e)
    case Success(trackerCode) =>
      var reply := tracker(trackerCode, waybillNo);
      match reply
      case Tracked(Some(lastStatus), lastTime) =>
        Success(TrackingResult(Classify(lastStatus), lastTime, reply))
      case _ => Failure(QueryFailed)
  }

  /** Validation errors are raised before the tracker is consulted: when the
      arguments are rejected, every tracker gives the same result. */
  lemma RejectedQueryIgnoresTracker(waybillNo: string, courierCode: string, t1: Tracker, t2: Tracker)
    requires waybillNo == "" || courierCode == "" || courierCode !in CourierCodeMapping
    ensures QueryLogisticsStatus(waybillNo, courierCode, t1) == QueryLogisticsStatus(waybillNo, courierCode, t2)
    ensures QueryLogisticsStatus(waybillNo, courierCode, t1).Failure?
  {
  }

  /** A success always carries the classification of what the tracker said;
      there is no default result on the failure path. */
  lemma QuerySuccessIsTrackerStatus(waybillNo: string, courierCode: string, tracker: Tracker)
    requires QueryLogisticsStatus(waybillNo, courierCode, tracker).Success?
    ensures courierCode in CourierCodeMapping
    ensures var reply := tracker(CourierCodeMapping[courierCode], waybillNo);
            reply.Tracked? && reply.lastStatus.Some?
            && QueryLogisticsStatus(waybillNo, courierCode, tracker).value.status == Classify(reply.lastStatus.value)
  {
  }
}
