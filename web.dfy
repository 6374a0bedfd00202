/** The import-request handler of web.go (the `/i/` route) and the
    `duration` template function. The handler finds or creates the rate
    tracker of the client address and then passes the request through
    its gates in order; each response it writes is recorded, in order, in
    the returned trace. The limiter's decision is a function of the
    client address. */
module Web {
  import opened Wrappers
  import opened Errors
  import opened Helpers
  import opened Database
  import opened ImportQueue

  // ---------------------------------------------------------------------
  // The duration template function

  /** Go's integer division, which truncates toward zero. */
  function GoQuo(a: int, b: int): int
    requires b > 0
  {
    if a >= 0 then a / b else -((-a) / b)
  }

  /** Go's remainder, which takes the sign of the dividend. */
  function GoRem(a: int, b: int): int
    requires b > 0
  {
    a - GoQuo(a, b) * b
  }

  /** Quotient and remainder recompose the dividend, and the remainder is
      smaller than the divisor and has the dividend's sign. */
  lemma GoDivision(a: int, b: int)
    requires b > 0
    ensures a == GoQuo(a, b) * b + GoRem(a, b)
    ensures a >= 0 ==> GoQuo(a, b) == a / b && 0 <= GoRem(a, b) < b
    ensures a < 0 ==> -b < GoRem(a, b) <= 0
    ensures GoQuo(-a, b) == -GoQuo(a, b)
  {
    if a >= 0 {
      EuclideanDivision(a, b);
    } else {
      EuclideanDivision(-a, b);
      var q := (-a) / b;
      assert GoQuo(a, b) == -q && GoQuo(-a, b) == q;
      assert GoRem(a, b) == -((-a) % b);
    }
  }

  lemma EuclideanDivision(a: nat, b: int)
    requires b > 0
    ensures a - (a / b) * b == a % b
    ensures 0 <= a % b < b
  {
  }

  /** fmt's %02d: a number below ten gets a leading zero; negative numbers
      already have two characters. */
  function Pad2(n: int): string {
    if 0 <= n < 10 then "0" + DecimalString(n) else DecimalString(n)
  }

  /** The minutes and seconds of a duration in milliseconds. */
  function Minutes(d: int): int {
    GoQuo(GoQuo(d, 1000), 60)
  }

  function Seconds(d: int): int {
    GoRem(GoQuo(d, 1000), 60)
  }

  /** The `duration` template function: "%02d:%02d" of the minutes and
      seconds. */
  function FormatDuration(d: int): string {
    Pad2(Minutes(d)) + ":" + Pad2(Seconds(d))
  }

  /** For a non-negative duration the minutes and seconds recompose the
      whole seconds, and the text ends in ':' and the two digits of a
      seconds value below 60. */
  lemma FormatDurationSeconds(d: int)
    requires d >= 0
    ensures 0 <= Seconds(d) < 60 && Minutes(d) >= 0
    ensures Minutes(d) * 60 + Seconds(d) == d / 1000
    ensures var r := FormatDuration(d);
      |r| >= 5 && r[|r| - 3..] == [':', DigitChar(Seconds(d) / 10), DigitChar(Seconds(d) % 10)]
  {
    var s := Seconds(d);
    GoDivision(d / 1000, 60);
    if s < 10 {
      assert Pad2(s) == "0" + [DigitChar(s)];
    } else {
      assert Digits(s) == Digits(s / 10) + [DigitChar(s % 10)];
      assert Pad2(s) == [DigitChar(s / 10), DigitChar(s % 10)];
    }
    assert |Digits(Minutes(d))| >= 1;
  }

  /** Every duration of less than a second either way shows as "00:00",
      since the division truncates toward zero. */
  lemma SubSecondDurations(d: int)
    requires -1000 < d < 1000
    ensures FormatDuration(d) == "00:00"
  {
    assert GoQuo(d, 1000) == 0;
    assert Pad2(0) == "00";
  }

  /** Below one minute back, the negative seconds keep their sign. */
  lemma NegativeDurationExample()
    ensures FormatDuration(-61000) == "-1:-1"
  {
    assert GoQuo(-61000, 1000) == -61;
    assert Minutes(-61000) == -1 && Seconds(-61000) == -1;
    assert Pad2(-1) == "-" + Digits(1);
  }

  // ---------------------------------------------------------------------
  // Client trackers

  /** rate.NewLimiter(0.1, 1): one request per ten seconds, burst of one. */
  datatype Limiter = Limiter(secondsPerRequest: nat, burst: nat)

  const ImportLimiter: Limiter := Limiter(10, 1)

  /** importUserTrack: a client address and its limiter. */
  datatype UserTrack = UserTrack(ipAddress: string, limiter: Limiter)

  /** No address has two trackers. */
  predicate UniqueAddresses(ts: seq<UserTrack>) {
    forall i, j :: 0 <= i < j < |ts| ==> ts[i].ipAddress != ts[j].ipAddress
  }

  /** The position of the first tracker of `ip`, if any. */
  function FindTrack(ts: seq<UserTrack>, ip: string): (r: Option<nat>)
    ensures r.Some? ==> r.value < |ts| && ts[r.value].ipAddress == ip
    ensures r.Some? ==> forall k :: 0 <= k < r.value ==> ts[k].ipAddress != ip
    ensures r.None? <==> forall k :: 0 <= k < |ts| ==> ts[k].ipAddress != ip
  {
    if ts == [] then None
    else if ts[0].ipAddress == ip then Some(0)
    else match FindTrack(ts[1..], ip)
      case None => None
      case Some(k) => Some(k + 1)
  }

  /** With unique addresses, the tracker found is the only one of `ip`. */
  lemma FindTrackUnique(ts: seq<UserTrack>, ip: string, k: nat)
    requires UniqueAddresses(ts) && k < |ts| && ts[k].ipAddress == ip
    ensures FindTrack(ts, ip) == Some(k)
  {
  }

  /** The global importUserTracking list. */
  class ImportUserTracking {
    var tracks: seq<UserTrack>

    ghost predicate Valid()
      reads this
    {
      UniqueAddresses(tracks)
    }

    constructor ()
      ensures Valid() && tracks == []
    {
      tracks := [];
    }

    /** The tracker of `ip`, appended when there is none yet. */
    method FindOrCreate(ip: string) returns (index: nat)
      requires Valid()
      modifies this
      ensures Valid()
      ensures index < |tracks| && tracks[index].ipAddress == ip
      ensures FindTrack(old(tracks), ip).Some? ==> tracks == old(tracks) && Some(index) == FindTrack(tracks, ip)
      ensures FindTrack(old(tracks), ip).None? ==>
        tracks == old(tracks) + [UserTrack(ip, ImportLimiter)] && index == |old(tracks)|
    {
      for i := 0 to |tracks|
        invariant forall k :: 0 <= k < i ==> tracks[k].ipAddress != ip
      {
        if tracks[i].ipAddress == ip {
          FindTrackUnique(tracks, ip, i);
          return i;
        }
      }
      index := |tracks|;
      tracks := tracks + [UserTrack(ip, ImportLimiter)];
    }
  }

  // ---------------------------------------------------------------------
  // The import request

  /** A response written by displayAjaxMessage: a status and a message. */
  datatype Response = Response(status: int, message: string)

  const InvalidClient: Response := Response(400, "Invalid client.")
  const TooManyRequests: Response := Response(429, "Too many import request sent, please wait a little bit.")
  const InvalidReportUrl: Response := Response(400, "FFLogs report URL not provided or invalid.")
  const Accepted: Response := Response(200, "Your report is being processed.")

  function AlreadyProcessed(reportId: string): Response {
    Response(400, "FFLogs report " + reportId + " has already been processed.")
  }

  function AlreadyQueued(reportId: string): Response {
    Response(400, "FFLogs report " + reportId + " is already being processed.")
  }

  function InternalError(e: AppError): Response {
    Response(500, "An Error Occured: " + e.Message())
  }

  /** The responses after the queue's answer: an error other than the
      already-queued one is reported and then followed by the acceptance,
      since that branch does not return. */
  function AddResponses(reportId: string, added: Outcome<AppError>): seq<Response> {
    match added
    case Pass => [Accepted]
    case Fail(AlreadyInQueue) => [AlreadyQueued(reportId)]
    case Fail(e) => [InternalError(e), Accepted]
  }

  /** The gates after the tracker lookup, in order: the limiter, the
      report id, the import history, the queue. */
  function Admission(allowed: bool, reportId: string, imported: bool, added: Outcome<AppError>): seq<Response> {
    if !allowed then [TooManyRequests]
    else if reportId == "" then [InvalidReportUrl]
    else if imported then [AlreadyProcessed(reportId)]
    else AddResponses(reportId, added)
  }

  /** The request reaches the queue. */
  predicate ReachesQueue(allowed: bool, reportId: string, imported: bool) {
    allowed && reportId != "" && !imported
  }

  /** A denied request is answered 429 whatever the report, the history and
      the queue would have said. */
  lemma DeniedIgnoresRequest(reportId: string, imported: bool, added: Outcome<AppError>,
                             reportId': string, imported': bool, added': Outcome<AppError>)
    ensures Admission(false, reportId, imported, added) == Admission(false, reportId', imported', added')
    ensures Admission(false, reportId, imported, added)[0].status == 429
  {
  }

  /** The request ends with the acceptance exactly when it reaches the
      queue and the queue does not report it as already pending; every
      other answer is a single rejection with status 400 or 429. */
  lemma AcceptedIffQueued(allowed: bool, reportId: string, imported: bool, added: Outcome<AppError>)
    ensures var rs := Admission(allowed, reportId, imported, added);
      && rs != []
      && (rs[|rs| - 1] == Accepted <==> ReachesQueue(allowed, reportId, imported) && added != Fail(AlreadyInQueue))
      && (rs[|rs| - 1] != Accepted ==> |rs| == 1 && rs[0].status in {400, 429})
  {
  }

  /** The `/i/` handler. A request without a client address is answered
      400 and then handled on as coming from the empty address, since that
      branch does not return. */
  method HandleImport(tracking: ImportUserTracking, queue: FFLogsImportQueue, db: Store,
                      realIp: string, forwardedFor: string, remoteAddr: string, reportUrl: string,
                      allow: string -> bool)
    returns (responses: seq<Response>)
    requires tracking.Valid() && queue.Valid() && db.Valid()
    modifies tracking, queue
    ensures tracking.Valid() && queue.Valid()
    ensures var ip := ReadUserIp(realIp, forwardedFor, remoteAddr);
      var reportId := ReportUrlToReportId(reportUrl);
      var added: Outcome<AppError> := if reportId in old(queue.reports) then Fail(AlreadyInQueue) else Pass;
      && responses == (if ip == "" then [InvalidClient] else []) + Admission(allow(ip), reportId, db.HasFFLogsReport(reportId), added)
      && (ReachesQueue(allow(ip), reportId, db.HasFFLogsReport(reportId)) && reportId !in old(queue.reports) ==>
            queue.reports == old(queue.reports) + [reportId])
      && (!(ReachesQueue(allow(ip), reportId, db.HasFFLogsReport(reportId)) && reportId !in old(queue.reports)) ==>
            queue.reports == old(queue.reports))
      && FindTrack(tracking.tracks, ip).Some?
      && (FindTrack(old(tracking.tracks), ip).Some? ==> tracking.tracks == old(tracking.tracks))
      && (FindTrack(old(tracking.tracks), ip).None? ==> tracking.tracks == old(tracking.tracks) + [UserTrack(ip, ImportLimiter)])
  {
    responses := [];
    var userIpAddress := ReadUserIp(realIp, forwardedFor, remoteAddr);
    if userIpAddress == "" {
      responses := responses + [InvalidClient];
    }
    var index := tracking.FindOrCreate(userIpAddress);
    if !allow(tracking.tracks[index].ipAddress) {
      responses := responses + [TooManyRequests];
      return;
    }
    var reportId := ReportUrlToReportId(reportUrl);
    if reportId == "" {
      responses := responses + [InvalidReportUrl];
      return;
    }
    if db.HasFFLogsReport(reportId) {
      responses := responses + [AlreadyProcessed(reportId)];
      return;
    }
    var err := queue.Add(reportId);
    responses := responses + AddResponses(reportId, err);
  }
}
