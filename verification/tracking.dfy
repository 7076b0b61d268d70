/** The UPS tracking client of tracking.go: the request it builds from the
    client's credentials, the way it classifies the decoded reply (fault,
    unsuccessful status, success), and the in-place reconstruction of each
    activity's timestamp from its Date and Time strings.  The HTTP exchange
    and the JSON codecs are one function parameter, `roundTrip`, from the
    request to what came back. */
module Tracking {
  import opened Rfc3339

  datatype Result<+T, +E> = Ok(value: T) | Err(error: E)

  // ---------------------------------------------------------------------
  // Wire records.  Go's one-field wrapper structs are flattened: an
  // activity's ActivityLocation.Address is `location`, a response's
  // Response.ResponseStatus is `responseStatus`, a fault's
  // Detail.Errors.ErrorDetail is `errorDetail`, a weight's
  // UnitOfMeasurement.Code is `unitOfMeasurement`, a request's
  // UPSServiceAccessToken.AccessLicenseNumber is `accessLicenseNumber`, and
  // each PackageServiceOption's Type is an element of `serviceOptions`.
  // Go's field name Type is `kind` here.
  // ---------------------------------------------------------------------

  datatype Address = Address(city: string, stateProvinceCode: string, countryCode: string)

  datatype CodeDescr = CodeDescr(code: string, description: string)

  datatype ActivityStatus = ActivityStatus(codeDescr: CodeDescr, kind: string)

  datatype Activity = Activity(location: Address, status: ActivityStatus,
                               date: string, time: string, parsedTimestamp: Instant)

  datatype Weight = Weight(unitOfMeasurement: string, weight: string)

  datatype Package = Package(activities: seq<Activity>, serviceOptions: seq<CodeDescr>,
                             message: CodeDescr, packageWeight: Weight)

  datatype ShipmentAddress = ShipmentAddress(kind: CodeDescr, address: Address)

  datatype DeliveryDetail = DeliveryDetail(kind: CodeDescr, date: string)

  datatype Shipment = Shipment(package: Package, shipperNumber: string,
                               shipmentAddresses: seq<ShipmentAddress>, shipmentWeight: Weight,
                               service: CodeDescr, pickupDate: string,
                               deliveryDetail: DeliveryDetail)

  datatype TrackResponse = TrackResponse(responseStatus: CodeDescr, shipment: Shipment)

  datatype ErrorDetail = ErrorDetail(severity: string, primaryErrorCode: CodeDescr)

  datatype Fault = Fault(faultcode: string, faultstring: string, errorDetail: ErrorDetail)

  /** The decoded reply: both alternatives are always present, and an absent
      one holds empty strings. */
  datatype ResponseData = ResponseData(trackResponse: TrackResponse, fault: Fault)

  datatype UsernameToken = UsernameToken(username: string, password: string)

  datatype Security = Security(usernameToken: UsernameToken, accessLicenseNumber: string)

  datatype RequestHeader = RequestHeader(requestAction: string, requestOption: string)

  datatype TrackRequest = TrackRequest(request: RequestHeader, inquiryNumber: string)

  datatype RequestData = RequestData(security: Security, trackRequest: TrackRequest)

  /** The client's credentials; it changes none of them after construction. */
  datatype Client = Client(username: string, password: string, accessKey: string)

  // ---------------------------------------------------------------------
  // Client construction and the request
  // ---------------------------------------------------------------------

  /** NewUPSTrackingClient, as far as the credentials go. */
  function NewClient(username: string, password: string, accessKey: string): (c: Client)
    ensures c.username == username && c.password == password && c.accessKey == accessKey
  {
    Client(username, password, accessKey)
  }

  const TrackAction := "Track"
  const ActivityOption := "activity"

  /** The payload TrackActivity sends for a tracking number. */
  function BuildRequest(c: Client, trackingNumber: string): (r: RequestData)
    ensures IsActivityQuery(r)
    ensures ClientOf(r) == c && r.trackRequest.inquiryNumber == trackingNumber
  {
    RequestData(Security(UsernameToken(c.username, c.password), c.accessKey),
                TrackRequest(RequestHeader(TrackAction, ActivityOption), trackingNumber))
  }

  /** A request asking for a package's activity history. */
  predicate IsActivityQuery(r: RequestData) {
    r.trackRequest.request == RequestHeader(TrackAction, ActivityOption)
  }

  /** The credentials a request carries. */
  function ClientOf(r: RequestData): Client {
    Client(r.security.usernameToken.username, r.security.usernameToken.password,
           r.security.accessLicenseNumber)
  }

  /** Every activity query is the request built from the credentials and
      the inquiry number it carries, so BuildRequest is a one-to-one map
      from (client, tracking number) onto activity queries. */
  lemma ActivityQueryIsBuilt(r: RequestData)
    requires IsActivityQuery(r)
    ensures r == BuildRequest(ClientOf(r), r.trackRequest.inquiryNumber)
  {
  }

  /** Building the request from a fresh client copies the three
      credentials unchanged. */
  lemma NewClientRequest(username: string, password: string, accessKey: string, trackingNumber: string)
    ensures var r := BuildRequest(NewClient(username, password, accessKey), trackingNumber);
            r.security.usernameToken.username == username &&
            r.security.usernameToken.password == password &&
            r.security.accessLicenseNumber == accessKey &&
            r.trackRequest.request.requestAction == "Track" &&
            r.trackRequest.request.requestOption == "activity" &&
            r.trackRequest.inquiryNumber == trackingNumber
  {
  }

  // ---------------------------------------------------------------------
  // Timestamp reconstruction (parseDatetime)
  // ---------------------------------------------------------------------

  /** The slice expressions Date[0:8] and Time[0:6] do not panic. */
  predicate Sliceable(a: Activity) {
    |a.date| >= 8 && |a.time| >= 6
  }

  predicate AllSliceable(s: seq<Activity>) {
    forall i :: 0 <= i < |s| ==> Sliceable(s[i])
  }

  /** The text the Sprintf call assembles from the date (YYYYMMDD) and the
      time (HHMMSS). */
  function AssembleRfc3339(date: string, time: string): (s: string)
    requires |date| >= 8 && |time| >= 6
    ensures IsSecondForm(s)
    ensures s[0..4] == date[0..4] && s[5..7] == date[4..6] && s[8..10] == date[6..8]
    ensures s[11..13] == time[0..2] && s[14..16] == time[2..4] && s[17..19] == time[4..6]
  {
    date[0..4] + "-" + date[4..6] + "-" + date[6..8] + "T" +
    time[0..2] + ":" + time[2..4] + ":" + time[4..6] + "Z"
  }

  /** The timestamp an activity's date and time denote, if any. */
  function TimestampOf(date: string, time: string): Option<Instant>
    requires |date| >= 8 && |time| >= 6
  {
    Parse(AssembleRfc3339(date, time))
  }

  /** One iteration of parseDatetime: a parsed timestamp replaces
      ParsedTimestamp; on a parse error the activity stays as it was. */
  function Normalise(a: Activity): (r: Activity)
    requires Sliceable(a)
    ensures r == a.(parsedTimestamp := r.parsedTimestamp)
    ensures TimestampOf(a.date, a.time).None? ==> r == a
    ensures TimestampOf(a.date, a.time).Some? ==> r.parsedTimestamp == TimestampOf(a.date, a.time).value
  {
    match TimestampOf(a.date, a.time)
    case Some(t) => a.(parsedTimestamp := t)
    case None => a
  }

  /** The activities after parseDatetime. */
  function NormaliseAll(s: seq<Activity>): (r: seq<Activity>)
    requires AllSliceable(s)
    ensures |r| == |s| && AllSliceable(r)
  {
    if s == [] then [] else NormaliseAll(s[..|s| - 1]) + [Normalise(s[|s| - 1])]
  }

  /** parseDatetime: walks the activities and, for each, writes the parsed
      timestamp in place when the assembled text parses. */
  method ParseDatetime(activities: array<Activity>)
    requires AllSliceable(activities[..])
    modifies activities
    ensures activities[..] == NormaliseAll(old(activities[..]))
  {
    ghost var before := activities[..];
    var idx := 0;
    while idx < activities.Length
      invariant 0 <= idx <= activities.Length
      invariant forall k :: 0 <= k < idx ==> activities[k] == Normalise(before[k])
      invariant forall k :: idx <= k < activities.Length ==> activities[k] == before[k]
    {
      ParseDatetimeAt(activities, idx);
      idx := idx + 1;
    }
    NormaliseAllPointwise(before, activities[..]);
  }

  /** One iteration of parseDatetime's loop, on entry idx. */
  method ParseDatetimeAt(activities: array<Activity>, idx: int)
    requires 0 <= idx < activities.Length && Sliceable(activities[idx])
    modifies activities
    ensures activities[idx] == Normalise(old(activities[idx]))
    ensures forall k :: 0 <= k < activities.Length && k != idx ==> activities[k] == old(activities[k])
  {
    var a := activities[idx];
    var s := AssembleRfc3339(a.date, a.time);
    var parsed := Parse(s);
    if parsed.Some? {
      activities[idx] := activities[idx].(parsedTimestamp := parsed.value);
    }
  }

  /** A sequence that holds each activity normalised is NormaliseAll. */
  lemma NormaliseAllPointwise(s: seq<Activity>, r: seq<Activity>)
    requires AllSliceable(s) && |r| == |s|
    requires forall k :: 0 <= k < |s| ==> r[k] == Normalise(s[k])
    ensures r == NormaliseAll(s)
  {
    forall k | 0 <= k < |s|
      ensures r[k] == NormaliseAll(s)[k]
    {
      NormaliseAllAt(s, k);
    }
  }

  /** parseDatetime keeps the number of activities, and treats each one on
      its own: entry k afterwards is entry k normalised. */
  lemma {:induction false} NormaliseAllAt(s: seq<Activity>, k: int)
    requires AllSliceable(s) && 0 <= k < |s|
    ensures NormaliseAll(s)[k] == Normalise(s[k])
  {
    if k < |s| - 1 {
      NormaliseAllAt(s[..|s| - 1], k);
    }
  }

  /** An activity whose date and time do not parse keeps its previous
      timestamp, and every other activity is still processed. */
  lemma MalformedEntryIsolated(s: seq<Activity>, k: int)
    requires AllSliceable(s) && 0 <= k < |s|
    requires TimestampOf(s[k].date, s[k].time).None?
    ensures NormaliseAll(s)[k] == s[k]
    ensures forall j :: 0 <= j < |s| && j != k ==> NormaliseAll(s)[j] == Normalise(s[j])
  {
    forall j | 0 <= j < |s|
      ensures NormaliseAll(s)[j] == Normalise(s[j])
    {
      NormaliseAllAt(s, j);
    }
  }

  /** A freshly decoded activity carries Go's zero time; when its date and
      time do not parse, it still carries the zero time afterwards. */
  lemma MalformedKeepsZeroTime(s: seq<Activity>, k: int)
    requires AllSliceable(s) && 0 <= k < |s| && s[k].parsedTimestamp == ZeroInstant
    requires TimestampOf(s[k].date, s[k].time).None?
    ensures NormaliseAll(s)[k].parsedTimestamp == ZeroInstant
  {
    MalformedEntryIsolated(s, k);
  }

  /** parseDatetime changes nothing but ParsedTimestamp: dates, times,
      locations and statuses are untouched, entry by entry. */
  lemma NormaliseAllOnlyTimestamps(s: seq<Activity>)
    requires AllSliceable(s)
    ensures |NormaliseAll(s)| == |s|
    ensures forall k :: 0 <= k < |s| ==>
              NormaliseAll(s)[k] == s[k].(parsedTimestamp := NormaliseAll(s)[k].parsedTimestamp)
  {
    forall k | 0 <= k < |s|
      ensures NormaliseAll(s)[k] == s[k].(parsedTimestamp := NormaliseAll(s)[k].parsedTimestamp)
    {
      NormaliseAllAt(s, k);
    }
  }

  /** Running parseDatetime twice gives what running it once gives. */
  lemma {:induction false} NormaliseAllIdempotent(s: seq<Activity>)
    requires AllSliceable(s)
    ensures NormaliseAll(NormaliseAll(s)) == NormaliseAll(s)
  {
    if s != [] {
      var r := NormaliseAll(s);
      NormaliseAllIdempotent(s[..|s| - 1]);
      assert r[..|r| - 1] == NormaliseAll(s[..|s| - 1]);
    }
  }

  /** When a timestamp is produced, its fields are the decimal values of
      Date[0:4], Date[4:6], Date[6:8], Time[0:2], Time[2:4], Time[4:6], it
      has no fractional part and its zone is UTC. */
  lemma TimestampFields(date: string, time: string)
    requires |date| >= 8 && |time| >= 6 && TimestampOf(date, time).Some?
    ensures AllDigits(date[0..4]) && AllDigits(date[4..6]) && AllDigits(date[6..8])
    ensures AllDigits(time[0..2]) && AllDigits(time[2..4]) && AllDigits(time[4..6])
    ensures TimestampOf(date, time).value ==
              Instant(DecimalValue(date[0..4]), DecimalValue(date[4..6]), DecimalValue(date[6..8]),
                      DecimalValue(time[0..2]), DecimalValue(time[2..4]), DecimalValue(time[4..6]), 0, 0)
  {
  }

  /** A timestamp is produced exactly when the fourteen leading characters
      are digits and the fields they spell form a valid calendar instant. */
  lemma TimestampOfSucceedsIff(date: string, time: string)
    requires |date| >= 8 && |time| >= 6
    ensures TimestampOf(date, time).Some? <==>
              AllDigits(date[..8]) && AllDigits(time[..6]) &&
              ValidCalendar(Instant(DecimalValue(date[0..4]), DecimalValue(date[4..6]), DecimalValue(date[6..8]),
                                    DecimalValue(time[0..2]), DecimalValue(time[2..4]), DecimalValue(time[4..6]), 0, 0))
  {
    assert date[..8] == date[0..4] + date[4..6] + date[6..8];
    assert time[..6] == time[0..2] + time[2..4] + time[4..6];
  }

  /** Only the first eight characters of Date and the first six of Time
      matter. */
  lemma TimestampOfPrefixOnly(date1: string, time1: string, date2: string, time2: string)
    requires |date1| >= 8 && |time1| >= 6 && |date2| >= 8 && |time2| >= 6
    requires date1[..8] == date2[..8] && time1[..6] == time2[..6]
    ensures TimestampOf(date1, time1) == TimestampOf(date2, time2)
  {
    assert date1[0..4] == date1[..8][0..4] && date2[0..4] == date2[..8][0..4];
    assert date1[4..6] == date1[..8][4..6] && date2[4..6] == date2[..8][4..6];
    assert date1[6..8] == date1[..8][6..8] && date2[6..8] == date2[..8][6..8];
    assert time1[0..2] == time1[..6][0..2] && time2[0..2] == time2[..6][0..2];
    assert time1[2..4] == time1[..6][2..4] && time2[2..4] == time2[..6][2..4];
    assert time1[4..6] == time1[..6][4..6] && time2[4..6] == time2[..6][4..6];
    assert AssembleRfc3339(date1, time1) == AssembleRfc3339(date2, time2);
  }

  /** A timestamp produced is the one whose RFC 3339 rendering is the
      assembled text, so two activities get the same timestamp only when
      their first eight date and six time characters agree. */
  lemma TimestampOfInjective(date1: string, time1: string, date2: string, time2: string)
    requires |date1| >= 8 && |time1| >= 6 && |date2| >= 8 && |time2| >= 6
    requires TimestampOf(date1, time1).Some? && TimestampOf(date1, time1) == TimestampOf(date2, time2)
    ensures date1[..8] == date2[..8] && time1[..6] == time2[..6]
  {
    var s1, s2 := AssembleRfc3339(date1, time1), AssembleRfc3339(date2, time2);
    ParseThenFormat(s1);
    ParseThenFormat(s2);
    assert s1 == s2;
    AssembledFields(date1, time1);
    AssembledFields(date2, time2);
  }

  /** The assembled text gives back the eight date and six time characters. */
  lemma AssembledFields(date: string, time: string)
    requires |date| >= 8 && |time| >= 6
    ensures var s := AssembleRfc3339(date, time);
            date[..8] == s[0..4] + s[5..7] + s[8..10] && time[..6] == s[11..13] + s[14..16] + s[17..19]
  {
    assert date[..8] == date[0..4] + date[4..6] + date[6..8];
    assert time[..6] == time[0..2] + time[2..4] + time[4..6];
  }

  /** The reconstruction succeeds for every valid instant of years 0 to 9999:
      the date and time strings that spell it out parse back to it. */
  lemma TimestampOfComplete(t: Instant)
    requires IsSecondPrecisionUtc(t)
    ensures TimestampOf(ZeroPadded(t.year, 4) + ZeroPadded(t.month, 2) + ZeroPadded(t.day, 2),
                        ZeroPadded(t.hour, 2) + ZeroPadded(t.minute, 2) + ZeroPadded(t.second, 2))
            == Some(t)
  {
    var date := ZeroPadded(t.year, 4) + ZeroPadded(t.month, 2) + ZeroPadded(t.day, 2);
    var time := ZeroPadded(t.hour, 2) + ZeroPadded(t.minute, 2) + ZeroPadded(t.second, 2);
    assert date[0..4] == ZeroPadded(t.year, 4);
    assert date[4..6] == ZeroPadded(t.month, 2);
    assert date[6..8] == ZeroPadded(t.day, 2);
    assert time[0..2] == ZeroPadded(t.hour, 2);
    assert time[2..4] == ZeroPadded(t.minute, 2);
    assert time[4..6] == ZeroPadded(t.second, 2);
    FormatThenParse(t);
    assert AssembleRfc3339(date, time) == Format(t);
  }

  /** The test's activity: Date "20180203" and Time "131300" become exactly
      2018-02-03T13:13:00Z. */
  lemma ParsetimeExample(a: Activity)
    requires a.date == "20180203" && a.time == "131300"
    ensures NormaliseAll([a]) == [a.(parsedTimestamp := Instant(2018, 2, 3, 13, 13, 0, 0, 0))]
  {
    var t := Instant(2018, 2, 3, 13, 13, 0, 0, 0);
    DigitsSpell("20180203", "131300", t);
    assert NormaliseAll([a]) == NormaliseAll([]) + [Normalise(a)];
  }

  /** Digit strings that spell a valid instant produce it. */
  lemma DigitsSpell(date: string, time: string, t: Instant)
    requires |date| == 8 && |time| == 6 && AllDigits(date) && AllDigits(time)
    requires t.year == 1000 * DigitValue(date[0]) + 100 * DigitValue(date[1]) + 10 * DigitValue(date[2]) + DigitValue(date[3])
    requires t.month == 10 * DigitValue(date[4]) + DigitValue(date[5])
    requires t.day == 10 * DigitValue(date[6]) + DigitValue(date[7])
    requires t.hour == 10 * DigitValue(time[0]) + DigitValue(time[1])
    requires t.minute == 10 * DigitValue(time[2]) + DigitValue(time[3])
    requires t.second == 10 * DigitValue(time[4]) + DigitValue(time[5])
    requires t.nanosecond == 0 && t.offsetSeconds == 0
    ensures TimestampOf(date, time) == if ValidCalendar(t) then Some(t) else None
  {
    DecimalValue4(date[0..4]);
    DecimalValue2(date[4..6]);
    DecimalValue2(date[6..8]);
    DecimalValue2(time[0..2]);
    DecimalValue2(time[2..4]);
    DecimalValue2(time[4..6]);
    assert date[..8] == date && time[..6] == time;
    TimestampOfSucceedsIff(date, time);
    if ValidCalendar(t) {
      TimestampFields(date, time);
    }
  }

  /** A month field of 00 or 13, or April 31, leaves no timestamp. */
  lemma MonthOrDayOutOfRange(date: string, time: string)
    requires |date| >= 8 && |time| >= 6
    requires date[4..6] == "00" || date[4..6] == "13" || date[4..8] == "0431"
    ensures TimestampOf(date, time).None?
  {
    TimestampOfSucceedsIff(date, time);
    if AllDigits(date[..8]) {
      assert date[4..6] == date[..8][4..6] && date[6..8] == date[..8][6..8];
      DecimalValue2(date[4..6]);
      DecimalValue2(date[6..8]);
      assert date[4..6] == date[4..8][0..2] && date[6..8] == date[4..8][2..4];
    }
  }

  /** February 29 of a year that is not a Gregorian leap year (2019, 2100)
      leaves no timestamp. */
  lemma NonLeapFebruary29(date: string, time: string)
    requires |date| >= 8 && |time| >= 6
    requires date[4..8] == "0229" && AllDigits(date[0..4]) && !IsLeap(DecimalValue(date[0..4]))
    ensures TimestampOf(date, time).None?
  {
    TimestampOfSucceedsIff(date, time);
    if AllDigits(date[..8]) {
      assert date[4..6] == date[4..8][0..2] && date[6..8] == date[4..8][2..4];
      DecimalValue2(date[4..6]);
      DecimalValue2(date[6..8]);
    }
  }

  /** February 29 of a leap year (2020, 2000) is accepted at every valid
      time of day. */
  lemma LeapFebruary29(date: string, time: string)
    requires |date| >= 8 && |time| >= 6
    requires date[4..8] == "0229" && AllDigits(date[0..4]) && IsLeap(DecimalValue(date[0..4]))
    requires AllDigits(time[..6])
    requires DecimalValue(time[0..2]) <= 23 && DecimalValue(time[2..4]) <= 59 && DecimalValue(time[4..6]) <= 59
    ensures TimestampOf(date, time) ==
              Some(Instant(DecimalValue(date[0..4]), 2, 29, DecimalValue(time[0..2]),
                           DecimalValue(time[2..4]), DecimalValue(time[4..6]), 0, 0))
  {
    assert date[..8] == date[0..4] + date[4..8];
    assert date[4..6] == date[4..8][0..2] && date[6..8] == date[4..8][2..4];
    assert time[0..2] == time[..6][0..2] && time[2..4] == time[..6][2..4] && time[4..6] == time[..6][4..6];
    DecimalValue2(date[4..6]);
    DecimalValue2(date[6..8]);
    TimestampOfSucceedsIff(date, time);
    TimestampFields(date, time);
  }

  /** Hour 24, minute 60 and second 60 leave no timestamp; a leap second is
      rejected though RFC 3339 admits it. */
  lemma TimeOfDayOutOfRange(date: string, time: string)
    requires |date| >= 8 && |time| >= 6
    requires time[0..2] == "24" || time[2..4] == "60" || time[4..6] == "60"
    ensures TimestampOf(date, time).None?
  {
    TimestampOfSucceedsIff(date, time);
    if AllDigits(time[..6]) {
      assert time[0..2] == time[..6][0..2] && time[2..4] == time[..6][2..4] && time[4..6] == time[..6][4..6];
      DecimalValue2(time[0..2]);
      DecimalValue2(time[2..4]);
      DecimalValue2(time[4..6]);
    }
  }

  /** A non-digit anywhere in the fourteen leading characters leaves no
      timestamp, whatever the other characters are. */
  lemma NonDigitRejected(date: string, time: string)
    requires |date| >= 8 && |time| >= 6
    requires !AllDigits(date[..8]) || !AllDigits(time[..6])
    ensures TimestampOf(date, time).None?
  {
    TimestampOfSucceedsIff(date, time);
  }

  // ---------------------------------------------------------------------
  // Classifying the reply
  // ---------------------------------------------------------------------

  /** The one status code read as success (the source marks this policy as
      unconfirmed). */
  const SuccessCode := "1"

  /** The points where the exchange with the service can fail before a
      reply is classified: json.Marshal, http.NewRequest, HTTPClient.Do,
      ioutil.ReadAll and json.Unmarshal. */
  datatype Stage = MarshalRequest | NewHttpRequest | SendRequest | ReadBody | UnmarshalReply

  /** What the HTTP exchange and the JSON decoding deliver. */
  datatype Exchange = Received(res: ResponseData) | Failed(stage: Stage)

  /** The errors TrackActivity returns, with the fields its messages carry. */
  datatype TrackError =
    | ExchangeError(stage: Stage)
    | CarrierFault(faultcode: string, severity: string, description: string)
    | CarrierStatus(code: string, description: string)

  predicate IsSuccess(res: ResponseData) {
    res.fault.faultcode == "" && res.trackResponse.responseStatus.code == SuccessCode
  }

  /** On the success path parseDatetime runs, so there the activities must
      not make its slice expressions panic. */
  predicate Processable(res: ResponseData) {
    IsSuccess(res) ==> AllSliceable(res.trackResponse.shipment.package.activities)
  }

  function WithActivities(t: TrackResponse, activities: seq<Activity>): TrackResponse {
    t.(shipment := t.shipment.(package := t.shipment.package.(activities := activities)))
  }

  function ActivitiesOf(t: TrackResponse): seq<Activity> {
    t.shipment.package.activities
  }

  /** The fault, status and success decision of TrackActivity, in order. */
  function Classify(res: ResponseData): (r: Result<TrackResponse, TrackError>)
    requires Processable(res)
    ensures r.Ok? <==> IsSuccess(res)
    ensures res.fault.faultcode != "" ==>
              r == Err(CarrierFault(res.fault.faultcode, res.fault.errorDetail.severity,
                                    res.fault.errorDetail.primaryErrorCode.description))
    ensures res.fault.faultcode == "" && res.trackResponse.responseStatus.code != SuccessCode ==>
              r == Err(CarrierStatus(res.trackResponse.responseStatus.code,
                                     res.trackResponse.responseStatus.description))
    ensures r.Ok? ==> r.value == WithActivities(res.trackResponse, NormaliseAll(ActivitiesOf(res.trackResponse)))
  {
    if res.fault.faultcode != "" then
      Err(CarrierFault(res.fault.faultcode, res.fault.errorDetail.severity,
                       res.fault.errorDetail.primaryErrorCode.description))
    else if res.trackResponse.responseStatus.code != SuccessCode then
      Err(CarrierStatus(res.trackResponse.responseStatus.code,
                        res.trackResponse.responseStatus.description))
    else
      Ok(WithActivities(res.trackResponse, NormaliseAll(ActivitiesOf(res.trackResponse))))
  }

  /** Two responses that agree except in their activities' timestamps. */
  predicate SameButTimestamps(before: TrackResponse, after: TrackResponse) {
    after == WithActivities(before, ActivitiesOf(after)) &&
    |ActivitiesOf(after)| == |ActivitiesOf(before)| &&
    forall k :: 0 <= k < |ActivitiesOf(before)| ==>
      ActivitiesOf(after)[k] == ActivitiesOf(before)[k].(parsedTimestamp := ActivitiesOf(after)[k].parsedTimestamp)
  }

  /** On success the decoded response comes back with the same number of
      activities and nothing changed but their timestamps. */
  lemma SuccessChangesOnlyTimestamps(res: ResponseData)
    requires Processable(res) && IsSuccess(res)
    ensures Classify(res).Ok? && SameButTimestamps(res.trackResponse, Classify(res).value)
  {
    NormaliseAllOnlyTimestamps(ActivitiesOf(res.trackResponse));
  }

  /** A fault outranks the status: with a fault code, the status code makes
      no difference to the outcome. */
  lemma FaultOutranksStatus(res: ResponseData, status: CodeDescr)
    requires res.fault.faultcode != ""
    ensures Classify(res.(trackResponse := res.trackResponse.(responseStatus := status))) == Classify(res)
  {
  }

  /** Classifying an already normalised successful reply again gives the
      same response. */
  lemma ClassifyIdempotent(res: ResponseData)
    requires Processable(res) && IsSuccess(res)
    ensures Processable(res.(trackResponse := Classify(res).value))
    ensures Classify(res.(trackResponse := Classify(res).value)) == Classify(res)
  {
    NormaliseAllIdempotent(ActivitiesOf(res.trackResponse));
  }

  // ---------------------------------------------------------------------
  // TrackActivity
  // ---------------------------------------------------------------------

  /** TrackActivity as a function of what the exchange delivers for the
      request built from the client and the tracking number. */
  function Track(c: Client, trackingNumber: string, roundTrip: RequestData -> Exchange): (r: Result<TrackResponse, TrackError>)
    requires roundTrip(BuildRequest(c, trackingNumber)).Received? ==>
               Processable(roundTrip(BuildRequest(c, trackingNumber)).res)
  {
    match roundTrip(BuildRequest(c, trackingNumber))
    case Failed(stage) => Err(ExchangeError(stage))
    case Received(res) => Classify(res)
  }

  /** Exactly one request is sent, the one BuildRequest makes: a failed
      exchange is an error naming its stage, a reply that arrives is
      classified as Classify says, and success means a reply without fault
      code whose status code is "1". */
  lemma TrackOutcome(c: Client, trackingNumber: string, roundTrip: RequestData -> Exchange)
    requires roundTrip(BuildRequest(c, trackingNumber)).Received? ==>
               Processable(roundTrip(BuildRequest(c, trackingNumber)).res)
    ensures var reply := roundTrip(BuildRequest(c, trackingNumber));
            && (reply.Failed? ==> Track(c, trackingNumber, roundTrip) == Err(ExchangeError(reply.stage)))
            && (reply.Received? ==> Track(c, trackingNumber, roundTrip) == Classify(reply.res))
            && (Track(c, trackingNumber, roundTrip).Ok? <==> reply.Received? && IsSuccess(reply.res))
            && (Track(c, trackingNumber, roundTrip).Ok? ==>
                  SameButTimestamps(reply.res.trackResponse, Track(c, trackingNumber, roundTrip).value))
  {
    var reply := roundTrip(BuildRequest(c, trackingNumber));
    if reply.Received? && IsSuccess(reply.res) {
      SuccessChangesOnlyTimestamps(reply.res);
    }
  }

  /** TrackActivity with the HTTP exchange and the JSON codecs abstracted
      into `roundTrip`: the same checks in the same order, then the
      activities are normalised in place by ParseDatetime. */
  method TrackActivity(c: Client, trackingNumber: string, roundTrip: RequestData -> Exchange)
    returns (r: Result<TrackResponse, TrackError>)
    requires roundTrip(BuildRequest(c, trackingNumber)).Received? ==>
               Processable(roundTrip(BuildRequest(c, trackingNumber)).res)
    ensures r == Track(c, trackingNumber, roundTrip)
  {
    var reqData := BuildRequest(c, trackingNumber);
    var reply := roundTrip(reqData);
    if reply.Failed? {
      return Err(ExchangeError(reply.stage));
    }
    var res := reply.res;
    if res.fault.faultcode != "" {
      return Err(CarrierFault(res.fault.faultcode, res.fault.errorDetail.severity,
                              res.fault.errorDetail.primaryErrorCode.description));
    }
    if res.trackResponse.responseStatus.code != SuccessCode {
      return Err(CarrierStatus(res.trackResponse.responseStatus.code,
                               res.trackResponse.responseStatus.description));
    }
    var decoded := ActivitiesOf(res.trackResponse);
    var activities := new Activity[|decoded|](i requires 0 <= i < |decoded| => decoded[i]);
    assert activities[..] == decoded;
    ParseDatetime(activities);
    r := Ok(WithActivities(res.trackResponse, activities[..]));
  }
}
