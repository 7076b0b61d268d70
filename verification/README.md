# go-ups-tracking in Dafny

This project models the core of the UPS package-tracking client `tracking.go`:

- **Building the tracking request.** `NewUPSTrackingClient` stores the username, password and access key. `TrackActivity` copies them into a `RequestData` payload. It adds the fixed action `"Track"` and option `"activity"`, and sets the tracking number as the inquiry number.
- **Classifying the decoded reply.** The reply is checked in a fixed order:
  - a non-empty fault code is a carrier fault, which carries the code, the severity and the primary error's description;
  - otherwise, a status code other than `"1"` is a status error, which carries the code and the description;
  - otherwise the call succeeds.
- **Normalising timestamps.** On success, `parseDatetime` visits every activity. It assembles `YYYY-MM-DDTHH:MM:SSZ` from the first eight characters of `Date` and the first six of `Time`. It parses that text the way Go's `time.Parse` with the RFC 3339 layout does (section 5.6 of RFC 3339). When the parse succeeds, it writes `ParsedTimestamp` in place.

The model is in two modules:

- `Rfc3339` (`rfc3339.dfy`) covers the part of Go's `time` package that the client relies on:
  - `Instant`, which stands for a `time.Time`;
  - the Gregorian calendar check;
  - `Parse`, which is `time.Parse` applied to text of the twenty-character shape above.

  Current releases of Go accept such text exactly when:
  - all fourteen digit positions hold digits;
  - the month is 01–12;
  - the day is 1 to the month's length, with Gregorian leap years;
  - the hour is 00–23;
  - the minute and the second are 00–59. Go rejects second 60, although RFC 3339 allows a leap second.

  `Format`, the RFC 3339 rendering, is the inverse against which `Parse` is proved.
- `Tracking` (`tracking.dfy`) covers `tracking.go`:
  - the wire records, as datatypes;
  - the request builder;
  - `parseDatetime`, as an in-place method over an `array<Activity>` specified by the function `NormaliseAll`;
  - the fault, status and success decision, as the function `Classify`;
  - `TrackActivity`, as a method that follows the Go control flow.

  The HTTP exchange and the JSON codecs are a parameter `roundTrip`. It maps the request to either the decoded `ResponseData` or the stage at which the exchange failed.

A malformed date or time leaves the entry untouched (`tracking.go:137-139`), so `ParsedTimestamp` keeps whatever value it already had. After a fresh decode that is Go's zero time, `Rfc3339.ZeroInstant` here.

## Model

| member | source | states |
|---|---|---|
| `Tracking.NewClient` | tracking.go:118-129 | The client holds the username, password and access key exactly as given. |
| `Tracking.BuildRequest` | tracking.go:144-150 | The payload is an activity query (action "Track", option "activity"). It carries the client's credentials, with the access key as AccessLicenseNumber, and the tracking number unchanged as InquiryNumber. |
| `Tracking.ActivityQueryIsBuilt` | tracking.go:144-150 | Every request with action "Track" and option "activity" is the payload built from the credentials and inquiry number it carries. With BuildRequest's contract, BuildRequest is therefore a one-to-one map from (client, tracking number) onto activity queries. |
| `Tracking.NewClientRequest` | tracking.go:118-150 | Credentials given to NewUPSTrackingClient reach the payload unchanged, next to the fixed action and option and the tracking number. |
| `Tracking.AssembleRfc3339` | tracking.go:133-136 | The assembled text has the YYYY-MM-DDTHH:MM:SSZ shape. Its fields are exactly Date[0:4], Date[4:6], Date[6:8], Time[0:2], Time[2:4] and Time[4:6]. |
| `Tracking.Normalise` | tracking.go:137-139 | One loop iteration changes nothing but ParsedTimestamp. When the parse fails, the activity is left as it was. When the parse succeeds, ParsedTimestamp is the parsed instant. |
| `Tracking.NormaliseAll` | tracking.go:131-141 | parseDatetime keeps the number of activities, and every activity keeps the Date and Time lengths its slicing needs. |
| `Tracking.ParseDatetime` | tracking.go:131-141 | After the in-place loop, the array holds exactly NormaliseAll of its previous contents. |
| `Tracking.ParseDatetimeAt` | tracking.go:133-139 | One iteration normalises entry idx in place and leaves every other entry unchanged. |
| `Tracking.NormaliseAllAt` | tracking.go:131-141 | Entry k afterwards is entry k normalised on its own. |
| `Tracking.MalformedEntryIsolated` | tracking.go:137-139 | An entry whose date and time do not parse keeps its previous value, and every other entry is still processed. |
| `Tracking.MalformedKeepsZeroTime` | tracking.go:137-139 | A freshly decoded activity, whose ParsedTimestamp is Go's zero time, still has the zero time after parseDatetime when its date and time do not parse. |
| `Tracking.NormaliseAllOnlyTimestamps` | tracking.go:131-141 | The length is preserved. In every entry, location, status, Date and Time are unchanged; only ParsedTimestamp may differ. |
| `Tracking.NormaliseAllIdempotent` | tracking.go:132-139 | Running parseDatetime twice gives the same activities as running it once. |
| `Tracking.TimestampFields` | tracking.go:133-137 | A produced timestamp has year, month and day equal to the decimal values of Date[0:4], [4:6] and [6:8]. Its hour, minute and second equal those of Time[0:2], [2:4] and [4:6]. It has no fraction, and its zone is UTC. |
| `Tracking.TimestampOfSucceedsIff` | tracking.go:133-137 | A timestamp is produced exactly when the first eight Date characters and the first six Time characters are digits and the fields they spell form a valid Gregorian date and time. |
| `Tracking.TimestampOfPrefixOnly` | tracking.go:134-135 | Only the first eight characters of Date and the first six of Time affect the outcome. |
| `Tracking.TimestampOfInjective` | tracking.go:133-137 | Two date/time pairs give the same timestamp only when their first eight date characters and first six time characters agree. |
| `Tracking.TimestampOfComplete` | tracking.go:133-137 | Every valid second-precision UTC instant of years 0–9999, spelt out as YYYYMMDD and HHMMSS, is reconstructed exactly. |
| `Tracking.ParsetimeExample` | tracking_test.go:106-120 | Date "20180203" with Time "131300" yields exactly 2018-02-03T13:13:00Z. |
| `Tracking.MonthOrDayOutOfRange` | tracking.go:137-139 | Month 00, month 13 and April 31 produce no timestamp. |
| `Tracking.NonLeapFebruary29` | tracking.go:137-139 | February 29 of a year that is not a Gregorian leap year produces no timestamp. |
| `Tracking.LeapFebruary29` | tracking.go:137-138 | February 29 of a leap year is accepted at every valid time of day (hour 00–23, minute and second 00–59), giving that year, month 2, day 29 and that time in UTC. |
| `Tracking.TimeOfDayOutOfRange` | tracking.go:137-139 | Hour 24, minute 60 and second 60 produce no timestamp. |
| `Tracking.NonDigitRejected` | tracking.go:137-139 | A non-digit among the first eight Date or six Time characters produces no timestamp. |
| `Tracking.Classify` | tracking.go:177-195 | The decision order is fixed. A non-empty Faultcode gives the fault error (code, severity, primary-error description). Otherwise a status Code other than "1" gives the status error (code, description). Success happens exactly when Faultcode is empty and Code is "1", and the decoded response comes back with its activities normalised. |
| `Tracking.SuccessChangesOnlyTimestamps` | tracking.go:193-195 | On success the response has the same number of activities and differs from the decoded one only in their ParsedTimestamp fields. |
| `Tracking.FaultOutranksStatus` | tracking.go:177-191 | With a fault code, the status code makes no difference to the outcome. |
| `Tracking.ClassifyIdempotent` | tracking.go:186-195 | Classifying an already normalised successful reply again returns the same response. |
| `Tracking.TrackOutcome` | tracking.go:143-195 | Exactly one request, BuildRequest's, is sent. A failed exchange gives an error naming its stage. A reply that arrives gives exactly Classify's outcome, fault and status errors included. TrackActivity succeeds exactly when the reply has no fault code and status "1", and then it changes only activity timestamps. |
| `Tracking.TrackActivity` | tracking.go:143-196 | The imperative TrackActivity, which normalises the activities in place in an array, returns exactly what the function Track specifies. |
| `Rfc3339.DaysIn` | tracking.go:137 | A month has 28 to 31 days, and 29 exactly for February of a Gregorian leap year. |
| `Rfc3339.Parse` | tracking.go:137 | Whatever the parse produces is a valid calendar instant of years 0–9999 with no fraction, in UTC. |
| `Rfc3339.FormatThenParse` | tracking.go:137 | The parse accepts the RFC 3339 rendering of every instant it can denote and returns that instant. |
| `Rfc3339.ParseThenFormat` | tracking.go:137 | Whatever the parse accepts is exactly the rendering of the instant it returns. |

## Left out

- HTTP transport (`http.NewRequest`, `HTTPClient.Do`, `ioutil.ReadAll`, `resp.Body.Close`, tracking.go:157-171) is network I/O. It is folded into the `roundTrip` parameter. A failure there is the error `ExchangeError(stage)`; Go's underlying error value is not modelled.
- `json.Marshal` and `json.Unmarshal` (tracking.go:152, 173) are library codecs. They are part of `roundTrip` too: the model takes the decoded `ResponseData` as given.
- The message text of the two `fmt.Errorf` calls (tracking.go:178-190) is not modelled. The errors are `TrackError` values carrying the same fields.
- `NewUPSTrackingClient` defaults a nil `*http.Client` and fixes the endpoint URL (tracking.go:119-127). Both belong to the transport and are not part of `Client`.
- `cmd/cli.go` is argument parsing, environment reads and printing. It is not part of this model.
- `TestRequests` (tracking_test.go:12-104) depends on fixture files and a test server that are not part of this model. Its "N activities in, N out" assertion is covered by `SuccessChangesOnlyTimestamps`.
- Go slices strings by bytes; the model slices `seq<char>`. The outcomes agree whenever both are defined, because a byte of a non-ASCII character is never a digit. The length precondition, however, counts characters rather than bytes.
- Go panics when `Date` is shorter than 8 bytes or `Time` is shorter than 6. The model makes that a precondition: of `Normalise` and `ParseDatetime`, and, on the success path only, of `Classify`, `Track` and `TrackActivity`. A panic partway through the loop, after earlier entries have been written, is not modelled.
- Rfc3339.Parse: models `time.Parse` only on text of the twenty-character `YYYY-MM-DDTHH:MM:SSZ` shape. That is the only shape the client ever passes to it, so fractional seconds and numeric zone offsets are not parsed.
- `Instant` stands for `time.Time`, with the zone represented as an offset in seconds. The monotonic clock reading and the `*Location` pointer are not modelled.
- Go rewrites the decoded slice in place and returns a pointer to the decoded `TrackResponse`. `TrackActivity` instead copies the activities into a fresh array, normalises them there, and returns the rebuilt response as a value. No other reference to that slice exists, so the outcome is the same.
- Go's one-field wrapper structs are flattened into the enclosing record: `ActivityLocation.Address`, `Response.ResponseStatus`, `Detail.Errors.ErrorDetail`, `UnitOfMeasurement.Code`, `UPSServiceAccessToken.AccessLicenseNumber`, and `PackageServiceOption[i].Type`. Go's field `Type` is named `kind`, because `type` is a Dafny keyword.
