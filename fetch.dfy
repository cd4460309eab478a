/**
 * `fetch_and_store_data(symbol, month)` of main.py: the request parameters
 * it sends, and what it does with the response. The HTTP request itself
 * and the database are outside the model; the response is an input value.
 */
module Fetch {
  import opened Wrappers
  import opened Schedule

  /** A decoded JSON value: an object (its keys and values), or any other value. */
  datatype Json = Object(fields: map<string, Json>) | Other

  /**
   * An HTTP response: its status code and its body as `response.json()`
   * decodes it, None when the body is not valid JSON.
   */
  datatype Response = Response(status: int, body: Option<Json>)

  /** The exceptions that can escape `fetch_and_store_data`. */
  datatype PyError =
    | JsonDecodeError   // line 41: the body is not JSON
    | BodyNotObject     // line 43: `data.get` on a JSON value that is not an object
    | SeriesNotObject   // line 44: `.items()` on a series that is not an object
    | EntryNotStorable  // lines 45-46: item assignment on a non-object entry, or `str.to_pydatetime`

  /** How one call ends. No outcome stores a record: see `NonEmptySeriesRaises`. */
  datatype Outcome =
    | ErrorLogged(message: string)  // a non-200 status: the error line is printed
    | NothingStored                 // 200 with no entries: the call returns normally
    | Raised(error: PyError)        // an exception escapes, and the run ends

  const SeriesKey: string := "Time Series (60min)"

  /** The query parameters of the request (lines 30-37). */
  function RequestParams(symbol: string, month: string, apiKey: string): (p: map<string, string>)
    ensures p.Keys == {"function", "symbol", "interval", "month", "outputsize", "apikey"}
  {
    map[
      "function" := "TIME_SERIES_INTRADAY",
      "symbol" := symbol,
      "interval" := "60min",
      "month" := month,
      "outputsize" := "full",
      "apikey" := apiKey
    ]
  }

  const ErrorPrefix: string := "Error fetching data for "
  const ErrorInfix: string := " for the month "

  /** The line printed for a non-200 status (line 49): it names the symbol, then the month. */
  function ErrorMessage(symbol: string, month: string): (m: string)
    ensures |m| == |ErrorPrefix| + |symbol| + |ErrorInfix| + |month|
    ensures m[..|ErrorPrefix|] == ErrorPrefix
    ensures m[|ErrorPrefix|..|ErrorPrefix| + |symbol|] == symbol
    ensures m[|m| - |month|..] == month
  {
    ErrorPrefix + symbol + ErrorInfix + month
  }

  /** `data.get("Time Series (60min)", {})`: a missing key reads as an empty object. */
  function SeriesOf(data: map<string, Json>): (s: Json)
    ensures SeriesKey in data ==> s == data[SeriesKey]
    ensures SeriesKey !in data ==> s == Object(map[])
  {
    if SeriesKey in data then data[SeriesKey] else Object(map[])
  }

  /**
   * The branch of lines 40-49. A non-200 status only logs. A 200 body is
   * decoded and its series looked up; an empty series stores nothing. The
   * first entry of a non-empty series raises before `insert_one`: the key
   * `date` is a JSON string, and `str` has no `to_pydatetime` (line 46);
   * an entry that is not an object already fails at line 45.
   */
  function FetchAndStore(symbol: string, month: string, resp: Response): (r: Outcome)
    ensures r.ErrorLogged? <==> resp.status != 200
    ensures r.ErrorLogged? ==> r.message == ErrorMessage(symbol, month)
    ensures r.NothingStored? <==>
            resp.status == 200 && resp.body.Some? && resp.body.value.Object?
            && SeriesOf(resp.body.value.fields) == Object(map[])
  {
    if resp.status != 200 then ErrorLogged(ErrorMessage(symbol, month))
    else match resp.body
      case None => Raised(JsonDecodeError)
      case Some(data) =>
        if !data.Object? then Raised(BodyNotObject)
        else match SeriesOf(data.fields)
          case Other => Raised(SeriesNotObject)
          case Object(entries) =>
            if entries == map[] then NothingStored else Raised(EntryNotStorable)
  }

  // ---------------------------------------------------------------------
  // Lemmas

  /** Apart from the symbol, the month and the key, the parameters are fixed. */
  lemma RequestParamsFixed(symbol: string, month: string, apiKey: string)
    ensures var p := RequestParams(symbol, month, apiKey);
            && p["function"] == "TIME_SERIES_INTRADAY"
            && p["interval"] == "60min"
            && p["outputsize"] == "full"
            && p["symbol"] == symbol && p["month"] == month && p["apikey"] == apiKey
  {
  }

  /** Two calls send the same parameters exactly when they have the same symbol and month. */
  lemma RequestParamsInjective(s1: string, m1: string, s2: string, m2: string, apiKey: string)
    ensures RequestParams(s1, m1, apiKey) == RequestParams(s2, m2, apiKey) <==> s1 == s2 && m1 == m2
  {
    if RequestParams(s1, m1, apiKey) == RequestParams(s2, m2, apiKey) {
      assert RequestParams(s1, m1, apiKey)["symbol"] == s1;
      assert RequestParams(s2, m2, apiKey)["symbol"] == s2;
      assert RequestParams(s1, m1, apiKey)["month"] == m1;
      assert RequestParams(s2, m2, apiKey)["month"] == m2;
    }
  }

  /** A non-200 status only logs, whatever the body. */
  lemma ErrorStatusOnlyLogs(symbol: string, month: string, resp: Response)
    requires resp.status != 200
    ensures FetchAndStore(symbol, month, resp) == ErrorLogged(ErrorMessage(symbol, month))
  {
  }

  /**
   * A 200 body without the series key, such as the `"Information"`
   * diagnostic the provider sends when the quota is used up, is treated as
   * an empty series: nothing is stored and nothing is logged.
   */
  lemma MissingSeriesStoresNothing(symbol: string, month: string, data: map<string, Json>)
    requires SeriesKey !in data
    ensures FetchAndStore(symbol, month, Response(200, Some(Object(data)))) == NothingStored
  {
  }

  lemma InformationDiagnosticStoresNothing(symbol: string, month: string, note: Json)
    ensures FetchAndStore(symbol, month, Response(200, Some(Object(map["Information" := note]))))
            == NothingStored
  {
    MissingSeriesStoresNothing(symbol, month, map["Information" := note]);
  }

  /**
   * As written, a 200 response whose series has any entry raises at its
   * first entry, before anything is inserted: no record is ever stored.
   */
  lemma NonEmptySeriesRaises(symbol: string, month: string, data: map<string, Json>, date: string)
    requires SeriesKey in data && data[SeriesKey].Object? && date in data[SeriesKey].fields
    ensures FetchAndStore(symbol, month, Response(200, Some(Object(data)))) == Raised(EntryNotStorable)
  {
  }

  // ---------------------------------------------------------------------
  // The evidently intended storing of the entries

  /** A stored document: the entry's fields, tagged with the symbol and the entry's timestamp. */
  datatype Document = Document(fields: map<string, Json>, symbol: string, date: string)

  datatype StoreResult =
    | Logged(message: string)
    | Stored(docs: map<string, Document>)  // one inserted document per timestamp
    | Failed(error: PyError)

  /**
   * Lines 40-49 as they are evidently meant to work: every entry of the
   * series is inserted as one document, tagged with the symbol and with its
   * own timestamp (kept as the provider's text; see README).
   */
  function IntendedFetchAndStore(symbol: string, month: string, resp: Response): (r: StoreResult)
    ensures r.Logged? <==> resp.status != 200
    ensures r.Stored? ==> resp.status == 200 && resp.body.Some? && resp.body.value.Object?
  {
    if resp.status != 200 then Logged(ErrorMessage(symbol, month))
    else match resp.body
      case None => Failed(JsonDecodeError)
      case Some(data) =>
        if !data.Object? then Failed(BodyNotObject)
        else match SeriesOf(data.fields)
          case Other => Failed(SeriesNotObject)
          case Object(entries) =>
            if exists date :: date in entries && !entries[date].Object? then Failed(EntryNotStorable)
            else Stored(map date | date in entries :: Document(entries[date].fields, symbol, date))
  }

  /**
   * The intended behaviour: for a 200 response whose entries are objects,
   * exactly one document per entry is stored, carrying the entry's fields,
   * the symbol and the entry's timestamp; without the series key nothing is
   * stored.
   */
  lemma IntendedStoresEveryEntry(symbol: string, month: string, data: map<string, Json>)
    requires SeriesOf(data).Object?
    requires forall date :: date in SeriesOf(data).fields ==> SeriesOf(data).fields[date].Object?
    ensures var r := IntendedFetchAndStore(symbol, month, Response(200, Some(Object(data))));
            && r.Stored?
            && r.docs.Keys == SeriesOf(data).fields.Keys
            && (forall date :: date in r.docs ==>
                  r.docs[date] == Document(SeriesOf(data).fields[date].fields, symbol, date))
            && (SeriesKey !in data ==> r.docs == map[])
  {
  }

  /**
   * The intended branch departs from the code as written only where a 200
   * response has a non-empty series: every other response logs the same
   * line, stores nothing, or fails with the same exception.
   */
  lemma IntendedAgreesElsewhere(symbol: string, month: string, resp: Response)
    ensures var w := FetchAndStore(symbol, month, resp);
            var i := IntendedFetchAndStore(symbol, month, resp);
            && (w.ErrorLogged? <==> i.Logged?)
            && (w.ErrorLogged? ==> i.message == w.message)
            && (w.NothingStored? ==> i == Stored(map[]))
            && (w.Raised? && w.error != EntryNotStorable ==> i == Failed(w.error))
            && (w.Raised? && w.error == EntryNotStorable ==> i.Stored? || i == Failed(EntryNotStorable))
  {
  }

  // ---------------------------------------------------------------------
  // A run: the schedule's calls until one raises

  /**
   * How many calls of `calls` the program makes when the `k`-th call gets
   * `responses[k]`: all of them, or up to and including the first whose
   * call raises, since nothing in main.py catches the exception.
   */
  function Attempted(calls: seq<FetchCall>, responses: seq<Response>): (n: nat)
    requires |responses| == |calls|
    ensures n <= |calls|
    ensures forall k :: 0 <= k < n - 1 ==> !FetchAndStore(calls[k].symbol, calls[k].month, responses[k]).Raised?
    ensures n < |calls| ==> n > 0 && FetchAndStore(calls[n - 1].symbol, calls[n - 1].month, responses[n - 1]).Raised?
  {
    if calls == [] then 0
    else if FetchAndStore(calls[0].symbol, calls[0].month, responses[0]).Raised? then 1
    else 1 + Attempted(calls[1..], responses[1..])
  }

  /** If no response raises, every scheduled call is made. */
  lemma {:induction false} AttemptedAllWhenNothingRaises(calls: seq<FetchCall>, responses: seq<Response>)
    requires |responses| == |calls|
    requires forall k :: 0 <= k < |calls| ==> !FetchAndStore(calls[k].symbol, calls[k].month, responses[k]).Raised?
    ensures Attempted(calls, responses) == |calls|
  {
    if calls != [] {
      assert !FetchAndStore(calls[0].symbol, calls[0].month, responses[0]).Raised?;
      forall k | 0 <= k < |calls| - 1
        ensures !FetchAndStore(calls[1..][k].symbol, calls[1..][k].month, responses[1..][k]).Raised?
      {
        assert calls[1..][k] == calls[k + 1] && responses[1..][k] == responses[k + 1];
      }
      AttemptedAllWhenNothingRaises(calls[1..], responses[1..]);
    }
  }

  /** A 200 response with data ends the run at that call. */
  lemma RunEndsAtFirstData(calls: seq<FetchCall>, responses: seq<Response>, k: int)
    requires |responses| == |calls| && 0 <= k < |calls|
    requires var r := responses[k];
             r.status == 200 && r.body.Some? && r.body.value.Object?
             && SeriesKey in r.body.value.fields && r.body.value.fields[SeriesKey].Object?
             && r.body.value.fields[SeriesKey].fields != map[]
    ensures Attempted(calls, responses) <= k + 1
  {
    var n := Attempted(calls, responses);
    var entries := responses[k].body.value.fields[SeriesKey].fields;
    var date :| date in entries;
    NonEmptySeriesRaises(calls[k].symbol, calls[k].month, responses[k].body.value.fields, date);
  }
}
