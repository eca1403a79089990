/** `run_oneshot_year` (month_cheapest.py): the month-by-month scan of one
    route. Each month issues one flight_dates query over the month's range;
    when it yields a date, one offer search (with `call_offers`' retries) for
    that date, and the cheapest offer becomes one row appended to the
    route's monthly file. The configuration read from the environment is
    given as `Settings`, `date.today()` as `today`, and the per-month
    answers of the two external calls and `datetime.now` as a `MonthFeed`
    per month. `time.sleep` is recorded in each month's log. */
module MonthlyScan {
  import opened Wrappers
  import opened Text
  import opened AirlineCodes
  import opened Calendar
  import opened Retry
  import opened Offers
  import opened DateScan
  import opened RecordStore

  /** `call_offers` is called with its default bound of three attempts. */
  const OfferRetries: int := 3

  /** The `max` parameter of the offer search. */
  const MaxOffers: int := 250

  /** The environment values the scan reads (`ORIGIN`, `DEST`, `CURRENCY`,
      `LCC_CODES`, `START_DATE`, `MONTHS_AHEAD`, `PER_CALL_SLEEP`), after
      their defaults are applied and the last two are converted to numbers. */
  datatype Settings = Settings(
    origin: string, dest: string, currency: string, lccCodes: string,
    startDate: string, monthsAhead: int, perCallSleep: real)

  /** The values used when none of the variables is set. */
  const DefaultSettings: Settings := Settings("ICN", "NRT", "KRW", "", "", 12, 0.2)

  /** What the scan works with once the settings are read: the upper-cased
      route and currency, the parsed allow-list, the first day of the start
      month and the pause after each month. */
  datatype Scan = Scan(
    origin: string, dest: string, currency: string, airlines: seq<string>,
    firstMonth: Date, sleep: real)

  predicate ScanOk(scan: Scan)
  {
    ValidDate(scan.firstMonth) && scan.firstMonth.day == 1
    && forall i :: 0 <= i < |scan.airlines| ==> IsCode(scan.airlines[i])
  }

  /** The set-up of `run_oneshot_year`; `None` when `START_DATE` is set but
      `date.fromisoformat` rejects it, where the scan raises before its
      first call. */
  function Prepare(s: Settings, today: Date): (r: Option<Scan>)
    requires ValidDate(today)
    ensures r.None? <==> s.startDate != [] && ParseIsoDate(s.startDate).None?
    ensures r.Some? ==> ScanOk(r.value)
    ensures r.Some? ==> NoLower(r.value.origin) && NoLower(r.value.dest) && NoLower(r.value.currency)
    ensures r.Some? && s.startDate == [] ==>
      r.value.firstMonth.year == today.year && r.value.firstMonth.month == today.month
    ensures r.Some? && s.startDate != [] ==>
      r.value.firstMonth.year == ParseIsoDate(s.startDate).value.year
      && r.value.firstMonth.month == ParseIsoDate(s.startDate).value.month
  {
    if s.startDate != [] && ParseIsoDate(s.startDate).None? then None
    else
      var start := if s.startDate == [] then today else ParseIsoDate(s.startDate).value;
      assert ValidDate(start) by { if s.startDate != [] { IsoParsed(s.startDate); } }
      UpperKeeps(s.origin);
      UpperKeeps(s.dest);
      UpperKeeps(s.currency);
      Some(Scan(Upper(s.origin), Upper(s.dest), Upper(s.currency), ParseCodes(Some(s.lccCodes)),
                FirstDayOfMonth(start), s.perCallSleep))
  }

  /** With no variable set, the scan goes from ICN to NRT in KRW over any
      airline, from the first day of the current month, pausing 0.2 s. */
  lemma DefaultScan(today: Date)
    requires ValidDate(today)
    ensures Prepare(DefaultSettings, today) == Some(Scan("ICN", "NRT", "KRW", [], FirstDayOfMonth(today), 0.2))
  {
    UpperIdentity("ICN");
    UpperIdentity("NRT");
    UpperIdentity("KRW");
  }

  /** The number of months `range(months)` walks. */
  function MonthCount(months: int): nat
  {
    if months < 0 then 0 else months
  }

  /** What the outside world answers in one month: the flight_dates
      response, the responses to the successive offer-search attempts, and
      the time `datetime.now` reads when the row is built. */
  datatype MonthFeed = MonthFeed(dates: DatesResponse, offers: seq<Response<Offer>>, clock: string)

  /** A feed answers every attempt `call_offers` may make. */
  predicate FeedOk(feed: MonthFeed)
  {
    |feed.offers| >= OfferRetries
  }

  predicate FeedsOk(feeds: seq<MonthFeed>)
  {
    forall k :: 0 <= k < |feeds| ==> FeedOk(feeds[k])
  }

  /** How one month ends. */
  datatype MonthOutcome =
    | NoDate                                        // no date picked: skipped
    | NoOffers(date: string)                        // the search returned nothing
    | OffersFailed(date: string, status: Option<int>) // `ResponseError`, caught
    | Saved(row: Row)                               // the cheapest offer's row appended
    | Crashed                                       // an uncaught error inside the month

  /** One month of the scan: the flight_dates query sent (absent when the
      month's first day cannot be built), the offer search sent, the number
      of its attempts, the arguments of its `time.sleep` calls (the last of
      them raises when `PauseRaises` holds) and the outcome. */
  datatype MonthLog = MonthLog(
    datesRequest: Option<DatesRequest>, offerRequest: Option<OfferRequest>,
    attempts: nat, sleeps: seq<real>, outcome: MonthOutcome)

  /** The offer search for a picked date; the allow-list is sent only when
      it is not empty. */
  function OfferRequestFor(scan: Scan, date: string): OfferRequest
  {
    OfferRequest(scan.origin, scan.dest, date, 1, scan.currency, MaxOffers,
                 if scan.airlines == [] then None else Some(Join(scan.airlines, ',')))
  }

  /** The allow-list the search carries is read back as the scan's codes,
      and it is left out exactly when there are none. */
  lemma OfferRequestAllowList(scan: Scan, date: string)
    requires ScanOk(scan)
    ensures OfferRequestFor(scan, date).includedAirlineCodes.None? <==> scan.airlines == []
    ensures ParseCodes(OfferRequestFor(scan, date).includedAirlineCodes) == scan.airlines
  {
    if scan.airlines != [] {
      ParseCodesJoin(scan.airlines);
    }
  }

  /** Month `i` of the loop, from `add_months(cur_month, i)` to the row it
      appends. */
  function MonthStep(scan: Scan, i: nat, feed: MonthFeed, parse: string -> Option<real>): (log: MonthLog)
    requires ValidDate(scan.firstMonth)
    requires FeedOk(feed)
    ensures log.outcome.Saved? ==> log.offerRequest.Some? && log.sleeps != []
    ensures log.outcome.Saved? ==> log.outcome.row.origin == scan.origin && log.outcome.row.dest == scan.dest
  {
    var ms := AddMonths(scan.firstMonth, i);
    if ms.None? then MonthLog(None, None, 0, [], Crashed)
    else
      MonthBounds(ms.value);
      var dreq := DatesRequest(scan.origin, scan.dest, DateRange(ms.value, LastDayOfMonth(ms.value)));
      var pick := PickOf(feed.dates, parse);
      if pick.None? then MonthLog(Some(dreq), None, 0, [scan.sleep], NoDate)
      else
        var date := pick.value.date;
        var oreq := OfferRequestFor(scan, date);
        var run := RetryRun(feed.offers, OfferRetries);
        var waits := Backoffs(run.attempts);
        if run.result.Raised? then
          MonthLog(Some(dreq), Some(oreq), run.attempts, waits + [scan.sleep], OffersFailed(date, run.result.status))
        else
          var offers := if run.result.Returned? then run.result.items else [];
          if offers == [] then
            MonthLog(Some(dreq), Some(oreq), run.attempts, waits + [scan.sleep], NoOffers(date))
          else
            var c := offers[CheapestIndex(offers)];
            if !WellFormed(c) then MonthLog(Some(dreq), Some(oreq), run.attempts, waits, Crashed)
            else
              var row := MakeRow(feed.clock, date, scan.origin, scan.dest, LeadingCarrier(c), c);
              MonthLog(Some(dreq), Some(oreq), run.attempts, waits + [scan.sleep], Saved(row))
  }

  /** The append a month makes, if any. */
  function WritesOf(scan: Scan, log: MonthLog): (ws: seq<Write>)
    ensures |ws| <= 1
    ensures ws != [] <==> log.outcome.Saved?
  {
    if log.outcome.Saved? then [Write(MonthlyPath(scan.origin, scan.dest), log.outcome.row)] else []
  }

  /** The logs months `0 .. n-1` would give, each on its own feed. */
  function Steps(scan: Scan, feeds: seq<MonthFeed>, parse: string -> Option<real>, n: nat): (logs: seq<MonthLog>)
    requires ValidDate(scan.firstMonth)
    requires n <= |feeds|
    requires FeedsOk(feeds)
    ensures |logs| == n
  {
    seq(n, k requires 0 <= k < n => MonthStep(scan, k, feeds[k], parse))
  }

  /** The appends of a run of months, in order. */
  function SavedWrites(scan: Scan, logs: seq<MonthLog>): (ws: seq<Write>)
    ensures |ws| <= |logs|
  {
    if logs == [] then []
    else SavedWrites(scan, logs[..|logs| - 1]) + WritesOf(scan, logs[|logs| - 1])
  }

  /** The rows the saved months carry, in month order. */
  function SavedRows(logs: seq<MonthLog>): (rows: seq<Row>)
    ensures |rows| <= |logs|
  {
    if logs == [] then []
    else SavedRows(logs[..|logs| - 1]) + (if logs[|logs| - 1].outcome.Saved? then [logs[|logs| - 1].outcome.row] else [])
  }

  /** Whether `time.sleep` raises on this pause: `ValueError` when it is
      negative, `OverflowError` when the pause rounded up to whole
      nanoseconds does not fit CPython's signed 64-bit time count. */
  predicate PauseRaises(pause: real)
  {
    pause < 0.0 || pause * 1000000000.0 > 9223372036854775807.0
  }

  /** The pauses `time.sleep` accepts run from zero to just under 2^63
      nanoseconds; the default pause is among them and `1e10` seconds is not. */
  lemma PauseLimits()
    ensures PauseRaises(-0.000000001) && !PauseRaises(0.0)
    ensures !PauseRaises(9223372036.854775807) && PauseRaises(9223372036.8547758071)
    ensures !PauseRaises(DefaultSettings.perCallSleep) && PauseRaises(10000000000.0)
  {
  }

  /** Whether the scan stops after this month with an uncaught error: one
      raised inside the month, or the error `time.sleep` raises on the
      pause every month that does not crash ends with. */
  predicate EndsScan(scan: Scan, log: MonthLog)
  {
    log.outcome.Crashed? || PauseRaises(scan.sleep)
  }

  predicate EndsInError(scan: Scan, logs: seq<MonthLog>)
  {
    logs != [] && EndsScan(scan, logs[|logs| - 1])
  }

  predicate NoError(scan: Scan, logs: seq<MonthLog>)
  {
    forall k :: 0 <= k < |logs| ==> !EndsScan(scan, logs[k])
  }

  /** One pass of the loop body of `run_oneshot_year`. */
  method ScanMonth(scan: Scan, i: nat, feed: MonthFeed, parse: string -> Option<real>, store: DataDir)
    returns (log: MonthLog)
    requires ValidDate(scan.firstMonth)
    requires FeedOk(feed)
    modifies store
    ensures log == MonthStep(scan, i, feed, parse)
    ensures store.files == AppendAll(old(store.files), WritesOf(scan, log))
    ensures old(store.Valid()) ==> store.Valid()
  {
    var ms := AddMonths(scan.firstMonth, i);
    if ms.None? {
      log := MonthLog(None, None, 0, [], Crashed);
      return;
    }
    MonthBounds(ms.value);
    var me := LastDayOfMonth(ms.value);
    var dreq, pick := CheapestDayInMonth(scan.origin, scan.dest, ms.value, me, feed.dates, parse);
    if pick.None? {
      log := MonthLog(Some(dreq), None, 0, [scan.sleep], NoDate);
      return;
    }
    var date := pick.value.date;
    var oreq := OfferRequestFor(scan, date);
    var result, attempts, delays := CallOffers(feed.offers, OfferRetries);
    if result.Raised? {
      log := MonthLog(Some(dreq), Some(oreq), attempts, delays + [scan.sleep], OffersFailed(date, result.status));
      return;
    }
    var offers := if result.Returned? then result.items else [];
    if offers == [] {
      log := MonthLog(Some(dreq), Some(oreq), attempts, delays + [scan.sleep], NoOffers(date));
      return;
    }
    var cheapest := offers[CheapestIndex(offers)];
    if !WellFormed(cheapest) {
      log := MonthLog(Some(dreq), Some(oreq), attempts, delays, Crashed);
      return;
    }
    var row := MakeRow(feed.clock, date, scan.origin, scan.dest, LeadingCarrier(cheapest), cheapest);
    store.AppendRow(MonthlyPath(scan.origin, scan.dest), row);
    log := MonthLog(Some(dreq), Some(oreq), attempts, delays + [scan.sleep], Saved(row));
  }

  /** `run_oneshot_year()`: the set-up, then one pass per month until the
      months run out or an uncaught error ends the scan. */
  method RunOneshotYear(settings: Settings, today: Date, feeds: seq<MonthFeed>,
                        parse: string -> Option<real>, store: DataDir)
    returns (scan: Option<Scan>, logs: seq<MonthLog>)
    requires ValidDate(today)
    requires settings.monthsAhead <= |feeds|
    requires FeedsOk(feeds)
    modifies store
    ensures scan == Prepare(settings, today)
    ensures scan.None? ==> logs == [] && store.files == old(store.files)
    ensures scan.Some? ==> |logs| <= MonthCount(settings.monthsAhead)
    ensures scan.Some? ==> logs == Steps(scan.value, feeds, parse, |logs|)
    ensures scan.Some? ==> forall k :: 0 <= k < |logs| - 1 ==> !EndsScan(scan.value, logs[k])
    ensures scan.Some? && |logs| < MonthCount(settings.monthsAhead) ==> EndsInError(scan.value, logs)
    ensures scan.Some? && PauseRaises(settings.perCallSleep) ==> |logs| <= 1
    ensures scan.Some? ==> store.files == AppendAll(old(store.files), SavedWrites(scan.value, logs))
    ensures old(store.Valid()) ==> store.Valid()
  {
    scan := Prepare(settings, today);
    logs := [];
    if scan.Some? {
      logs := ScanMonths(scan.value, MonthCount(settings.monthsAhead), feeds, parse, store);
    }
  }

  /** The loop of `run_oneshot_year` over `range(months)`. */
  method ScanMonths(s: Scan, months: nat, feeds: seq<MonthFeed>,
                    parse: string -> Option<real>, store: DataDir)
    returns (logs: seq<MonthLog>)
    requires ValidDate(s.firstMonth)
    requires months <= |feeds|
    requires FeedsOk(feeds)
    modifies store
    ensures |logs| <= months
    ensures logs == Steps(s, feeds, parse, |logs|)
    ensures forall k :: 0 <= k < |logs| - 1 ==> !EndsScan(s, logs[k])
    ensures |logs| < months ==> EndsInError(s, logs)
    ensures store.files == AppendAll(old(store.files), SavedWrites(s, logs))
    ensures old(store.Valid()) ==> store.Valid()
  {
    logs := [];
    var i := 0;
    while i < months
      invariant 0 <= i <= months
      invariant logs == Steps(s, feeds, parse, i)
      invariant NoError(s, logs)
      invariant old(store.Valid()) ==> store.Valid()
      invariant store.files == AppendAll(old(store.files), SavedWrites(s, logs))
    {
      var log := ScanMonth(s, i, feeds[i], parse, store);
      StepsStep(s, feeds, parse, i);
      SavedWritesStep(s, logs, log);
      AppendAllConcat(old(store.files), SavedWrites(s, logs), WritesOf(s, log));
      logs := logs + [log];
      i := i + 1;
      if log.outcome.Crashed? || PauseRaises(s.sleep) {
        return;
      }
    }
  }

  lemma StepsStep(scan: Scan, feeds: seq<MonthFeed>, parse: string -> Option<real>, i: nat)
    requires ValidDate(scan.firstMonth)
    requires i < |feeds|
    requires FeedsOk(feeds)
    ensures Steps(scan, feeds, parse, i + 1) == Steps(scan, feeds, parse, i) + [MonthStep(scan, i, feeds[i], parse)]
  {
    var longer, shorter := Steps(scan, feeds, parse, i + 1), Steps(scan, feeds, parse, i);
    assert longer[..i] == shorter;
    assert longer == longer[..i] + [longer[i]];
  }

  lemma SavedWritesStep(scan: Scan, logs: seq<MonthLog>, log: MonthLog)
    ensures SavedWrites(scan, logs + [log]) == SavedWrites(scan, logs) + WritesOf(scan, log)
    ensures SavedRows(logs + [log]) == SavedRows(logs) + (if log.outcome.Saved? then [log.outcome.row] else [])
    ensures !EndsScan(scan, log) && NoError(scan, logs) ==> NoError(scan, logs + [log])
  {
    assert (logs + [log])[..|logs|] == logs;
  }

  /** Month `i` scans exactly one calendar month: the flight_dates range
      names the first and the last day of the month `i` months after the
      start month, each end reading back as that date; the month is absent,
      and the scan crashes, only when that month falls outside the years
      1 to 9999. */
  lemma MonthRange(scan: Scan, i: nat, feed: MonthFeed, parse: string -> Option<real>)
    requires ValidDate(scan.firstMonth)
    requires FeedOk(feed)
    ensures var log := MonthStep(scan, i, feed, parse);
      var ms := AddMonths(scan.firstMonth, i);
      && (log.datesRequest.Some? <==> ms.Some?)
      && (ms.None? ==> log.outcome.Crashed? && log.offerRequest.None?)
      && (ms.Some? ==>
            var range := Split(log.datesRequest.value.departureDate, ',');
            && log.datesRequest.value.origin == scan.origin
            && log.datesRequest.value.destination == scan.dest
            && |range| == 2
            && ParseIsoDate(range[0]) == Some(ms.value)
            && ParseIsoDate(range[1]) == Some(LastDayOfMonth(ms.value))
            && ms.value.day == 1
            && MonthIndex(ms.value) == MonthIndex(scan.firstMonth) + i
            && ValidDate(LastDayOfMonth(ms.value))
            && 28 <= LastDayOfMonth(ms.value).day <= 31)
  {
    var ms := AddMonths(scan.firstMonth, i);
    if ms.Some? {
      MonthBounds(ms.value);
      var range := DateRange(ms.value, LastDayOfMonth(ms.value));
      assert MonthStep(scan, i, feed, parse).datesRequest == Some(DatesRequest(scan.origin, scan.dest, range));
      DateRangeReadsBack(ms.value, LastDayOfMonth(ms.value));
    }
  }

  /** The calls of one month: one flight_dates query, and one offer search
      (of at most three attempts, the sleeps between them doubling from
      1.0) exactly when a date was picked, for that date; every month that
      does not crash ends with one pause of the configured length. */
  lemma MonthCalls(scan: Scan, i: nat, feed: MonthFeed, parse: string -> Option<real>)
    requires ValidDate(scan.firstMonth)
    requires FeedOk(feed)
    ensures var log := MonthStep(scan, i, feed, parse);
      var pick := PickOf(feed.dates, parse);
      && log.attempts <= OfferRetries
      && (log.offerRequest.Some? <==> log.datesRequest.Some? && pick.Some?)
      && (log.offerRequest.None? ==> log.attempts == 0)
      && (log.offerRequest.Some? ==>
            1 <= log.attempts && log.offerRequest.value == OfferRequestFor(scan, pick.value.date))
      && (!log.outcome.Crashed? ==> log.sleeps == Backoffs(log.attempts) + [scan.sleep])
      && (log.outcome.Crashed? ==> log.sleeps == Backoffs(log.attempts))
  {
  }

  /** A saved month's row comes from the cheapest offer the search
      returned (the first of equally cheap ones): its price is at most every
      returned offer's `grandTotal`, strictly below those of earlier offers,
      and its date, airline, flight number, stop count, route and time are
      those of the picked date, that offer and the month's clock. */
  lemma SavedRowIsCheapest(scan: Scan, i: nat, feed: MonthFeed, parse: string -> Option<real>)
    requires ValidDate(scan.firstMonth)
    requires FeedOk(feed)
    requires MonthStep(scan, i, feed, parse).outcome.Saved?
    ensures var row := MonthStep(scan, i, feed, parse).outcome.row;
      var pick := PickOf(feed.dates, parse);
      var run := RetryRun(feed.offers, OfferRetries);
      && pick.Some? && run.result.Returned? && run.result.items != []
      && (forall j :: 0 <= j < |run.result.items| ==> row.price <= run.result.items[j].grandTotal)
      && var k := CheapestIndex(run.result.items);
         var c := run.result.items[k];
         && (forall j :: 0 <= j < k ==> row.price < run.result.items[j].grandTotal)
         && WellFormed(c)
         && row.price == c.grandTotal && row.currency == c.currency
         && row.airline == LeadingCarrier(c)
         && row.flightNo == LeadingCarrier(c) + Segments(c)[0].number
         && row.stops + 1 == |Segments(c)|
         && row.travelDate == pick.value.date
         && row.collectedAtUtc == feed.clock
         && row.origin == scan.origin && row.dest == scan.dest
  {
  }

  /** Every saved month's row goes to the route's one monthly file. */
  lemma {:induction false} SavedWritesRows(scan: Scan, logs: seq<MonthLog>, path: Path)
    ensures path == MonthlyPath(scan.origin, scan.dest) ==> RowsTo(SavedWrites(scan, logs), path) == SavedRows(logs)
    ensures path != MonthlyPath(scan.origin, scan.dest) ==> RowsTo(SavedWrites(scan, logs), path) == []
    decreases |logs|
  {
    if logs != [] {
      var init, last := logs[..|logs| - 1], logs[|logs| - 1];
      SavedWritesRows(scan, init, path);
      RowsToConcat(SavedWrites(scan, init), WritesOf(scan, last), path);
      RowsToWritesOf(scan, last, path);
    }
  }

  /** The one append of a month reaches `path` exactly when the month saved
      a row and `path` is the route's monthly file. */
  lemma RowsToWritesOf(scan: Scan, log: MonthLog, path: Path)
    ensures RowsTo(WritesOf(scan, log), path) ==
      if path == MonthlyPath(scan.origin, scan.dest) && log.outcome.Saved? then [log.outcome.row] else []
  {
    var ws := WritesOf(scan, log);
    if ws != [] {
      assert ws[1..] == [];
    }
  }

  /** After a run, the route's monthly file holds the rows it had (or just
      the header, when it is new) followed by the saved months' rows in
      month order, and no other file is created or changed. */
  lemma MonthlyFile(files: map<Path, seq<Line>>, scan: Scan, logs: seq<MonthLog>)
    ensures var after := AppendAll(files, SavedWrites(scan, logs));
      var path := MonthlyPath(scan.origin, scan.dest);
      && (path in after <==> path in files || SavedRows(logs) != [])
      && (path in after ==> DataRows(after[path]) == DataRows(Initial(files, path)) + SavedRows(logs))
      && (forall p :: p != path ==> (p in after <==> p in files))
      && (forall p :: p != path && p in files ==> after[p] == files[p])
  {
    var writes := SavedWrites(scan, logs);
    var path := MonthlyPath(scan.origin, scan.dest);
    SavedWritesRows(scan, logs, path);
    AppendAllAt(files, writes, path);
    if path in AppendAll(files, writes) {
      ReadAfterAppends(files, writes, path);
    }
    forall p | p != path
      ensures p in AppendAll(files, writes) <==> p in files
      ensures p in files ==> AppendAll(files, writes)[p] == files[p]
    {
      SavedWritesRows(scan, logs, p);
      AppendAllAt(files, writes, p);
      assert DataLines([]) == [];
    }
  }
}
