/**
 * The script's main sequence: validate the options, expand the window into
 * archive URLs, scan every decoded record of every archive, count the
 * accepted ones per repository key, rank the counts and print the top rows.
 * Fetching, gunzip and JSON decoding are one parameter, `fetch`: for a URL it
 * gives `None` when the download or the gunzip fails, and otherwise the
 * records the streaming parser hands over, in order, together with whether
 * the parser then stops on malformed JSON.
 */
module Pipeline {
  import opened Wrappers
  import opened Archive
  import opened Records
  import opened RepoKey
  import opened Aggregation
  import opened Ranking
  import Text
  import Calendar

  /** The two option errors the script reports before it fetches anything. */
  datatype ConfigError = BeginAfterEnd | NonPositiveCount

  /**
   * What aborts a run: the download or gunzip of an archive failing, the
   * parser meeting malformed JSON, or `DateTime.parse` raising on a record.
   */
  datatype Failure = FetchFailed(uri: string) | MalformedJson(uri: string) | BadRecord(error: FilterError)

  datatype Outcome = Completed | Rejected(reason: ConfigError) | Aborted(failure: Failure)

  /**
   * One decoded archive: the records the parser yields before it stops, and
   * whether it stops on malformed JSON rather than at the end of the input.
   */
  datatype Decoded = Decoded(docs: seq<Record>, malformed: bool)

  /** How far a scan got: the keys counted so far, and what stopped it, if anything. */
  datatype Scan<E> = Scan(keys: seq<string>, stop: Option<E>)

  function ConfigMessage(e: ConfigError): string {
    match e
    case BeginAfterEnd => "Begin Date is after the End Date"
    case NonPositiveCount => "Count must be a positive number"
  }

  /** The checks the script makes before it fetches anything, in that order. */
  function ValidateOptions(opts: Options): (r: Option<ConfigError>)
    ensures r == None <==> opts.after <= opts.before && 1 <= opts.count
    ensures opts.before < opts.after ==> r == Some(BeginAfterEnd)
    ensures opts.after <= opts.before && opts.count < 1 ==> r == Some(NonPositiveCount)
  {
    if opts.before < opts.after then Some(BeginAfterEnd)
    else if opts.count < 1 then Some(NonPositiveCount)
    else None
  }

  /** The key of an accepted record. */
  function KeyOf(doc: Record): string
    requires HasRepositoryFields(doc)
  {
    StripHost(RepositoryUrl(doc))
  }

  /**
   * The scan of one archive's records in order: the keys of the accepted
   * records, up to the first record whose `pushed_at` does not parse, and
   * that record's error.
   */
  function KeysOf(docs: seq<Record>, opts: Options): Scan<FilterError> {
    if docs == [] then Scan([], None)
    else
      var doc := docs[|docs| - 1];
      var s := KeysOf(docs[..|docs| - 1], opts);
      if s.stop.Some? then s
      else
        match RecordValid(doc, opts)
        case Err(e) => Scan(s.keys, Some(e))
        case Ok(accepted) => if accepted then Scan(s.keys + [KeyOf(doc)], None) else s
  }

  function FetchLine(uri: string): string {
    "fetching uri: " + uri
  }

  /**
   * The scan of the archive at uri: the keys of its accepted records and
   * what stops the run there, if anything. The records the parser yields
   * are filtered before a later parse error is met.
   */
  function ArchiveKeys(uri: string, fetch: string -> Option<Decoded>, opts: Options): Scan<Failure> {
    match fetch(uri)
    case None => Scan([], Some(FetchFailed(uri)))
    case Some(archive) =>
      var s := KeysOf(archive.docs, opts);
      if s.stop.Some? then Scan(s.keys, Some(BadRecord(s.stop.value)))
      else if archive.malformed then Scan(s.keys, Some(MalformedJson(uri)))
      else Scan(s.keys, None)
  }

  /**
   * The lines printed while fetching uris in order, the keys counted, and
   * the failure that stopped the scan, if any.
   */
  function Gather(uris: seq<string>, fetch: string -> Option<Decoded>, opts: Options)
    : (seq<string>, Scan<Failure>)
  {
    if uris == [] then ([], Scan([], None))
    else
      var uri := uris[|uris| - 1];
      var (log, s) := Gather(uris[..|uris| - 1], fetch, opts);
      if s.stop.Some? then (log, s)
      else
        var more := ArchiveKeys(uri, fetch, opts);
        (log + [FetchLine(uri)], Scan(s.keys + more.keys, more.stop))
  }

  /** Everything the script prints, and how it ends. */
  function Report(opts: Options, fetch: string -> Option<Decoded>): (seq<string>, Outcome) {
    match ValidateOptions(opts)
    case Some(e) => ([ConfigMessage(e)], Rejected(e))
    case None =>
      var (log, s) := Gather(ArchiveUrls(opts.after, opts.before), fetch, opts);
      match s.stop
      case Some(f) => (log, Aborted(f))
      case None => (log + DisplayLines(SortByCount(Entries(s.keys)), opts.count), Completed)
  }

  /** Once the scan of an archive stops, the records after it change nothing. */
  lemma {:induction false} KeysOfStops(docs: seq<Record>, j: nat, opts: Options)
    requires j <= |docs| && KeysOf(docs[..j], opts).stop.Some?
    ensures KeysOf(docs, opts) == KeysOf(docs[..j], opts)
    decreases |docs| - j
  {
    if j < |docs| {
      assert docs[..j + 1][..j] == docs[..j];
      KeysOfStops(docs, j + 1, opts);
    } else {
      assert docs[..j] == docs;
    }
  }

  /** Once a fetch or a record fails, the archives after it are neither fetched nor logged. */
  lemma {:induction false} GatherStops(uris: seq<string>, j: nat,
                                       fetch: string -> Option<Decoded>, opts: Options)
    requires j <= |uris| && Gather(uris[..j], fetch, opts).1.stop.Some?
    ensures Gather(uris, fetch, opts) == Gather(uris[..j], fetch, opts)
    decreases |uris| - j
  {
    if j < |uris| {
      assert uris[..j + 1][..j] == uris[..j];
      GatherStops(uris, j + 1, fetch, opts);
    } else {
      assert uris[..j] == uris;
    }
  }

  /** The fetch log of the first uris. */
  function FetchLines(uris: seq<string>): (r: seq<string>)
    ensures |r| == |uris|
  {
    seq(|uris|, i requires 0 <= i < |uris| => FetchLine(uris[i]))
  }

  /**
   * The scan logs the archives it fetches, in order: all of them when it
   * succeeds, and when an archive fails, that archive's URL is the last one
   * logged.
   */
  lemma {:induction false} GatherLog(uris: seq<string>, fetch: string -> Option<Decoded>,
                                     opts: Options)
    ensures var (log, s) := Gather(uris, fetch, opts);
      && |log| <= |uris|
      && log == FetchLines(uris[..|log|])
      && (s.stop.None? ==> log == FetchLines(uris))
      && (s.stop.Some? ==> 1 <= |log|)
      && (s.stop.Some? && !s.stop.value.BadRecord? ==> s.stop.value.uri == uris[|log| - 1])
  {
    if uris != [] {
      var init := uris[..|uris| - 1];
      GatherLog(init, fetch, opts);
      var (log, s) := Gather(init, fetch, opts);
      assert uris[..|log|] == init[..|log|];
      if s.stop.None? {
        assert uris[..|log| + 1] == init + [uris[|uris| - 1]];
      }
    }
  }

  /**
   * A run whose options are rejected prints only the error message, whatever
   * the archives hold: nothing is fetched.
   */
  lemma RejectedBeforeFetch(opts: Options, fetch: string -> Option<Decoded>)
    requires ValidateOptions(opts).Some?
    ensures Report(opts, fetch) == ([ConfigMessage(ValidateOptions(opts).value)],
                                    Rejected(ValidateOptions(opts).value))
  {
  }

  /**
   * A run that fails prints nothing but the fetch log: no partial counts are
   * shown.
   */
  lemma AbortedShowsNoCounts(opts: Options, fetch: string -> Option<Decoded>)
    requires Report(opts, fetch).1.Aborted?
    ensures var uris := ArchiveUrls(opts.after, opts.before);
      var console := Report(opts, fetch).0;
      |console| <= |uris| && console == FetchLines(uris[..|console|])
  {
    GatherLog(ArchiveUrls(opts.after, opts.before), fetch, opts);
  }

  /**
   * The ranked rows are the aggregate rows, each repository once, largest
   * count first; the lines printed are the first `min(limit, #keys)` of them,
   * and no row left out has a higher count than a row printed.
   */
  lemma RankedOutput(keys: seq<string>, limit: int)
    requires 1 <= limit
    ensures var ranked := SortByCount(Entries(keys));
      var lines := DisplayLines(ranked, limit);
      && multiset(ranked) == multiset(Entries(keys))
      && |lines| == (if |FirstOccurrences(keys)| < limit then |FirstOccurrences(keys)| else limit)
      && (forall i :: 0 <= i < |lines| ==> lines[i] == ResultLine(ranked[i]))
      && (forall i :: 0 <= i < |ranked| ==>
            ranked[i].0 in keys && ranked[i].1 == Occurrences(keys, ranked[i].0))
      && (forall i, j :: 0 <= i < j < |ranked| ==> ranked[i].0 != ranked[j].0)
      && (forall i, j :: 0 <= i < |lines| <= j < |ranked| ==> ranked[j].1 <= ranked[i].1)
  {
    RankedRows(keys);
    RankedKeysDistinct(keys);
    DisplayedAreTop(SortByCount(Entries(keys)), limit);
  }

  /** Three keys `a/b` and one `a/c` aggregate to the rows `a/b` 3 and `a/c` 1. */
  lemma ExampleEntries()
    ensures Entries(["a/b", "a/b", "a/b", "a/c"]) == [("a/b", 3), ("a/c", 1)]
  {
    var ab, ac := "a/b", "a/c";
    assert ab != ac by { assert ab[2] != ac[2]; }
    EntriesOfRun(ab, ac);
  }

  /** The rows `a/b` 3 and `a/c` 1 print as `a/b: 3 events` and `a/c: 1 events`. */
  lemma ExampleResultLines()
    ensures ResultLine(("a/b", 3)) == "a/b: 3 events"
    ensures ResultLine(("a/c", 1)) == "a/c: 1 events"
  {
    assert Text.NatToString(3) == "3";
    assert Text.NatToString(1) == "1";
  }

  /** The rows `a/b` 3 and `a/c` 1 print in that order, both under a limit of 10. */
  lemma ExampleLines()
    ensures DisplayLines(SortByCount([("a/b", 3), ("a/c", 1)]), 10)
            == ["a/b: 3 events", "a/c: 1 events"]
  {
    SortPair(("a/b", 3), ("a/c", 1));
    DisplayPair(("a/b", 3), ("a/c", 1), 10);
    ExampleResultLines();
  }

  /** The keys `a/b` three times and `a/c` once print `a/b: 3 events` and then `a/c: 1 events`. */
  lemma RankedExample()
    ensures DisplayLines(SortByCount(Entries(["a/b", "a/b", "a/b", "a/c"])), 10)
            == ["a/b: 3 events", "a/c: 1 events"]
  {
    ExampleEntries();
    ExampleLines();
  }

  /** One more record of an archive: how the scan's result changes. */
  lemma KeysOfNext(docs: seq<Record>, d: nat, opts: Options)
    requires d < |docs| && KeysOf(docs[..d], opts).stop.None?
    ensures KeysOf(docs[..d + 1], opts) ==
      match RecordValid(docs[d], opts)
      case Err(e) => Scan(KeysOf(docs[..d], opts).keys, Some(e))
      case Ok(accepted) =>
        if accepted then Scan(KeysOf(docs[..d], opts).keys + [KeyOf(docs[d])], None)
        else KeysOf(docs[..d], opts)
  {
    assert docs[..d + 1][..d] == docs[..d] && docs[..d + 1][d] == docs[d];
  }

  /**
   * A record the filter cannot judge ends the scan of its archive with that
   * error, keeping the keys counted before it.
   */
  lemma KeysOfFails(docs: seq<Record>, d: nat, opts: Options)
    requires d < |docs| && KeysOf(docs[..d], opts).stop.None? && RecordValid(docs[d], opts).Err?
    ensures KeysOf(docs, opts) == Scan(KeysOf(docs[..d], opts).keys, Some(RecordValid(docs[d], opts).error))
  {
    KeysOfNext(docs, d, opts);
    KeysOfStops(docs, d + 1, opts);
  }

  /** A record the filter judges adds its key when accepted and nothing otherwise. */
  lemma KeysOfJudged(docs: seq<Record>, d: nat, opts: Options)
    requires d < |docs| && KeysOf(docs[..d], opts).stop.None? && RecordValid(docs[d], opts).Ok?
    ensures KeysOf(docs[..d + 1], opts) == Scan(KeysOf(docs[..d], opts).keys +
      (if RecordValid(docs[d], opts).value then [KeyOf(docs[d])] else []), None)
  {
    KeysOfNext(docs, d, opts);
  }

  /** One more archive: how the scan's log, keys and result change. */
  lemma GatherNext(uris: seq<string>, u: nat, fetch: string -> Option<Decoded>, opts: Options)
    requires u < |uris| && Gather(uris[..u], fetch, opts).1.stop.None?
    ensures Gather(uris[..u + 1], fetch, opts) ==
      (Gather(uris[..u], fetch, opts).0 + [FetchLine(uris[u])],
       Scan(Gather(uris[..u], fetch, opts).1.keys + ArchiveKeys(uris[u], fetch, opts).keys,
            ArchiveKeys(uris[u], fetch, opts).stop))
  {
    assert uris[..u + 1][..u] == uris[..u] && uris[..u + 1][u] == uris[u];
  }

  /**
   * A push of the requested type at an instant inside the window, to
   * `https://github.com/` plus a short path, is counted under that path.
   */
  lemma KeysOfPush(docs: seq<Record>, d: nat, opts: Options, path: string, t: Instant)
    requires d < |docs| && KeysOf(docs[..d], opts).stop.None?
    requires opts.after <= t <= opts.before && |path| < 18
    requires docs[d] == PushRecord(opts.eventName, HttpsPrefix + path, t)
    ensures KeysOf(docs[..d + 1], opts) == Scan(KeysOf(docs[..d], opts).keys + [path], None)
  {
    ShortHasNoPattern(path);
    StripHostPrefix(path);
    assert RecordValid(docs[d], opts) == Ok(true);
    KeysOfJudged(docs, d, opts);
  }

  /**
   * Three pushes to one short path, at instant tp, and one to another, at
   * instant tq, both inside the window, are all counted, in order.
   */
  lemma KeysOfPushes(opts: Options, p: string, q: string, tp: Instant, tq: Instant)
    requires opts.after <= tp <= opts.before && opts.after <= tq <= opts.before
    requires |p| < 18 && |q| < 18
    ensures var pp := PushRecord(opts.eventName, HttpsPrefix + p, tp);
      var pq := PushRecord(opts.eventName, HttpsPrefix + q, tq);
      KeysOf([pp, pp, pp, pq], opts) == Scan([p, p, p, q], None)
  {
    var pp := PushRecord(opts.eventName, HttpsPrefix + p, tp);
    var pq := PushRecord(opts.eventName, HttpsPrefix + q, tq);
    var docs := [pp, pp, pp, pq];
    assert docs[..0] == [];
    KeysOfPush(docs, 0, opts, p, tp);
    KeysOfPush(docs, 1, opts, p, tp);
    KeysOfPush(docs, 2, opts, p, tp);
    KeysOfPush(docs, 3, opts, q, tq);
    assert docs[..4] == docs;
  }

  /** A window shorter than a day has exactly one archive, its start instant's. */
  lemma SingleArchive(a: Instant, b: Instant)
    requires a <= b < a + Calendar.SecondsPerDay
    ensures ArchiveUrls(a, b) == [ArchiveUrl(a)]
  {
    WindowShape(a, b);
    DayStepsAt(a, b, 0);
    ArchiveUrlsAt(a, b, 0, a);
  }

  /**
   * A window shorter than a day whose one archive holds three pushes to one
   * repository and one to another, inside the window: the run logs that
   * archive and prints the ranked rows of those four keys, whatever `fetch`
   * gives for other URLs.
   */
  lemma ReportOfPushes(a: Instant, b: Instant, tp: Instant, tq: Instant, name: string, limit: int,
                       p: string, q: string, fetch: string -> Option<Decoded>)
    requires a <= tp <= b && a <= tq <= b && b < a + Calendar.SecondsPerDay
    requires 1 <= limit && |p| < 18 && |q| < 18
    requires var pp := PushRecord(name, HttpsPrefix + p, tp);
      var pq := PushRecord(name, HttpsPrefix + q, tq);
      fetch(ArchiveUrl(a)) == Some(Decoded([pp, pp, pp, pq], false))
    ensures Report(Options(a, b, name, limit), fetch)
        == ([FetchLine(ArchiveUrl(a))] + DisplayLines(SortByCount(Entries([p, p, p, q])), limit), Completed)
  {
    var opts := Options(a, b, name, limit);
    KeysOfPushes(opts, p, q, tp, tq);
    SingleArchive(a, b);
    var uris := ArchiveUrls(a, b);
    var keys := [p, p, p, q];
    assert uris[0] == ArchiveUrl(a);
    assert ArchiveKeys(uris[0], fetch, opts) == Scan(keys, None);
    assert uris[..0] == [] && uris[..1] == uris;
    assert Gather(uris[..0], fetch, opts) == ([], Scan([], None));
    GatherNext(uris, 0, fetch, opts);
    var g := Gather(uris[..1], fetch, opts);
    assert g.0 == [] + [FetchLine(ArchiveUrl(a))];
    assert g.1 == Scan([] + keys, None);
    assert g.0 == [FetchLine(ArchiveUrl(a))];
    assert g.1.keys == keys;
    assert Gather(uris, fetch, opts) == g;
    assert Gather(uris, fetch, opts) == ([FetchLine(ArchiveUrl(a))], Scan(keys, None));
  }

  /**
   * A window shorter than a day whose one archive holds three pushes to
   * `https://github.com/` plus p and one to `https://github.com/` plus q, for
   * two distinct short repository paths, inside the window: the run logs that
   * archive and prints `p: 3 events`, then `q: 1 events`.
   */
  lemma PushExample(a: Instant, b: Instant, tp: Instant, tq: Instant, name: string, limit: int,
                    p: string, q: string, fetch: string -> Option<Decoded>)
    requires a <= tp <= b && a <= tq <= b && b < a + Calendar.SecondsPerDay
    requires 2 <= limit && |p| < 18 && |q| < 18 && p != q
    requires var pp := PushRecord(name, HttpsPrefix + p, tp);
      var pq := PushRecord(name, HttpsPrefix + q, tq);
      fetch(ArchiveUrl(a)) == Some(Decoded([pp, pp, pp, pq], false))
    ensures Report(Options(a, b, name, limit), fetch)
        == ([FetchLine(ArchiveUrl(a)), p + ": 3 events", q + ": 1 events"], Completed)
  {
    ReportOfPushes(a, b, tp, tq, name, limit, p, q, fetch);
    LinesOfRun(p, q, limit);
    var head := FetchLine(ArchiveUrl(a));
    assert [head] + [p + ": 3 events", q + ": 1 events"] == [head, p + ": 3 events", q + ": 1 events"];
  }

  /** The printed line of a key with count 3 or 1. */
  lemma CountLine(k: string, n: nat)
    requires n == 1 || n == 3
    ensures n == 3 ==> ResultLine((k, n)) == k + ": 3 events"
    ensures n == 1 ==> ResultLine((k, n)) == k + ": 1 events"
  {
    var digits := Text.NatToString(n);
    assert n == 3 ==> digits == "3";
    assert n == 1 ==> digits == "1";
    assert ResultLine((k, n)) == k + (": " + digits + " events");
  }

  /** Three keys a and one key b print `a: 3 events` and then `b: 1 events`. */
  lemma LinesOfRun(a: string, b: string, limit: int)
    requires a != b && 2 <= limit
    ensures DisplayLines(SortByCount(Entries([a, a, a, b])), limit) == [a + ": 3 events", b + ": 1 events"]
  {
    assert DisplayLines(SortByCount(Entries([a, a, a, b])), limit) == [ResultLine((a, 3)), ResultLine((b, 1))] by {
      EntriesOfRun(a, b);
      SortPair((a, 3), (b, 1));
      DisplayPair((a, 3), (b, 1), limit);
    }
    CountLine(a, 3);
    CountLine(b, 1);
  }

  /**
   * The block given to `parser.parse` for one record: an accepted record
   * increments its key, a rejected one changes nothing, and an unparsable
   * `pushed_at` raises before anything changes.
   */
  method ScanRecord(events: EventCounts, doc: Record, opts: Options)
    returns (error: Option<FilterError>)
    requires events.Valid()
    modifies events
    ensures events.Valid()
    ensures RecordValid(doc, opts).Err? ==>
      error == Some(RecordValid(doc, opts).error) && events.seen == old(events.seen)
    ensures RecordValid(doc, opts).Ok? ==>
      && error == None
      && events.seen == old(events.seen) + (if RecordValid(doc, opts).value then [KeyOf(doc)] else [])
  {
    var valid := RecordValid(doc, opts);
    if valid.Err? {
      return Some(valid.error);
    }
    if valid.value {
      events.Increment(KeyOf(doc));
    }
    return None;
  }

  /**
   * The parse of one archive: the records in order, until one raises. The
   * hash then holds the keys of the records accepted before it.
   */
  method ScanArchive(events: EventCounts, docs: seq<Record>, opts: Options)
    returns (error: Option<FilterError>)
    requires events.Valid()
    modifies events
    ensures events.Valid()
    ensures error == KeysOf(docs, opts).stop
    ensures events.seen == old(events.seen) + KeysOf(docs, opts).keys
  {
    var d := 0;
    while d < |docs|
      invariant 0 <= d <= |docs|
      invariant events.Valid()
      invariant KeysOf(docs[..d], opts).stop.None?
      invariant events.seen == old(events.seen) + KeysOf(docs[..d], opts).keys
    {
      error := ScanRecord(events, docs[d], opts);
      if error.Some? {
        KeysOfFails(docs, d, opts);
        return;
      }
      KeysOfJudged(docs, d, opts);
      d := d + 1;
    }
    assert docs[..d] == docs;
    return None;
  }

  /**
   * The body of `uri_list.each` after the `fetching uri` line: open, gunzip
   * and decode the archive, scanning its records as the parser yields them.
   */
  method ScanUri(events: EventCounts, uri: string, fetch: string -> Option<Decoded>, opts: Options)
    returns (failure: Option<Failure>)
    requires events.Valid()
    modifies events
    ensures events.Valid()
    ensures failure == ArchiveKeys(uri, fetch, opts).stop
    ensures events.seen == old(events.seen) + ArchiveKeys(uri, fetch, opts).keys
  {
    var archive := fetch(uri);
    if archive.None? {
      return Some(FetchFailed(uri));
    }
    var error := ScanArchive(events, archive.value.docs, opts);
    if error.Some? {
      return Some(BadRecord(error.value));
    }
    if archive.value.malformed {
      return Some(MalformedJson(uri));
    }
    return None;
  }

  /**
   * `uri_list.each`: prints the `fetching uri` line of each archive and scans
   * it, until an archive fails.
   */
  method ScanAll(events: EventCounts, uris: seq<string>, fetch: string -> Option<Decoded>, opts: Options)
    returns (console: seq<string>, failure: Option<Failure>)
    requires events.Valid() && events.seen == []
    modifies events
    ensures events.Valid()
    ensures Gather(uris, fetch, opts) == (console, Scan(events.seen, failure))
  {
    console := [];
    var u := 0;
    while u < |uris|
      invariant 0 <= u <= |uris|
      invariant events.Valid()
      invariant Gather(uris[..u], fetch, opts) == (console, Scan(events.seen, None))
    {
      var uri := uris[u];
      GatherNext(uris, u, fetch, opts);
      console := console + [FetchLine(uri)];
      failure := ScanUri(events, uri, fetch, opts);
      if failure.Some? {
        GatherStops(uris, u + 1, fetch, opts);
        return;
      }
      u := u + 1;
    }
    assert uris[..u] == uris;
    failure := None;
  }

  /** A scan that failed ends the report with that failure. */
  lemma ReportAborted(opts: Options, fetch: string -> Option<Decoded>,
                      log: seq<string>, keys: seq<string>, f: Failure)
    requires ValidateOptions(opts).None?
    requires Gather(ArchiveUrls(opts.after, opts.before), fetch, opts) == (log, Scan(keys, Some(f)))
    ensures Report(opts, fetch) == (log, Aborted(f))
  {
  }

  /** A scan of every archive that succeeded ends the report with the ranked lines. */
  lemma ReportCompleted(opts: Options, fetch: string -> Option<Decoded>,
                        log: seq<string>, keys: seq<string>)
    requires ValidateOptions(opts).None?
    requires Gather(ArchiveUrls(opts.after, opts.before), fetch, opts) == (log, Scan(keys, None))
    ensures Report(opts, fetch) ==
      (log + DisplayLines(SortByCount(Entries(keys)), opts.count), Completed)
  {
  }

  /** The script run with the given options over the archives `fetch` serves. */
  method Run(opts: Options, fetch: string -> Option<Decoded>)
    returns (console: seq<string>, outcome: Outcome)
    ensures (console, outcome) == Report(opts, fetch)
  {
    if opts.before < opts.after {
      return [ConfigMessage(BeginAfterEnd)], Rejected(BeginAfterEnd);
    }
    if opts.count < 1 {
      return [ConfigMessage(NonPositiveCount)], Rejected(NonPositiveCount);
    }
    var events := new EventCounts();
    var uriList := UriList(opts.after, opts.before);
    var failure;
    console, failure := ScanAll(events, uriList, fetch, opts);
    if failure.Some? {
      ReportAborted(opts, fetch, console, events.seen, failure.value);
      return console, Aborted(failure.value);
    }
    var sorted := SortByCount(events.Rows());
    var lines := DisplayResults(sorted, opts.count);
    ReportCompleted(opts, fetch, console, events.seen);
    console := console + lines;
    outcome := Completed;
  }
}
