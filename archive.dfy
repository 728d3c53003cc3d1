/**
 * Expansion of a time window into archive addresses (`github_uri_list`):
 * starting at the first instant, one address per step of one calendar day,
 * keeping the hour of the first instant, up to and including the last step
 * that does not pass the end instant.
 */
module Archive {
  import opened Calendar
  import Text

  /** Whole seconds since 1970-01-01 00:00. */
  type Instant = int

  /** What one archive file is keyed by: a calendar date and an hour. */
  datatype Address = Address(date: Date, hour: int)

  function AddressOf(t: Instant): (a: Address)
    ensures ValidDate(a.date) && 0 <= a.hour < 24
  {
    Address(DateOf(t), HourOf(t))
  }

  const ArchiveHost := "http://data.githubarchive.org/"
  const ArchiveSuffix := ".json.gz"

  /** The name of an address's archive: year, zero-padded month and day, and hour, joined by dashes. */
  function Stamp(a: Address): string {
    Text.IntToString(a.date.year) + "-" + Text.Pad2(a.date.month) + "-"
      + Text.Pad2(a.date.day) + "-" + Text.IntToString(a.hour)
  }

  /** The archive URL of the address. */
  function Url(a: Address): string {
    ArchiveHost + Stamp(a) + ArchiveSuffix
  }

  /** The URL of the archive file that holds instant t. */
  function ArchiveUrl(t: Instant): string {
    Url(AddressOf(t))
  }

  /** The instants the loop visits: start, start + 1 day, ... while not after end. */
  function DaySteps(start: Instant, end: Instant): seq<Instant>
    decreases end - start
  {
    if end < start then [] else [start] + DaySteps(start + SecondsPerDay, end)
  }

  /** The addresses of the window, in the order they are fetched. */
  function Addresses(start: Instant, end: Instant): seq<Address> {
    var steps := DaySteps(start, end);
    seq(|steps|, i requires 0 <= i < |steps| => AddressOf(steps[i]))
  }

  /** The archive URLs of the window (the result of `github_uri_list`). */
  function ArchiveUrls(start: Instant, end: Instant): seq<string> {
    var steps := DaySteps(start, end);
    seq(|steps|, i requires 0 <= i < |steps| => ArchiveUrl(steps[i]))
  }

  /** Step i is i days after start, and it does not pass end. */
  lemma {:induction false} DayStepsAt(start: Instant, end: Instant, i: nat)
    requires i < |DaySteps(start, end)|
    ensures DaySteps(start, end)[i] == start + i * SecondsPerDay
    ensures DaySteps(start, end)[i] <= end
    decreases end - start
  {
    if i > 0 {
      DayStepsAt(start + SecondsPerDay, end, i - 1);
    }
  }

  /** There are exactly n steps when n is the first count whose step passes end. */
  lemma {:induction false} DayStepsLength(start: Instant, end: Instant, n: nat)
    requires end < start + n * SecondsPerDay
    requires n == 0 || start + (n - 1) * SecondsPerDay <= end
    ensures |DaySteps(start, end)| == n
    decreases n
  {
    if n > 0 {
      DayStepsLength(start + SecondsPerDay, end, n - 1);
    }
  }

  /** The step after the last one passes end: no instant in range is skipped. */
  lemma {:induction false} DayStepsComplete(start: Instant, end: Instant)
    ensures end < start + |DaySteps(start, end)| * SecondsPerDay
    decreases end - start
  {
    if start <= end {
      DayStepsComplete(start + SecondsPerDay, end);
    }
  }

  /**
   * The window gives no address when end is before start, and otherwise one
   * address per day step, the first at start and none after end.
   */
  lemma WindowShape(start: Instant, end: Instant)
    ensures end < start <==> Addresses(start, end) == []
    ensures start <= end ==> Addresses(start, end)[0] == AddressOf(start)
    ensures start <= end < start + SecondsPerDay ==> |Addresses(start, end)| == 1
    ensures |ArchiveUrls(start, end)| == |Addresses(start, end)| == |DaySteps(start, end)|
  {
    if start <= end < start + SecondsPerDay {
      DayStepsLength(start, end, 1);
    }
  }

  lemma {:induction false} HourAfterDays(t: Instant, i: nat)
    ensures HourOf(t + i * SecondsPerDay) == HourOf(t)
    ensures DayNumber(t + i * SecondsPerDay) == DayNumber(t) + i
  {
    if i > 0 {
      HourAfterDays(t, i - 1);
      AddOneDay(t + (i - 1) * SecondsPerDay);
    }
  }

  /** Every address of the window has the hour of the start instant. */
  lemma AddressesKeepHour(start: Instant, end: Instant, i: nat)
    requires i < |Addresses(start, end)|
    ensures Addresses(start, end)[i].hour == HourOf(start)
  {
    DayStepsAt(start, end, i);
    HourAfterDays(start, i);
  }

  /** Successive addresses are successive calendar days. */
  lemma AddressesConsecutive(start: Instant, end: Instant, i: nat)
    requires i + 1 < |Addresses(start, end)|
    ensures Addresses(start, end)[i + 1].date == NextDate(Addresses(start, end)[i].date)
  {
    DayStepsAt(start, end, i);
    DayStepsAt(start, end, i + 1);
    AddOneDay(start + i * SecondsPerDay);
  }

  /** No address of the window occurs twice. */
  lemma AddressesDistinct(start: Instant, end: Instant, i: nat, j: nat)
    requires i < j < |Addresses(start, end)|
    ensures Addresses(start, end)[i] != Addresses(start, end)[j]
  {
    DayStepsAt(start, end, i);
    DayStepsAt(start, end, j);
    HourAfterDays(start, i);
    HourAfterDays(start, j);
    CivilFromDaysInjective(DayNumber(start) + i, DayNumber(start) + j);
  }

  /** Strings with a common prefix and a common suffix are equal when their middles are. */
  lemma SameEnds<T>(p: seq<T>, m1: seq<T>, m2: seq<T>, x: seq<T>)
    requires p + m1 + x == p + m2 + x
    ensures m1 == m2
  {
    var s := p + m1 + x;
    assert m1 == s[|p|..|s| - |x|];
  }

  /** Splitting at the last separator: what follows it, and what precedes it, are determined. */
  lemma SplitLast<T>(x1: seq<T>, y1: seq<T>, x2: seq<T>, y2: seq<T>, sep: T)
    requires sep !in y1 && sep !in y2
    requires x1 + [sep] + y1 == x2 + [sep] + y2
    ensures x1 == x2 && y1 == y2
  {
    var s := x1 + [sep] + y1;
    assert s[|x1|] == sep && s[|x2|] == sep;
    assert x1 == s[..|x1|] && x2 == s[..|x2|];
    assert y1 == s[|x1| + 1..] && y2 == s[|x2| + 1..];
  }

  /** Different valid addresses have different archive URLs. */
  lemma UrlInjective(a: Address, b: Address)
    requires ValidDate(a.date) && ValidDate(b.date) && 0 <= a.hour && 0 <= b.hour
    requires Url(a) == Url(b)
    ensures a == b
  {
    SameEnds(ArchiveHost, Stamp(a), Stamp(b), ArchiveSuffix);
    var ya, ma, da, ha := Text.IntToString(a.date.year), Text.Pad2(a.date.month),
                          Text.Pad2(a.date.day), Text.IntToString(a.hour);
    var yb, mb, db, hb := Text.IntToString(b.date.year), Text.Pad2(b.date.month),
                          Text.Pad2(b.date.day), Text.IntToString(b.hour);
    Text.DigitsHaveNoDash(ha);
    Text.DigitsHaveNoDash(hb);
    Text.DigitsHaveNoDash(da);
    Text.DigitsHaveNoDash(db);
    Text.DigitsHaveNoDash(ma);
    Text.DigitsHaveNoDash(mb);
    SplitLast(ya + "-" + ma + "-" + da, ha, yb + "-" + mb + "-" + db, hb, '-');
    SplitLast(ya + "-" + ma, da, yb + "-" + mb, db, '-');
    SplitLast(ya, ma, yb, mb, '-');
    Text.IntToStringInjective(a.date.year, b.date.year);
    Text.IntToStringInjective(a.hour, b.hour);
  }

  /** No URL occurs twice in the list `github_uri_list` builds. */
  lemma ArchiveUrlsDistinct(start: Instant, end: Instant, i: nat, j: nat)
    requires i < j < |ArchiveUrls(start, end)|
    ensures ArchiveUrls(start, end)[i] != ArchiveUrls(start, end)[j]
  {
    var addresses := Addresses(start, end);
    AddressesDistinct(start, end, i, j);
    if ArchiveUrls(start, end)[i] == ArchiveUrls(start, end)[j] {
      assert Url(addresses[i]) == Url(addresses[j]);
      UrlInjective(addresses[i], addresses[j]);
    }
  }

  /** Day 19359 at 05:00 is the address 2023-01-02, hour 5. */
  lemma KnownAddress(y: int, t: Instant)
    requires y == 2023 && t == 19359 * SecondsPerDay + 5 * SecondsPerHour
    ensures AddressOf(t) == Address(Date(y, 1, 2), 5)
  {
    NewYearNumber(y);
    DaysFromCivilInverse(Date(y, 1, 2));
    assert DayNumber(t) == 19359 && HourOf(t) == 5;
  }

  /** The address 2023-01-02, hour 5, is named `2023-01-02-5`: the month and day padded, the hour not. */
  lemma KnownStamp(y: int)
    requires y == 2023
    ensures Stamp(Address(Date(y, 1, 2), 5)) == "2023-01-02-5"
  {
    var ys, ms, ds, hs := Text.IntToString(y), Text.Pad2(1), Text.Pad2(2), Text.IntToString(5);
    assert ys == "2023" by {
      assert Text.IntToString(2023) == "2023";
    }
    assert ms == "01" && ds == "02" && hs == "5";
    assert Stamp(Address(Date(y, 1, 2), 5)) == ys + "-" + ms + "-" + ds + "-" + hs;
  }

  /** An instant of 2023-01-02 at 05:00 has the archive of that date and hour. */
  lemma KnownUrl(y: int, t: Instant)
    requires y == 2023 && t == 19359 * SecondsPerDay + 5 * SecondsPerHour
    ensures ArchiveUrl(t) == "http://data.githubarchive.org/2023-01-02-5.json.gz"
  {
    KnownAddress(y, t);
    KnownStamp(y);
  }

  /** The instants visited are strictly increasing, so the loop never revisits one. */
  lemma DayStepsIncreasing(start: Instant, end: Instant, i: nat, j: nat)
    requires i < j < |DaySteps(start, end)|
    ensures DaySteps(start, end)[i] < DaySteps(start, end)[j]
  {
    DayStepsAt(start, end, i);
    DayStepsAt(start, end, j);
  }

  /** One step follows another by one day, and the step after the last one passes end. */
  lemma DayStepsNext(start: Instant, end: Instant, k: nat)
    requires k < |DaySteps(start, end)|
    ensures k + 1 < |DaySteps(start, end)| ==>
      DaySteps(start, end)[k + 1] == DaySteps(start, end)[k] + SecondsPerDay
    ensures k + 1 == |DaySteps(start, end)| ==> end < DaySteps(start, end)[k] + SecondsPerDay
  {
    DayStepsAt(start, end, k);
    if k + 1 < |DaySteps(start, end)| {
      DayStepsAt(start, end, k + 1);
    } else {
      DayStepsComplete(start, end);
    }
  }

  /** The URL at position k of the window is the URL of the k-th day step. */
  lemma ArchiveUrlsAt(start: Instant, end: Instant, k: nat, day: Instant)
    requires k < |DaySteps(start, end)|
    requires day == DaySteps(start, end)[k]
    ensures |ArchiveUrls(start, end)| == |DaySteps(start, end)|
    ensures ArchiveUrls(start, end)[k] == ArchiveUrl(day)
  {
  }

  /** Appending the next element to a prefix gives the next prefix. */
  lemma PrefixStep<T>(s: seq<T>, p: seq<T>, x: T)
    requires |p| < |s| && p == s[..|p|] && s[|p|] == x
    ensures p + [x] == s[..|p| + 1]
  {
    assert s[..|p| + 1] == s[..|p|] + [s[|p|]];
  }

  /** `github_uri_list`: appends one URL per day step in an `until` loop. */
  method UriList(startDate: Instant, endDate: Instant) returns (uriList: seq<string>)
    ensures uriList == ArchiveUrls(startDate, endDate)
  {
    ghost var steps := DaySteps(startDate, endDate);
    ghost var urls := ArchiveUrls(startDate, endDate);
    uriList := [];
    var getDay := startDate;
    while !(endDate < getDay)
      invariant |uriList| <= |steps| == |urls|
      invariant uriList == urls[..|uriList|]
      invariant |uriList| < |steps| ==> getDay == steps[|uriList|]
      invariant |uriList| == |steps| ==> endDate < getDay
      decreases |steps| - |uriList|
    {
      DayStepsNext(startDate, endDate, |uriList|);
      ArchiveUrlsAt(startDate, endDate, |uriList|, getDay);
      PrefixStep(urls, uriList, ArchiveUrl(getDay));
      uriList := uriList + [ArchiveUrl(getDay)];
      getDay := getDay + SecondsPerDay;
    }
    if |uriList| < |steps| {
      DayStepsAt(startDate, endDate, |uriList|);
    }
    assert urls[..|urls|] == urls;
  }
}
