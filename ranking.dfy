/**
 * Ranking and display: the rows sorted by count, largest first, and
 * `display_results`.
 */
module Ranking {
  import opened Aggregation
  import Text

  /** Counts never increase along s. */
  predicate SortedByCount(s: seq<Entry>) {
    forall i, j :: 0 <= i < j < |s| ==> s[i].1 >= s[j].1
  }

  /** A row with a count no smaller than any in an ordered t can go in front of t. */
  lemma ConsSorted(x: Entry, t: seq<Entry>)
    requires SortedByCount(t)
    requires forall i :: 0 <= i < |t| ==> t[i].1 <= x.1
    ensures SortedByCount([x] + t)
  {
    var r := [x] + t;
    forall i, j | 0 <= i < j < |r| ensures r[i].1 >= r[j].1 {
      if i > 0 {
        assert r[i] == t[i - 1] && r[j] == t[j - 1];
      }
    }
  }

  /** Puts e into an ordered s before the first row with a smaller count. */
  function InsertByCount(e: Entry, s: seq<Entry>): (r: seq<Entry>)
    requires SortedByCount(s)
    ensures SortedByCount(r)
    ensures multiset(r) == multiset(s) + multiset{e}
    ensures forall x :: x in r <==> x in s || x == e
    ensures |r| == |s| + 1
  {
    if s == [] || s[0].1 <= e.1 then
      ConsSorted(e, s);
      [e] + s
    else
      assert s == [s[0]] + s[1..];
      var rest := InsertByCount(e, s[1..]);
      assert forall i :: 0 <= i < |rest| ==> rest[i].1 <= s[0].1 by {
        forall i | 0 <= i < |rest| ensures rest[i].1 <= s[0].1 {
          assert rest[i] in rest;
        }
      }
      ConsSorted(s[0], rest);
      [s[0]] + rest
  }

  /**
   * The rows ordered by count, largest first. Ruby's sort is not stable; the
   * order this model chooses among equal counts is not part of the contract.
   */
  function SortByCount(s: seq<Entry>): (r: seq<Entry>)
    ensures SortedByCount(r)
    ensures multiset(r) == multiset(s)
    ensures |r| == |s|
  {
    if s == [] then []
    else
      assert s == [s[0]] + s[1..];
      InsertByCount(s[0], SortByCount(s[1..]))
  }

  /** Two rows already in order are left as they are. */
  lemma SortPair(x: Entry, y: Entry)
    requires y.1 <= x.1
    ensures SortByCount([x, y]) == [x, y]
  {
    var s: seq<Entry> := [x, y];
    var tail := s[1..];
    assert tail == [y] && |tail[1..]| == 0;
  }

  /** Every ranked row is an aggregate row: a key seen, with its number of occurrences. */
  lemma RankedRows(keys: seq<string>)
    ensures forall i :: 0 <= i < |SortByCount(Entries(keys))| ==>
      && SortByCount(Entries(keys))[i].0 in keys
      && SortByCount(Entries(keys))[i].1 == Occurrences(keys, SortByCount(Entries(keys))[i].0)
  {
    var entries := Entries(keys);
    var ranked := SortByCount(entries);
    FirstOccurrencesFacts(keys);
    forall i | 0 <= i < |ranked|
      ensures ranked[i].0 in keys && ranked[i].1 == Occurrences(keys, ranked[i].0)
    {
      assert ranked[i] in multiset(entries);
      var k :| 0 <= k < |entries| && entries[k] == ranked[i];
      assert FirstOccurrences(keys)[k] in FirstOccurrences(keys);
    }
  }

  /** A value at two positions of s occurs at least twice in multiset(s). */
  lemma TwoPositions<T>(s: seq<T>, i: nat, j: nat)
    requires i < j < |s| && s[i] == s[j]
    ensures multiset(s)[s[i]] >= 2
  {
    assert s == s[..i] + [s[i]] + s[i + 1..j] + [s[j]] + s[j + 1..];
  }

  /** A value at exactly one position of s occurs once in multiset(s). */
  lemma OnePosition<T>(s: seq<T>, k: nat)
    requires k < |s|
    requires forall i :: 0 <= i < |s| && i != k ==> s[i] != s[k]
    ensures multiset(s)[s[k]] == 1
  {
    assert s == s[..k] + [s[k]] + s[k + 1..];
    assert s[k] !in s[..k];
    assert s[k] !in s[k + 1..];
  }

  /** Reordering rows with distinct keys keeps the keys distinct. */
  lemma PermutationKeepsKeysDistinct(s: seq<Entry>, r: seq<Entry>, i: nat, j: nat)
    requires multiset(r) == multiset(s)
    requires forall a, b :: 0 <= a < b < |s| ==> s[a].0 != s[b].0
    requires i < j < |r|
    ensures r[i].0 != r[j].0
  {
    if r[i].0 == r[j].0 {
      assert r[i] in multiset(s) && r[j] in multiset(s);
      var k :| 0 <= k < |s| && s[k] == r[i];
      var l :| 0 <= l < |s| && s[l] == r[j];
      assert k == l;
      TwoPositions(r, i, j);
      OnePosition(s, k);
    }
  }

  /** No repository is ranked twice. */
  lemma RankedKeysDistinct(keys: seq<string>)
    ensures forall i, j :: 0 <= i < j < |SortByCount(Entries(keys))| ==>
      SortByCount(Entries(keys))[i].0 != SortByCount(Entries(keys))[j].0
  {
    var entries := Entries(keys);
    var ranked := SortByCount(entries);
    FirstOccurrencesFacts(keys);
    assert forall a, b :: 0 <= a < b < |entries| ==> entries[a].0 != entries[b].0;
    forall i, j | 0 <= i < j < |ranked| ensures ranked[i].0 != ranked[j].0 {
      PermutationKeepsKeysDistinct(entries, ranked, i, j);
    }
  }

  /** In an ordered list, no row after the printed ones has a higher count than a printed one. */
  lemma DisplayedAreTop(s: seq<Entry>, limit: int)
    requires SortedByCount(s)
    ensures forall i, j :: 0 <= i < |DisplayLines(s, limit)| <= j < |s| ==> s[j].1 <= s[i].1
  {
  }

  /** The printed line of a row: the key, a colon and a space, the count, then ` events`. */
  function ResultLine(e: Entry): string {
    e.0 + ": " + Text.NatToString(e.1) + " events"
  }

  /** `record_limit`: the limit, or the number of rows when there are fewer. */
  function RecordLimit(rows: nat, limit: int): int {
    if rows < limit then rows else limit
  }

  /** The lines `display_results` prints. */
  function DisplayLines(events: seq<Entry>, limit: int): seq<string> {
    var n := if RecordLimit(|events|, limit) < 0 then 0 else RecordLimit(|events|, limit);
    seq(n, i requires 0 <= i < n => ResultLine(events[i]))
  }

  /** Under a limit of at least two, two rows print as their two lines. */
  lemma DisplayPair(x: Entry, y: Entry, limit: int)
    requires 2 <= limit
    ensures DisplayLines([x, y], limit) == [ResultLine(x), ResultLine(y)]
  {
    var lines := DisplayLines([x, y], limit);
    assert |lines| == 2 && lines[0] == ResultLine(x) && lines[1] == ResultLine(y);
  }

  /**
   * `display_results`: one line per row for the first `record_limit` rows
   * (`Integer#times` does nothing for a count below 1).
   */
  method DisplayResults(events: seq<Entry>, limit: int) returns (lines: seq<string>)
    ensures |lines| == if limit < 0 then 0 else if |events| < limit then |events| else limit
    ensures forall i :: 0 <= i < |lines| ==> lines[i] == ResultLine(events[i])
    ensures lines == DisplayLines(events, limit)
  {
    var recordLimit := if |events| < limit then |events| else limit;
    lines := [];
    var row := 0;
    while row < recordLimit
      invariant 0 <= row
      invariant if recordLimit < 0 then row == 0 else row <= recordLimit
      invariant row <= |events|
      invariant |lines| == row
      invariant forall i :: 0 <= i < row ==> lines[i] == ResultLine(events[i])
    {
      lines := lines + [ResultLine(events[row])];
      row := row + 1;
    }
  }
}
