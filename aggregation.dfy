/**
 * The event count per repository key (the hash `events`): a key seen for
 * the first time is added with count 1, a known key goes up by one. Ruby
 * hashes remember the order in which keys were first added.
 */
module Aggregation {

  /** One row of the hash: a repository key and its count. */
  type Entry = (string, nat)

  /** How many times key k occurs in keys. */
  function Occurrences(keys: seq<string>, k: string): nat {
    multiset(keys)[k]
  }

  /** One increment of the hash: a new key at 1, a known key one higher, others untouched. */
  function Incremented(events: map<string, nat>, key: string): (r: map<string, nat>)
    ensures r.Keys == events.Keys + {key}
    ensures key in events ==> r[key] == events[key] + 1
    ensures key !in events ==> r[key] == 1
    ensures forall k :: k in events && k != key ==> r[k] == events[k]
  {
    if key in events then events[key := events[key] + 1] else events[key := 1]
  }

  /** The hash after incrementing each of keys in turn, starting from the empty hash. */
  function Tally(keys: seq<string>): map<string, nat> {
    if keys == [] then map[] else Incremented(Tally(keys[..|keys| - 1]), keys[|keys| - 1])
  }

  /**
   * After aggregation the keys are exactly the keys seen, and each count is
   * the number of times its key was seen, hence at least 1.
   */
  lemma {:induction false} TallyCounts(keys: seq<string>)
    ensures forall k :: k in Tally(keys) <==> k in keys
    ensures forall k :: k in Tally(keys) ==> Tally(keys)[k] == Occurrences(keys, k) >= 1
  {
    if keys != [] {
      var init, last := keys[..|keys| - 1], keys[|keys| - 1];
      assert keys == init + [last];
      TallyCounts(init);
      assert multiset(keys) == multiset(init) + multiset{last};
    }
  }

  /** A key is in the aggregate exactly when it was seen. */
  lemma TallyHas(keys: seq<string>, key: string)
    ensures key in Tally(keys) <==> key in keys
  {
    TallyCounts(keys);
  }

  /** The distinct keys, in the order in which each was first seen. */
  function FirstOccurrences(keys: seq<string>): seq<string> {
    if keys == [] then []
    else
      var r := FirstOccurrences(keys[..|keys| - 1]);
      if keys[|keys| - 1] in r then r else r + [keys[|keys| - 1]]
  }

  /** The distinct keys are exactly the keys seen, each listed once. */
  lemma {:induction false} FirstOccurrencesFacts(keys: seq<string>)
    ensures forall k :: k in FirstOccurrences(keys) <==> k in keys
    ensures forall i, j :: 0 <= i < j < |FirstOccurrences(keys)| ==>
      FirstOccurrences(keys)[i] != FirstOccurrences(keys)[j]
  {
    if keys != [] {
      var init := keys[..|keys| - 1];
      assert keys == init + [keys[|keys| - 1]];
      FirstOccurrencesFacts(init);
    }
  }

  /** The rows of the aggregate, in the hash's order, each with its number of occurrences. */
  function Entries(keys: seq<string>): (r: seq<Entry>)
    ensures |r| == |FirstOccurrences(keys)|
    ensures forall i :: 0 <= i < |r| ==> r[i].0 == FirstOccurrences(keys)[i]
    ensures forall i :: 0 <= i < |r| ==> r[i].1 == Occurrences(keys, r[i].0) >= 1
  {
    var d := FirstOccurrences(keys);
    FirstOccurrencesFacts(keys);
    assert forall i :: 0 <= i < |d| ==> Occurrences(keys, d[i]) >= 1 by {
      forall i | 0 <= i < |d| ensures d[i] in multiset(keys) {
        assert d[i] in keys;
      }
    }
    seq(|d|, i requires 0 <= i < |d| => (d[i], Occurrences(keys, d[i])))
  }

  /** Seeing one more key: how the key order changes. */
  lemma FirstOccurrencesSnoc(keys: seq<string>, key: string)
    ensures FirstOccurrences(keys + [key])
            == if key in keys then FirstOccurrences(keys) else FirstOccurrences(keys) + [key]
  {
    var ks := keys + [key];
    assert ks[..|ks| - 1] == keys && ks[|ks| - 1] == key;
    FirstOccurrencesFacts(keys);
  }

  /** Seeing one more key: how the tally and the key order change. */
  lemma SeeOneMore(keys: seq<string>, key: string)
    ensures Tally(keys + [key]) == Incremented(Tally(keys), key)
    ensures FirstOccurrences(keys + [key])
            == if key in keys then FirstOccurrences(keys) else FirstOccurrences(keys) + [key]
  {
    var ks := keys + [key];
    assert ks[..|ks| - 1] == keys && ks[|ks| - 1] == key;
    FirstOccurrencesSnoc(keys, key);
  }

  /**
   * The aggregate rows name every key seen exactly once and no other key,
   * and each row's count is the number of times its key was seen.
   */
  lemma EntriesExact(keys: seq<string>, k: string)
    ensures k in keys <==> exists i :: 0 <= i < |Entries(keys)| && Entries(keys)[i].0 == k
    ensures forall i, j :: 0 <= i < j < |Entries(keys)| ==> Entries(keys)[i].0 != Entries(keys)[j].0
  {
    var d := FirstOccurrences(keys);
    FirstOccurrencesFacts(keys);
    if k in keys {
      var i :| 0 <= i < |d| && d[i] == k;
      assert Entries(keys)[i].0 == k;
    }
  }

  /** A sequence holding only x holds no y other than x. */
  lemma OnlyHolds<T>(s: seq<T>, x: T, y: T)
    requires forall i :: 0 <= i < |s| ==> s[i] == x
    requires x != y
    ensures y !in s
  {
  }

  /** Three pushes to one repository: a single distinct key. */
  lemma FirstOccurrencesOfRepeat(a: string)
    ensures FirstOccurrences([a, a, a]) == [a]
  {
    var none: seq<string> := [];
    var one, two := [a], [a, a];
    FirstOccurrencesSnoc(none, a);
    assert none + [a] == one;
    FirstOccurrencesSnoc(one, a);
    assert one + [a] == two && one[0] == a;
    FirstOccurrencesSnoc(two, a);
    assert two + [a] == [a, a, a] && two[0] == a;
  }

  /** Three pushes to one repository and one to another: the distinct keys, in order. */
  lemma FirstOccurrencesOfRun(a: string, b: string)
    requires a != b
    ensures FirstOccurrences([a, a, a, b]) == [a, b]
  {
    var three := [a, a, a];
    FirstOccurrencesOfRepeat(a);
    FirstOccurrencesSnoc(three, b);
    OnlyHolds(three, a, b);
    assert three + [b] == [a, a, a, b];
  }

  /** Three pushes to one repository and one to another give two rows, in that order. */
  lemma EntriesOfRun(a: string, b: string)
    requires a != b
    ensures Entries([a, a, a, b]) == [(a, 3), (b, 1)]
  {
    var keys := [a, a, a, b];
    FirstOccurrencesOfRun(a, b);
    assert multiset(keys) == multiset{a, a, a, b};
    assert Occurrences(keys, a) == 3 && Occurrences(keys, b) == 1;
  }

  /** The hash `events`, updated in place during the scan of the archives. */
  class EventCounts {
    /** The keys in the order in which they were added. */
    var order: seq<string>
    /** The count of each key. */
    var counts: map<string, nat>
    /** Every key incremented so far, in order. */
    ghost var seen: seq<string>

    ghost predicate Valid()
      reads this
    {
      order == FirstOccurrences(seen) && counts == Tally(seen)
    }

    /** An empty hash. */
    constructor ()
      ensures Valid() && seen == []
    {
      order := [];
      counts := map[];
      seen := [];
    }

    /** A key already present goes up by one; a new key is inserted with count 1. */
    method Increment(key: string)
      requires Valid()
      modifies this
      ensures Valid() && seen == old(seen) + [key]
      ensures counts == Incremented(old(counts), key)
      ensures order == if key in old(counts) then old(order) else old(order) + [key]
    {
      TallyHas(seen, key);
      SeeOneMore(seen, key);
      if key in counts {
        counts := counts[key := counts[key] + 1];
      } else {
        counts := counts[key := 1];
        order := order + [key];
      }
      seen := seen + [key];
    }

    /** The hash as an array of `[key, count]` pairs, in the hash's order. */
    function Rows(): (r: seq<Entry>)
      reads this
      requires Valid()
      ensures r == Entries(seen)
    {
      var keys, hash := order, counts;
      TallyCounts(seen);
      FirstOccurrencesFacts(seen);
      seq(|keys|, i requires 0 <= i < |keys| => (keys[i], hash[keys[i]]))
    }
  }
}
