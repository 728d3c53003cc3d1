/**
 * The repository key: the URL with every match of the pattern `http`, an
 * optional `s`, `://github`, any one character, `com/` deleted. The
 * pattern is removed wherever it occurs, scanning left to right without
 * overlaps, and its `.` is Ruby's wildcard (any character but a newline).
 */
module RepoKey {

  const HttpPrefix := "http://github.com/"
  const HttpsPrefix := "https://github.com/"

  /** Length of the pattern's match at the very start of s, or 0 when it does not match there. */
  function HostMatch(s: string): (n: nat)
    ensures n == 0 || n == 18 || n == 19
    ensures n <= |s|
  {
    if |s| < 18 || s[0] != 'h' then 0
    else if |s| >= 19 && s[..5] == "https" && s[5..14] == "://github" && s[14] != '\n'
       && s[15..19] == "com/" then 19
    else if |s| >= 18 && s[..4] == "http" && s[4..13] == "://github" && s[13] != '\n'
       && s[14..18] == "com/" then 18
    else 0
  }

  /** The pattern occurs nowhere in s. */
  predicate NoHostPattern(s: string) {
    forall i :: 0 <= i <= |s| ==> HostMatch(s[i..]) == 0
  }

  /** `gsub` of the pattern with the empty string. */
  function StripHost(s: string): (r: string)
    ensures |r| <= |s|
    decreases |s|
  {
    if s == [] then []
    else if HostMatch(s) > 0 then StripHost(s[HostMatch(s)..])
    else [s[0]] + StripHost(s[1..])
  }

  /** The key is exactly as long as the URL when the pattern occurs nowhere in it, and shorter otherwise. */
  lemma {:induction false} StripHostShortens(s: string)
    ensures |StripHost(s)| == |s| <==> NoHostPattern(s)
    decreases |s|
  {
    if s != [] {
      NoHostPatternStep(s);
      if HostMatch(s) > 0 {
        assert s[0..] == s;
      } else {
        StripHostShortens(s[1..]);
      }
    }
  }

  /** The pattern is absent from s exactly when it does not match at the front nor in the rest. */
  lemma NoHostPatternStep(s: string)
    requires s != []
    ensures NoHostPattern(s) <==> HostMatch(s) == 0 && NoHostPattern(s[1..])
  {
    assert s[0..] == s;
    assert forall i :: 0 <= i <= |s[1..]| ==> s[1..][i..] == s[i + 1..];
    if HostMatch(s) == 0 && NoHostPattern(s[1..]) {
      forall i | 0 <= i <= |s| ensures HostMatch(s[i..]) == 0 {
        if i > 0 {
          assert s[i..] == s[1..][i - 1..];
        }
      }
    }
  }

  /** A string that does not contain the pattern is its own key. */
  lemma {:induction false} StripHostNoPattern(s: string)
    requires NoHostPattern(s)
    ensures StripHost(s) == s
    decreases |s|
  {
    if s != [] {
      assert HostMatch(s[0..]) == 0 && s[0..] == s;
      assert forall i :: 0 <= i <= |s[1..]| ==> s[1..][i..] == s[i + 1..];
      StripHostNoPattern(s[1..]);
    }
  }

  /** Strings shorter than the shorter match cannot contain the pattern. */
  lemma ShortHasNoPattern(s: string)
    requires |s| < 18
    ensures NoHostPattern(s)
  {
  }

  /** `http://github`, any character but a newline, then `com/`, is removed from the front. */
  lemma HttpWildcard(c: char, path: string)
    requires c != '\n' && NoHostPattern(path)
    ensures StripHost("http://github" + [c] + "com/" + path) == path
  {
    var a := "http://github" + [c] + "com/" + path;
    assert a[..4] == "http" && a[4..13] == "://github" && a[13] == c && a[14..18] == "com/";
    assert a[..5] != "https" by { assert a[4] == ':'; }
    assert HostMatch(a) == 18 && a[18..] == path;
    StripHostNoPattern(path);
  }

  /** `https://github`, any character but a newline, then `com/`, is removed from the front. */
  lemma HttpsWildcard(c: char, path: string)
    requires c != '\n' && NoHostPattern(path)
    ensures StripHost("https://github" + [c] + "com/" + path) == path
  {
    var b := "https://github" + [c] + "com/" + path;
    assert b[..5] == "https" && b[5..14] == "://github" && b[14] == c && b[15..19] == "com/";
    assert HostMatch(b) == 19 && b[19..] == path;
    StripHostNoPattern(path);
  }

  /**
   * The dot of the pattern is a wildcard: `http://github` and `https://github`,
   * any character but a newline, then `com/`, are removed from the front.
   */
  lemma StripHostWildcard(c: char, path: string)
    requires c != '\n' && NoHostPattern(path)
    ensures StripHost("http://github" + [c] + "com/" + path) == path
    ensures StripHost("https://github" + [c] + "com/" + path) == path
  {
    HttpWildcard(c, path);
    HttpsWildcard(c, path);
  }

  /** Both `http://github.com/owner/repo` and `https://github.com/owner/repo` give `owner/repo`. */
  lemma StripHostPrefix(path: string)
    requires NoHostPattern(path)
    ensures StripHost(HttpPrefix + path) == path
    ensures StripHost(HttpsPrefix + path) == path
  {
    assert HttpPrefix + path == "http://github" + ['.'] + "com/" + path;
    assert HttpsPrefix + path == "https://github" + ['.'] + "com/" + path;
    StripHostWildcard('.', path);
  }

  /** A character other than `h` cannot start a match and is kept. */
  lemma StripHostKeeps(c: char, s: string)
    requires c != 'h'
    ensures StripHost([c] + s) == [c] + StripHost(s)
  {
    var t := [c] + s;
    assert t[1..] == s;
    assert HostMatch(t) == 0 by { assert t[0] == c; }
  }

  /** Text without an `h` cannot take part in a match and is kept as it is. */
  lemma {:induction false} StripHostKeepsPrefix(pre: string, rest: string)
    requires forall i :: 0 <= i < |pre| ==> pre[i] != 'h'
    ensures StripHost(pre + rest) == pre + StripHost(rest)
    decreases |pre|
  {
    if pre == [] {
      assert pre + rest == rest;
    } else {
      var c, tail := pre[0], pre[1..];
      assert pre + rest == [c] + (tail + rest);
      assert pre + StripHost(rest) == [c] + (tail + StripHost(rest));
      StripHostKeepsPrefix(tail, rest);
      StripHostKeeps(c, tail + rest);
    }
  }

  /**
   * The removal is not anchored at the start: a host prefix after text
   * without an `h` is removed as well.
   */
  lemma StripHostUnanchored(pre: string, path: string)
    requires forall i :: 0 <= i < |pre| ==> pre[i] != 'h'
    requires NoHostPattern(path)
    ensures StripHost(pre + HttpsPrefix + path) == pre + path
  {
    assert pre + HttpsPrefix + path == pre + (HttpsPrefix + path);
    StripHostKeepsPrefix(pre, HttpsPrefix + path);
    StripHostPrefix(path);
  }
}
