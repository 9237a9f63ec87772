/**
 * The few string operations of JavaScript that the analysis relies on:
 * `startsWith`, `endsWith`, `includes`, `indexOf`, `split('.')[1]` and
 * `join`. Strings are sequences of characters; `p <= s` is `s.startsWith(p)`.
 */
module Text {
  import opened Wrappers

  /** `s.endsWith(suffix)`. */
  predicate EndsWith(s: string, suffix: string) {
    |suffix| <= |s| && s[|s| - |suffix|..] == suffix
  }

  /** `s.includes(sub)`: `sub` occurs in `s` at some position. */
  predicate Contains(s: string, sub: string)
    decreases |s|
  {
    sub <= s || (|s| > 0 && Contains(s[1..], sub))
  }

  /** `Contains` holds exactly when `sub` starts at some position of `s`. */
  lemma {:induction false} ContainsIff(s: string, sub: string)
    ensures Contains(s, sub) <==> exists i :: 0 <= i <= |s| && sub <= s[i..]
    decreases |s|
  {
    if sub <= s {
      assert s[0..] == s;
    } else if |s| > 0 {
      ContainsIff(s[1..], sub);
      if Contains(s[1..], sub) {
        var i :| 0 <= i <= |s[1..]| && sub <= s[1..][i..];
        assert s[1..][i..] == s[i + 1..];
      }
      if i :| 0 <= i <= |s| && sub <= s[i..] {
        assert i != 0;
        assert s[1..][i - 1..] == s[i..];
      }
    } else {
      assert forall i :: 0 <= i <= |s| ==> s[i..] == [];
    }
  }

  /** The position of the first `c` in `s`, as `s.indexOf(c)` (`None` for -1). */
  function IndexOf(s: string, c: char): (r: Option<nat>)
    ensures r.None? <==> c !in s
    ensures r.Some? ==> r.value < |s| && s[r.value] == c && c !in s[..r.value]
  {
    if s == [] then None
    else if s[0] == c then Some(0)
    else match IndexOf(s[1..], c)
      case None => None
      case Some(i) =>
        assert s[..i + 1] == [s[0]] + s[1..][..i];
        Some(i + 1)
  }

  /**
   * `s.split('.')[1]`: the text between the first `.` and the next one (or
   * the end), or `None` (JavaScript's `undefined`) when `s` has no `.`.
   */
  function SecondSegment(s: string): Option<string> {
    match IndexOf(s, '.')
    case None => None
    case Some(i) =>
      var rest := s[i + 1..];
      match IndexOf(rest, '.')
      case None => Some(rest)
      case Some(j) => Some(rest[..j])
  }

  /** `seg` follows the first `.` of `s`, which is at `i`, and runs up to the next `.` or the end. */
  predicate SegmentAt(s: string, i: int, seg: string) {
    && 0 <= i < |s| && s[i] == '.' && '.' !in s[..i]
    && seg <= s[i + 1..] && '.' !in seg
    && (i + 1 + |seg| == |s| || s[i + 1 + |seg|] == '.')
  }

  /** The second segment exists exactly when `s` has a `.`, and is the dot-free text after the first one. */
  lemma SecondSegmentSound(s: string)
    ensures SecondSegment(s).None? <==> '.' !in s
    ensures SecondSegment(s).Some? ==> SegmentAt(s, IndexOf(s, '.').value, SecondSegment(s).value)
  {
    if '.' in s {
      var i := IndexOf(s, '.').value;
      var rest := s[i + 1..];
      match IndexOf(rest, '.')
      case None =>
      case Some(j) =>
        assert rest[..j] <= rest;
    }
  }

  /** Conversely, any such segment is the second segment. */
  lemma SecondSegmentComplete(s: string, i: int, seg: string)
    requires SegmentAt(s, i, seg)
    ensures SecondSegment(s) == Some(seg)
  {
    assert IndexOf(s, '.') == Some(i);
    var rest := s[i + 1..];
    assert rest[..|seg|] == seg;
    if |seg| < |rest| {
      assert rest[|seg|] == '.';
      assert IndexOf(rest, '.') == Some(|seg|);
    } else {
      assert rest == seg;
    }
  }

  /** In `a.b` with no dot in `a` or `b`, the second segment is `b`. */
  lemma SecondSegmentOfPair(a: string, b: string)
    requires '.' !in a && '.' !in b
    ensures SecondSegment(a + "." + b) == Some(b)
  {
    var s := a + "." + b;
    assert s[..|a|] == a;
    assert s[|a| + 1..] == b;
    SecondSegmentComplete(s, |a|, b);
  }

  /** `parts.join(sep)`. */
  function Join(parts: seq<string>, sep: string): string
    decreases |parts|
  {
    if parts == [] then ""
    else if |parts| == 1 then parts[0]
    else Join(parts[..|parts| - 1], sep) + sep + parts[|parts| - 1]
  }

  /** How many times `c` occurs in `s`. */
  function Count(s: string, c: char): nat
    decreases |s|
  {
    if s == [] then 0 else (if s[0] == c then 1 else 0) + Count(s[1..], c)
  }

  lemma {:induction false} CountConcat(a: string, b: string, c: char)
    ensures Count(a + b, c) == Count(a, c) + Count(b, c)
    decreases |a|
  {
    if a == [] {
      assert a + b == b;
    } else {
      assert (a + b)[1..] == a[1..] + b;
      CountConcat(a[1..], b, c);
    }
  }

  lemma {:induction false} CountAbsent(s: string, c: char)
    requires c !in s
    ensures Count(s, c) == 0
    decreases |s|
  {
    if s != [] {
      CountAbsent(s[1..], c);
    }
  }

  /**
   * Joining `n` parts none of which holds `c` with a separator that holds
   * `c` once yields `n - 1` occurrences of `c` (none for no parts).
   */
  lemma {:induction false} CountJoin(parts: seq<string>, sep: string, c: char)
    requires forall k :: 0 <= k < |parts| ==> c !in parts[k]
    requires Count(sep, c) == 1
    ensures Count(Join(parts, sep), c) == if parts == [] then 0 else |parts| - 1
    decreases |parts|
  {
    if parts == [] {
    } else if |parts| == 1 {
      CountAbsent(parts[0], c);
    } else {
      var init, last := parts[..|parts| - 1], parts[|parts| - 1];
      CountJoin(init, sep, c);
      CountAbsent(last, c);
      CountConcat(Join(init, sep), sep, c);
      CountConcat(Join(init, sep) + sep, last, c);
    }
  }
}
