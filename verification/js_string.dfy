/** The three JavaScript `String.prototype` methods the host-name extraction uses:
    `indexOf`, `slice` and `split`, over strings as sequences of characters. */
module JsString {

  /** `t` occurs in `s` starting at index `i`. */
  predicate OccursAt(s: string, t: string, i: int) {
    0 <= i && i + |t| <= |s| && s[i..i + |t|] == t
  }

  /** `t` is a contiguous substring of `s`. */
  ghost predicate IsSubstring(t: string, s: string) {
    exists i :: OccursAt(s, t, i)
  }

  /** The first index at or after `from` where `t` occurs in `s`, or -1. */
  function IndexOfFrom(s: string, t: string, from: nat): (r: int)
    requires from <= |s|
    ensures r == -1 || (from <= r && OccursAt(s, t, r))
    ensures r != -1 ==> forall i :: from <= i < r ==> !OccursAt(s, t, i)
    ensures r == -1 ==> forall i :: from <= i ==> !OccursAt(s, t, i)
    decreases |s| - from
  {
    if OccursAt(s, t, from) then from
    else if from == |s| then -1
    else IndexOfFrom(s, t, from + 1)
  }

  /** `s.indexOf(t)`: the first index where `t` occurs in `s`, or -1 when it does not occur. */
  function IndexOf(s: string, t: string): (r: int)
    ensures -1 <= r
    ensures r == -1 <==> !IsSubstring(t, s)
    ensures r != -1 ==> OccursAt(s, t, r) && forall i :: 0 <= i < r ==> !OccursAt(s, t, i)
  {
    IndexOfFrom(s, t, 0)
  }

  /** `s.slice(begin, end)` for non-negative arguments: both are clamped to the
      length of `s`, and an empty string results when the range is empty. */
  function Slice(s: string, begin: nat, end: nat): (r: string)
    ensures begin <= end <= |s| ==> r == s[begin..end]
    ensures end <= begin || |s| <= begin ==> r == []
    ensures begin <= |s| <= end ==> r == s[begin..]
  {
    var b := if begin < |s| then begin else |s|;
    var e := if end < |s| then end else |s|;
    if e <= b then [] else s[b..e]
  }

  /** `s.slice(begin)`: from `begin` to the end, empty when `begin` is past the end. */
  function SliceFrom(s: string, begin: nat): (r: string)
    ensures begin <= |s| ==> r == s[begin..]
    ensures |s| <= begin ==> r == []
  {
    Slice(s, begin, |s|)
  }

  /** `s.split(sep)` for a one-character separator: the maximal runs between
      separators, keeping the empty ones (`"".split("/")` is `[""]`,
      `"a//b".split("/")` is `["a", "", "b"]`). */
  function Split(s: string, sep: char): (r: seq<string>)
    ensures |r| >= 1
    ensures r[0] <= s
    ensures forall k :: 0 <= k < |r| ==> sep !in r[k]
    decreases |s|
  {
    if |s| == 0 then [""]
    else
      var rest := Split(s[1..], sep);
      if s[0] == sep then [""] + rest
      else [[s[0]] + rest[0]] + rest[1..]
  }

  /** The number of occurrences of `c` in `s`. */
  function Count(s: string, c: char): nat {
    if |s| == 0 then 0
    else (if s[0] == c then 1 else 0) + Count(s[1..], c)
  }

  /** `parts.join(sep)`, the inverse of `Split`. */
  function Join(parts: seq<string>, sep: char): string
    requires |parts| >= 1
  {
    if |parts| == 1 then parts[0]
    else parts[0] + [sep] + Join(parts[1..], sep)
  }

  lemma {:induction false} CountConcat(a: string, b: string, c: char)
    ensures Count(a + b, c) == Count(a, c) + Count(b, c)
    decreases |a|
  {
    if |a| == 0 {
      assert a + b == b;
    } else {
      assert (a + b)[1..] == a[1..] + b;
      CountConcat(a[1..], b, c);
    }
  }

  /** Splitting yields exactly one more segment than there are separators. */
  lemma {:induction false} SplitLength(s: string, sep: char)
    ensures |Split(s, sep)| == Count(s, sep) + 1
    decreases |s|
  {
    if |s| > 0 {
      SplitLength(s[1..], sep);
    }
  }

  /** Joining the segments with the separator gives back the original string. */
  lemma {:induction false} JoinSplit(s: string, sep: char)
    ensures Join(Split(s, sep), sep) == s
    decreases |s|
  {
    if |s| > 0 {
      var rest := Split(s[1..], sep);
      JoinSplit(s[1..], sep);
      if s[0] == sep {
        assert ([""] + rest)[1..] == rest;
      } else {
        var r := [[s[0]] + rest[0]] + rest[1..];
        assert r[1..] == rest[1..];
        if |rest| > 1 {
          assert Join(rest, sep) == rest[0] + [sep] + Join(rest[1..], sep);
        }
        assert s == [s[0]] + s[1..];
      }
    }
  }

  /** A string without the separator splits into itself alone. */
  lemma SplitWithoutSeparator(s: string, sep: char)
    requires sep !in s
    ensures Split(s, sep) == [s]
  {
    SplitLength(s, sep);
    CountAbsent(s, sep);
    JoinSplit(s, sep);
  }

  lemma {:induction false} CountAbsent(s: string, c: char)
    requires c !in s
    ensures Count(s, c) == 0
    decreases |s|
  {
    if |s| > 0 {
      assert s[0] != c;
      assert forall i :: 0 <= i < |s[1..]| ==> s[1..][i] == s[i + 1];
      CountAbsent(s[1..], c);
    }
  }

  /** A separator-free prefix followed by the separator becomes the first segment. */
  lemma {:induction false} SplitAfterSegment(a: string, sep: char, b: string)
    requires sep !in a
    ensures Split(a + [sep] + b, sep) == [a] + Split(b, sep)
    decreases |a|
  {
    var s := a + [sep] + b;
    if |a| == 0 {
      assert s[1..] == b;
    } else {
      assert s[1..] == a[1..] + [sep] + b;
      SplitAfterSegment(a[1..], sep, b);
      assert [a[0]] + a[1..] == a;
    }
  }

  /** `Split` is the only way to cut a string into separator-free segments
      that join back to it. */
  lemma {:induction false} SplitUnique(parts: seq<string>, sep: char)
    requires |parts| >= 1
    requires forall k :: 0 <= k < |parts| ==> sep !in parts[k]
    ensures Split(Join(parts, sep), sep) == parts
    decreases |parts|
  {
    if |parts| == 1 {
      SplitWithoutSeparator(parts[0], sep);
    } else {
      SplitUnique(parts[1..], sep);
      SplitAfterSegment(parts[0], sep, Join(parts[1..], sep));
    }
  }

  /** Every segment of a split is a substring of the split string. */
  lemma {:induction false} SegmentIsSubstring(s: string, sep: char, k: nat)
    requires k < |Split(s, sep)|
    ensures IsSubstring(Split(s, sep)[k], s)
    decreases |s|
  {
    var seg := Split(s, sep)[k];
    if k == 0 {
      assert OccursAt(s, seg, 0);
    } else {
      var rest := Split(s[1..], sep);
      var j := if s[0] == sep then k - 1 else k;
      assert seg == rest[j];
      SegmentIsSubstring(s[1..], sep, j);
      var i :| OccursAt(s[1..], rest[j], i);
      var inS, inRest := s[i + 1..i + 1 + |seg|], s[1..][i..i + |seg|];
      assert forall n :: 0 <= n < |inS| ==> inS[n] == inRest[n];
      assert OccursAt(s, seg, i + 1);
    }
  }

  /** A substring of a substring is a substring. */
  lemma SubstringTransitive(u: string, t: string, s: string)
    requires IsSubstring(u, t) && IsSubstring(t, s)
    ensures IsSubstring(u, s)
  {
    var i :| OccursAt(t, u, i);
    var j :| OccursAt(s, t, j);
    var inS, inT := s[j + i..j + i + |u|], t[i..i + |u|];
    assert forall n :: 0 <= n < |inS| ==> inS[n] == inT[n];
    assert OccursAt(s, u, j + i);
  }
}
