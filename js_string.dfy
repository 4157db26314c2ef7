/** The few JavaScript `String.prototype` methods the application relies on:
    `toLowerCase` (restricted to ASCII), `indexOf`, `lastIndexOf`, `includes`
    and `slice`, on strings seen as sequences of characters. */
module JsString {

  /** `p` occurs in `s` at index `i`. */
  predicate OccursAt(s: string, p: string, i: int)
  {
    0 <= i && i + |p| <= |s| && s[i..i + |p|] == p
  }

  /** `p` occurs somewhere in `s`: the meaning of `s.includes(p)`. */
  ghost predicate Occurs(s: string, p: string)
  {
    exists i :: OccursAt(s, p, i)
  }

  /** A one-character pattern occurs exactly where that character stands. */
  lemma OccursAtChar(s: string, c: char, i: int)
    ensures OccursAt(s, [c], i) <==> 0 <= i < |s| && s[i] == c
  {
  }

  // ---------------------------------------------------------------------
  // indexOf / lastIndexOf / includes

  /** The first occurrence of `p` in `s` at or after `k`, or -1. */
  function IndexOfFrom(s: string, p: string, k: nat): (r: int)
    decreases |s| + 1 - k
    ensures r == -1 || (k <= r && OccursAt(s, p, r))
    ensures forall i :: k <= i && (r == -1 || i < r) ==> !OccursAt(s, p, i)
  {
    if k + |p| > |s| then -1
    else if OccursAt(s, p, k) then k
    else IndexOfFrom(s, p, k + 1)
  }

  /** `s.indexOf(p)`: the least index where `p` occurs, or -1 when it does not. */
  function IndexOf(s: string, p: string): (r: int)
    ensures r == -1 <==> !Occurs(s, p)
    ensures r != -1 ==> OccursAt(s, p, r) && forall i :: 0 <= i < r ==> !OccursAt(s, p, i)
  {
    IndexOfFrom(s, p, 0)
  }

  /** The last occurrence of `p` in `s` at or before `k`, or -1. */
  function LastIndexOfAtMost(s: string, p: string, k: int): (r: int)
    decreases k + 1
    ensures r == -1 || (0 <= r <= k && OccursAt(s, p, r))
    ensures forall i :: r < i <= k ==> !OccursAt(s, p, i)
  {
    if k < 0 then -1
    else if OccursAt(s, p, k) then k
    else LastIndexOfAtMost(s, p, k - 1)
  }

  /** `s.lastIndexOf(p)`: the greatest index where `p` occurs, or -1 when it does not. */
  function LastIndexOf(s: string, p: string): (r: int)
    ensures r == -1 <==> !Occurs(s, p)
    ensures r != -1 ==> OccursAt(s, p, r) && forall i :: r < i ==> !OccursAt(s, p, i)
  {
    LastIndexOfAtMost(s, p, |s|)
  }

  /** `s.includes(p)`. */
  function Includes(s: string, p: string): (b: bool)
    ensures b <==> Occurs(s, p)
  {
    IndexOf(s, p) != -1
  }

  /** For one character, `indexOf` finds where it first stands. */
  lemma IndexOfChar(s: string, c: char)
    ensures var i := IndexOf(s, [c]);
      (i == -1 <==> c !in s) &&
      (i != -1 ==> 0 <= i < |s| && s[i] == c && c !in s[..i])
  {
    var i := IndexOf(s, [c]);
    if c in s {
      var k :| 0 <= k < |s| && s[k] == c;
      OccursAtChar(s, c, k);
    }
    if i != -1 {
      OccursAtChar(s, c, i);
      var before := s[..i];
      forall m | 0 <= m < |before|
        ensures before[m] != c
      {
        OccursAtChar(s, c, m);
      }
    }
  }

  /** For one character, `lastIndexOf` finds where it last stands. */
  lemma LastIndexOfChar(s: string, c: char)
    ensures var j := LastIndexOf(s, [c]);
      (j == -1 <==> c !in s) &&
      (j != -1 ==> 0 <= j < |s| && s[j] == c && c !in s[j + 1..])
  {
    LastIndexOfCharFound(s, c);
    LastIndexOfCharAfter(s, c);
  }

  lemma LastIndexOfCharFound(s: string, c: char)
    ensures var j := LastIndexOf(s, [c]);
      (j == -1 <==> c !in s) && (j != -1 ==> 0 <= j < |s| && s[j] == c)
  {
    var j := LastIndexOf(s, [c]);
    if c in s {
      var k :| 0 <= k < |s| && s[k] == c;
      OccursAtChar(s, c, k);
    }
    if j != -1 {
      OccursAtChar(s, c, j);
    }
  }

  lemma LastIndexOfCharAfter(s: string, c: char)
    ensures var j := LastIndexOf(s, [c]); j != -1 ==> c !in s[j + 1..]
  {
    var j := LastIndexOf(s, [c]);
    if j != -1 {
      var after := s[j + 1..];
      forall m | 0 <= m < |after|
        ensures after[m] != c
      {
        OccursAtChar(s, c, j + 1 + m);
      }
    }
  }

  /** An occurrence inside `t` is still an occurrence once text is put
      around `t`: substring search is monotone. */
  lemma OccursInContext(a: string, t: string, b: string, p: string)
    requires Occurs(t, p)
    ensures Occurs(a + t + b, p)
  {
    var i :| OccursAt(t, p, i);
    var u := a + t + b;
    assert u[|a| + i..|a| + i + |p|] == t[i..i + |p|];
    assert OccursAt(u, p, |a| + i);
  }

  // ---------------------------------------------------------------------
  // slice

  /** How `slice` turns an argument into a position: a negative index counts
      back from the end and stops at 0, an index past the end stops at the end. */
  function RelativeIndex(i: int, len: nat): (r: nat)
    ensures r <= len
    ensures i < 0 && -i <= len ==> r == len + i
    ensures i < 0 && -i > len ==> r == 0
    ensures 0 <= i <= len ==> r == i
    ensures len < i ==> r == len
  {
    if i < 0 then (if len + i < 0 then 0 else len + i)
    else if i > len then len
    else i
  }

  /** `s.slice(start, end)`: the characters from the relative start up to the
      relative end, or the empty string when the end is not after the start. */
  function Slice(s: string, start: int, end: int): (r: string)
    ensures Occurs(s, r)
    ensures RelativeIndex(end, |s|) <= RelativeIndex(start, |s|) ==> r == []
    ensures RelativeIndex(start, |s|) < RelativeIndex(end, |s|) ==>
              |r| == RelativeIndex(end, |s|) - RelativeIndex(start, |s|) &&
              OccursAt(s, r, RelativeIndex(start, |s|))
  {
    var from := RelativeIndex(start, |s|);
    var to := RelativeIndex(end, |s|);
    if from < to then
      assert OccursAt(s, s[from..to], from);
      s[from..to]
    else
      assert OccursAt(s, [], 0);
      []
  }

  /** With both arguments inside the string, `slice` is plain substring. */
  lemma SliceWithinBounds(s: string, start: int, end: int)
    requires 0 <= start <= end <= |s|
    ensures Slice(s, start, end) == s[start..end]
  {
  }

  /** A start of -1 on a non-empty string means "the last character". */
  lemma SliceFromMinusOne(s: string, end: int)
    requires |s| > 0
    ensures Slice(s, -1, end) == Slice(s, |s| - 1, end)
  {
  }

  // ---------------------------------------------------------------------
  // toLowerCase, restricted to ASCII

  predicate IsAsciiUpper(c: char)
  {
    'A' <= c <= 'Z'
  }

  /** ASCII case folding of one character. */
  function LowerChar(c: char): (d: char)
    ensures !IsAsciiUpper(d)
    ensures IsAsciiUpper(c) ==> d as int == c as int + 32
    ensures !IsAsciiUpper(c) ==> d == c
  {
    if IsAsciiUpper(c) then (c as int + 32) as char else c
  }

  /** `s.toLowerCase()` for ASCII letters: every character folded, length kept. */
  function ToLowerCase(s: string): (r: string)
    ensures |r| == |s|
    ensures forall i :: 0 <= i < |s| ==> r[i] == LowerChar(s[i])
  {
    if s == [] then [] else [LowerChar(s[0])] + ToLowerCase(s[1..])
  }

  /** Lowering twice is lowering once. */
  lemma ToLowerCaseIdempotent(s: string)
    ensures ToLowerCase(ToLowerCase(s)) == ToLowerCase(s)
  {
  }

  /** Lowering works piecewise over a concatenation. */
  lemma ToLowerCaseAppend(a: string, b: string)
    ensures ToLowerCase(a + b) == ToLowerCase(a) + ToLowerCase(b)
  {
  }
}
