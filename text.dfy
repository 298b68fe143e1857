/**
 * The string operations the scraper and the cleaner rely on: Python's `str.lower`,
 * `in`, `replace(p, "")`, `strip` and `title`, restricted to ASCII, plus digit runs
 * and their integer value (`int(...)` of a run of digits).
 */
module Text {
  import opened Base

  predicate IsDigit(c: char) { '0' <= c <= '9' }

  predicate IsUpper(c: char) { 'A' <= c <= 'Z' }

  predicate IsLetter(c: char) { 'a' <= c <= 'z' || 'A' <= c <= 'Z' }

  /** The ASCII characters Python counts as whitespace (for `\s` and for `strip`). */
  predicate IsSpace(c: char) {
    var n := c as int;
    n == 32 || 9 <= n <= 13 || 28 <= n <= 31
  }

  predicate AllDigits(s: string) {
    forall i :: 0 <= i < |s| ==> IsDigit(s[i])
  }

  function LowerChar(c: char): (r: char)
    ensures !IsUpper(r)
    ensures !IsUpper(c) ==> r == c
    ensures IsLetter(r) <==> IsLetter(c)
  {
    if IsUpper(c) then (c as int + 32) as char else c
  }

  function UpperChar(c: char): (r: char)
    ensures 'a' <= c <= 'z' ==> IsUpper(r)
    ensures !('a' <= c <= 'z') ==> r == c
    ensures IsLetter(r) <==> IsLetter(c)
  {
    if 'a' <= c <= 'z' then (c as int - 32) as char else c
  }

  /** `s.lower()` on ASCII text. */
  function Lower(s: string): (r: string)
    ensures |r| == |s|
    ensures forall i :: 0 <= i < |s| ==> r[i] == LowerChar(s[i])
  {
    if s == [] then [] else [LowerChar(s[0])] + Lower(s[1..])
  }

  lemma {:induction false} LowerConcat(a: string, b: string)
    ensures Lower(a + b) == Lower(a) + Lower(b)
  {
    var l, r := Lower(a + b), Lower(a) + Lower(b);
    assert |l| == |r|;
    forall i | 0 <= i < |l| ensures l[i] == r[i] {
      if i < |a| { assert (a + b)[i] == a[i]; } else { assert (a + b)[i] == b[i - |a|]; }
    }
  }

  lemma LowerIdle(s: string)
    requires forall i :: 0 <= i < |s| ==> !IsUpper(s[i])
    ensures Lower(s) == s
  {
  }

  /** Appending text without upper case commutes with lower-casing. */
  lemma LowerAppendIdle(a: string, b: string)
    requires forall i :: 0 <= i < |b| ==> !IsUpper(b[i])
    ensures Lower(a + b) == Lower(a) + b
  {
    LowerIdle(b);
    LowerConcat(a, b);
  }

  lemma LowerIdempotent(s: string)
    ensures Lower(Lower(s)) == Lower(s)
  {
    LowerIdle(Lower(s));
  }

  /** `s.startswith(p)`. */
  function StartsWith(s: string, p: string): (r: bool)
    ensures r <==> |p| <= |s| && s[..|p|] == p
  {
    |p| == 0 || (|s| > 0 && |p| <= |s| && s[0] == p[0] && StartsWith(s[1..], p[1..]))
  }

  /** Whether `p` occurs in `s` starting at index `i`. */
  predicate At(s: string, i: nat, p: string) {
    i + |p| <= |s| && s[i..i + |p|] == p
  }

  /** Python's `p in s` for strings. */
  function Contains(s: string, p: string): (r: bool)
    ensures r <==> exists i :: 0 <= i && At(s, i, p)
  {
    if StartsWith(s, p) then
      assert At(s, 0, p);
      true
    else if |s| == 0 then
      assert forall i :: 0 <= i && At(s, i, p) ==> i == 0;
      false
    else
      var rest := Contains(s[1..], p);
      assert forall i :: 0 < i && At(s, i, p) ==> At(s[1..], i - 1, p);
      assert forall i :: 0 <= i && At(s[1..], i, p) ==> At(s, i + 1, p);
      rest
  }

  lemma ContainsAt(s: string, i: nat, p: string)
    requires At(s, i, p)
    ensures Contains(s, p)
  {
  }

  /** A string in which some character of `p` never occurs cannot contain `p`. */
  lemma MissingCharNotContained(s: string, p: string, k: nat)
    requires k < |p|
    requires forall i :: 0 <= i < |s| ==> s[i] != p[k]
    ensures !Contains(s, p)
  {
    forall i | 0 <= i && i + |p| <= |s| ensures !At(s, i, p) {
      assert s[i..i + |p|][k] == s[i + k];
    }
  }

  lemma ContainsSuffix(a: string, b: string)
    ensures Contains(a + b, b)
  {
    assert (a + b)[|a|..|a| + |b|] == b;
    ContainsAt(a + b, |a|, b);
  }

  lemma ContainsPrefix(a: string, b: string)
    ensures Contains(a + b, a)
  {
    assert (a + b)[0..|a|] == a;
    ContainsAt(a + b, 0, a);
  }

  /** A text that contains `a + b` contains `b`. */
  lemma ContainsWithin(s: string, a: string, b: string)
    requires Contains(s, a + b)
    ensures Contains(s, b)
  {
    var i :| 0 <= i && At(s, i, a + b);
    assert s[i + |a|..i + |a| + |b|] == (a + b)[|a|..];
    assert (a + b)[|a|..] == b;
    ContainsAt(s, i + |a|, b);
  }

  /** `s.replace(p, "")`: occurrences of `p` are removed left to right, without overlap. */
  function RemoveAll(s: string, p: string): (r: string)
    requires |p| > 0
    ensures |r| <= |s|
    decreases |s|
  {
    if |s| == 0 then []
    else if StartsWith(s, p) then RemoveAll(s[|p|..], p)
    else [s[0]] + RemoveAll(s[1..], p)
  }

  lemma {:induction false} RemoveAbsent(s: string, p: string)
    requires |p| > 0 && !Contains(s, p)
    ensures RemoveAll(s, p) == s
    decreases |s|
  {
    if |s| > 0 {
      assert !At(s, 0, p);
      forall i | 0 <= i && i + |p| <= |s| - 1 ensures !At(s[1..], i, p) {
        assert s[1..][i..i + |p|] == s[i + 1..i + 1 + |p|];
        assert !At(s, i + 1, p);
      }
      RemoveAbsent(s[1..], p);
    }
  }

  /** Removal of `p` from `p + rest` drops the leading occurrence first. */
  lemma RemoveLeading(p: string, rest: string)
    requires |p| > 0
    ensures RemoveAll(p + rest, p) == RemoveAll(rest, p)
  {
    assert StartsWith(p + rest, p);
    assert (p + rest)[|p|..] == rest;
  }

  /** Characters from `i` up to the first non-space (the end of a `\s*` run). */
  function SkipSpaces(s: string, i: nat): (r: nat)
    requires i <= |s|
    ensures i <= r <= |s|
    ensures forall k :: i <= k < r ==> IsSpace(s[k])
    ensures r == |s| || !IsSpace(s[r])
    decreases |s| - i
  {
    if i < |s| && IsSpace(s[i]) then SkipSpaces(s, i + 1) else i
  }

  /** Index of the last non-space character plus one (or `from` if there is none after it). */
  function TrimEndIndex(s: string, from: nat, j: nat): (r: nat)
    requires from <= j <= |s|
    ensures from <= r <= j
    ensures forall k :: r <= k < j ==> IsSpace(s[k])
    ensures r == from || !IsSpace(s[r - 1])
    decreases j
  {
    if j > from && IsSpace(s[j - 1]) then TrimEndIndex(s, from, j - 1) else j
  }

  /** `s.strip()`: leading and trailing whitespace removed. */
  function Strip(s: string): (r: string)
    ensures exists i, j :: (0 <= i <= j <= |s| && r == s[i..j]
                            && (forall k :: 0 <= k < i ==> IsSpace(s[k]))
                            && (forall k :: j <= k < |s| ==> IsSpace(s[k])))
    ensures r == [] || (!IsSpace(r[0]) && !IsSpace(r[|r| - 1]))
  {
    var i := SkipSpaces(s, 0);
    var j := TrimEndIndex(s, i, |s|);
    assert i < j ==> !IsSpace(s[i]);
    s[i..j]
  }

  lemma StripIdle(s: string)
    requires s == [] || (!IsSpace(s[0]) && !IsSpace(s[|s| - 1]))
    ensures Strip(s) == s
  {
    var i := SkipSpaces(s, 0);
    if s != [] {
      assert i == 0;
      assert TrimEndIndex(s, 0, |s|) == |s|;
    }
  }

  lemma StripIdempotent(s: string)
    ensures Strip(Strip(s)) == Strip(s)
  {
    StripIdle(Strip(s));
  }

  /** Stripping a slice of a text gives a slice of the same text. */
  lemma StripSlice(s: string, a: nat, b: nat)
    requires a <= b <= |s|
    ensures exists x, y :: a <= x <= y <= b && Strip(s[a..b]) == s[x..y]
  {
    var t := s[a..b];
    var x, y :| 0 <= x <= y <= |t| && Strip(t) == t[x..y];
    SliceOfSlice(s, a, b, x, y);
    assert a <= a + x <= a + y <= b && Strip(t) == s[a + x..a + y];
  }

  lemma SliceOfSlice(s: string, a: nat, b: nat, x: nat, y: nat)
    requires a <= b <= |s| && x <= y <= b - a
    ensures s[a..b][x..y] == s[a + x..a + y]
  {
    assert forall k :: 0 <= k < y - x ==> s[a..b][x..y][k] == s[a + x + k];
  }

  /** Stripping never adds a character. */
  lemma StripKeepsAbsent(t: string, c: char)
    requires forall k :: 0 <= k < |t| ==> t[k] != c
    ensures forall k :: 0 <= k < |Strip(t)| ==> Strip(t)[k] != c
  {
    var x, y :| 0 <= x <= y <= |t| && Strip(t) == t[x..y];
    assert forall k :: 0 <= k < |Strip(t)| ==> Strip(t)[k] == t[x + k];
  }

  /** Stripping `spaces + x` where `x` has no surrounding whitespace gives `x`. */
  lemma StripLeadingSpaces(spaces: string, x: string)
    requires forall k :: 0 <= k < |spaces| ==> IsSpace(spaces[k])
    requires x != [] && !IsSpace(x[0]) && !IsSpace(x[|x| - 1])
    ensures Strip(spaces + x) == x
  {
    var s := spaces + x;
    assert forall k :: 0 <= k < |spaces| ==> s[k] == spaces[k];
    assert s[|spaces|] == x[0];
    var i := SkipSpaces(s, 0);
    assert !IsSpace(s[|spaces|]);
    assert i == |spaces|;
    assert s[|s| - 1] == x[|x| - 1];
    assert TrimEndIndex(s, i, |s|) == |s|;
    assert s[|spaces|..|s|] == x;
  }

  /** End of the run of digits that starts at `i` (`i` itself if `s[i]` is not a digit). */
  function DigitRunEnd(s: string, i: nat): (r: nat)
    requires i <= |s|
    ensures i <= r <= |s|
    ensures forall k :: i <= k < r ==> IsDigit(s[k])
    ensures r == |s| || !IsDigit(s[r])
    decreases |s| - i
  {
    if i < |s| && IsDigit(s[i]) then DigitRunEnd(s, i + 1) else i
  }

  /** Every position inside a digit run shares the run's end. */
  lemma {:induction false} DigitRunEndInside(s: string, i: nat, j: nat)
    requires i <= |s| && i <= j <= DigitRunEnd(s, i)
    ensures DigitRunEnd(s, j) == DigitRunEnd(s, i)
    decreases j - i
  {
    if i < j {
      assert IsDigit(s[i]);
      DigitRunEndInside(s, i + 1, j);
    }
  }

  /** The digit run from `i` is a string of digits. */
  lemma DigitRunDigits(s: string, i: nat)
    requires i <= |s|
    ensures AllDigits(s[i..DigitRunEnd(s, i)])
  {
    var e := DigitRunEnd(s, i);
    forall k | 0 <= k < e - i ensures IsDigit(s[i..e][k]) {
      assert s[i..e][k] == s[i + k];
    }
  }

  /** `int(d)` for a string of ASCII digits. */
  function DigitsValue(d: string): (r: nat)
    requires AllDigits(d)
    ensures r < Pow10(|d|)
  {
    if d == [] then 0 else DigitsValue(d[..|d| - 1]) * 10 + (d[|d| - 1] as int - '0' as int)
  }

  /** `s.replace(from, to)` for single characters. */
  function ReplaceChar(s: string, from: char, to: char): (r: string)
    ensures |r| == |s|
    ensures forall i :: 0 <= i < |s| ==> r[i] == if s[i] == from then to else s[i]
  {
    if s == [] then [] else [if s[0] == from then to else s[0]] + ReplaceChar(s[1..], from, to)
  }

  /**
   * `s.title()`: a letter that follows a letter is lower-cased, any other letter is
   * upper-cased; `afterLetter` says whether the character before `s` was a letter.
   */
  function TitleFrom(s: string, afterLetter: bool): (r: string)
    ensures |r| == |s|
    ensures forall i :: 0 <= i < |s| ==> (IsLetter(r[i]) <==> IsLetter(s[i]))
    ensures forall i :: 0 <= i < |s| && !IsLetter(s[i]) ==> r[i] == s[i]
    ensures forall i :: 0 < i < |s| && IsLetter(s[i]) ==>
              r[i] == if IsLetter(s[i - 1]) then LowerChar(s[i]) else UpperChar(s[i])
    ensures |s| > 0 && IsLetter(s[0]) ==>
              r[0] == if afterLetter then LowerChar(s[0]) else UpperChar(s[0])
  {
    if s == [] then []
    else
      var c := s[0];
      var first := if !IsLetter(c) then c else if afterLetter then LowerChar(c) else UpperChar(c);
      [first] + TitleFrom(s[1..], IsLetter(c))
  }

  /** Whether a letter at `k` begins a word (it starts the text or follows a space). */
  predicate WordStart(t: string, k: int)
    requires 0 <= k < |t|
  {
    IsLetter(t[k]) && (k == 0 || t[k - 1] == ' ')
  }

  function Title(s: string): (r: string)
    ensures |r| == |s|
  {
    TitleFrom(s, false)
  }

  /** `.title()` changes only the case of letters. */
  lemma {:induction false} LowerTitleFrom(s: string, afterLetter: bool)
    ensures Lower(TitleFrom(s, afterLetter)) == Lower(s)
  {
    if s != [] {
      var c := s[0];
      var first := if !IsLetter(c) then c else if afterLetter then LowerChar(c) else UpperChar(c);
      assert TitleFrom(s, afterLetter) == [first] + TitleFrom(s[1..], IsLetter(c));
      assert LowerChar(first) == LowerChar(c);
      LowerConcat([first], TitleFrom(s[1..], IsLetter(c)));
      LowerTitleFrom(s[1..], IsLetter(c));
      LowerConcat([c], s[1..]);
      assert s == [c] + s[1..];
    }
  }
}
