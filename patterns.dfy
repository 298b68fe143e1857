/**
 * Hand-written matchers for the fixed regular expressions used by the scraper and
 * the cleaner. `re.search` reports the match that starts leftmost; for each pattern,
 * `MatchAt` says whether the regular expression (with its greedy, lazy and optional
 * parts backtracking as Python's engine does) matches starting exactly at index `i`,
 * and `Group` gives the text of its capture group there.
 */
module Patterns {
  import opened Base
  import opened Text

  /** The character classes that may separate a number from the word after it. */
  datatype Gap = NoGap | Spaces | SpacesOrDashes | SpacesOrColons

  predicate InGap(g: Gap, c: char) {
    match g
    case NoGap => false
    case Spaces => IsSpace(c)
    case SpacesOrDashes => IsSpace(c) || c == '-'
    case SpacesOrColons => IsSpace(c) || c == ':'
  }

  /** End of a greedy `[gap]*` run starting at `i`. */
  function SkipGap(s: string, i: nat, g: Gap): (r: nat)
    requires i <= |s|
    ensures i <= r <= |s|
    ensures forall k :: i <= k < r ==> InGap(g, s[k])
    ensures r == |s| || !InGap(g, s[r])
    decreases |s| - i
  {
    if i < |s| && InGap(g, s[i]) then SkipGap(s, i + 1, g) else i
  }

  datatype Pattern =
    | DigitsThen(gap: Gap, word: string)  // (\d+)[gap]*word
    | NumberThenFloor                     // (\d+)(?:st|nd|rd|th)?[\s]*(?:floor|level)
    | FloorThenNumber                     // (?:floor|level)[\s:]*(\d+)
    | Digits                              // (\d+)
    | Decimal                             // [\d.]+
    | AreaWithUnit                        // (\d{3,5})\s*(sqft|sft|ft)
    | TitleLocation                       // in\s+([^,]+?)(?:\s|$|,|\.) under re.IGNORECASE
    | UrlLocation                         // in-([^/]+)

  predicate IsDecimalChar(c: char) { IsDigit(c) || c == '.' }

  function DecimalRunEnd(s: string, i: nat): (r: nat)
    requires i <= |s|
    ensures i <= r <= |s|
    ensures forall k :: i <= k < r ==> IsDecimalChar(s[k])
    ensures r == |s| || !IsDecimalChar(s[r])
    decreases |s| - i
  {
    if i < |s| && IsDecimalChar(s[i]) then DecimalRunEnd(s, i + 1) else i
  }

  /** A run of decimal characters from `i` to `j` that stops at `j` ends there. */
  lemma {:induction false} DecimalRunEndAt(s: string, i: nat, j: nat)
    requires i <= j <= |s|
    requires forall k :: i <= k < j ==> IsDecimalChar(s[k])
    requires j == |s| || !IsDecimalChar(s[j])
    ensures DecimalRunEnd(s, i) == j
    decreases j - i
  {
    if i < j {
      DecimalRunEndAt(s, i + 1, j);
    }
  }

  predicate FloorWordAt(s: string, i: nat) {
    At(s, i, "floor") || At(s, i, "level")
  }

  predicate OrdinalAt(s: string, i: nat) {
    At(s, i, "st") || At(s, i, "nd") || At(s, i, "rd") || At(s, i, "th")
  }

  /** `(?:st|nd|rd|th)?[\s]*(?:floor|level)` from `e` on: the ordinal is tried first. */
  predicate FloorAfterNumber(s: string, e: nat)
    requires e <= |s|
  {
    (OrdinalAt(s, e) && FloorWordAt(s, SkipGap(s, e + 2, Spaces))) || FloorWordAt(s, SkipGap(s, e, Spaces))
  }

  predicate UnitAt(s: string, i: nat) {
    At(s, i, "sqft") || At(s, i, "sft") || At(s, i, "ft")
  }

  /** The characters that end the lazy location group of `TitleLocation`. */
  predicate EndsTitleLocation(c: char) { IsSpace(c) || c == ',' || c == '.' }

  function TitleLocationEnd(s: string, j: nat): (r: nat)
    requires j <= |s|
    ensures j <= r <= |s|
    ensures forall k :: j <= k < r ==> !EndsTitleLocation(s[k])
    ensures r == |s| || EndsTitleLocation(s[r])
    decreases |s| - j
  {
    if j < |s| && !EndsTitleLocation(s[j]) then TitleLocationEnd(s, j + 1) else j
  }

  function SlashIndex(s: string, j: nat): (r: nat)
    requires j <= |s|
    ensures j <= r <= |s|
    ensures forall k :: j <= k < r ==> s[k] != '/'
    ensures r == |s| || s[r] == '/'
    decreases |s| - j
  {
    if j < |s| && s[j] != '/' then SlashIndex(s, j + 1) else j
  }

  /**
   * Whether the pattern matches starting exactly at `i`.
   *  - A `(\d+)` that is followed by something other than a digit only matches the whole
   *    run from `i`: giving digits back leaves a digit where the rest must start.
   *  - `(\d{3,5})` therefore needs the run from `i` to be 3 to 5 digits long.
   *  - In `in\s+([^,]+?)(...)`, the whole whitespace run is tried first; the group then
   *    cannot start at a comma or at the end of the text. Giving one whitespace
   *    character back lets the group be that single character, which matches whenever
   *    the run had two or more characters.
   */
  predicate MatchAt(p: Pattern, s: string, i: nat)
    requires i < |s|
  {
    match p
    case DigitsThen(g, w) =>
      IsDigit(s[i]) && At(s, SkipGap(s, DigitRunEnd(s, i), g), w)
    case NumberThenFloor =>
      IsDigit(s[i]) && FloorAfterNumber(s, DigitRunEnd(s, i))
    case FloorThenNumber =>
      FloorWordAt(s, i) &&
      var j := SkipGap(s, i + 5, SpacesOrColons);
      j < |s| && IsDigit(s[j])
    case Digits => IsDigit(s[i])
    case Decimal => IsDecimalChar(s[i])
    case AreaWithUnit =>
      var e := DigitRunEnd(s, i);
      3 <= e - i <= 5 && UnitAt(s, SkipGap(s, e, Spaces))
    case TitleLocation =>
      i + 2 <= |s| && LowerChar(s[i]) == 'i' && LowerChar(s[i + 1]) == 'n' &&
      var q := SkipGap(s, i + 2, Spaces);
      q > i + 2 && ((q < |s| && s[q] != ',') || q >= i + 4)
    case UrlLocation =>
      At(s, i, "in-") && i + 3 < |s| && s[i + 3] != '/'
  }

  /** The text of the capture group (the whole match for `Decimal`) of a match at `i`. */
  function GroupAt(p: Pattern, s: string, i: nat): string
    requires i < |s| && MatchAt(p, s, i)
  {
    match p
    case FloorThenNumber =>
      var j := SkipGap(s, i + 5, SpacesOrColons);
      s[j..DigitRunEnd(s, j)]
    case Decimal => s[i..DecimalRunEnd(s, i)]
    case TitleLocation =>
      var q := SkipGap(s, i + 2, Spaces);
      if q < |s| && s[q] != ',' then s[q..TitleLocationEnd(s, q + 1)] else [s[q - 1]]
    case UrlLocation => s[i + 3..SlashIndex(s, i + 3)]
    case _ => s[i..DigitRunEnd(s, i)]
  }

  /** `re.search` from index `i` on: the leftmost start at which the pattern matches. */
  function LeftmostFrom(p: Pattern, s: string, i: nat): (r: Option<nat>)
    ensures r.Some? ==> i <= r.value < |s| && MatchAt(p, s, r.value)
    ensures r.Some? ==> forall j :: i <= j < r.value ==> !MatchAt(p, s, j)
    ensures r.None? ==> forall j :: i <= j < |s| ==> !MatchAt(p, s, j)
    decreases |s| - i
  {
    if i >= |s| then None
    else if MatchAt(p, s, i) then Some(i)
    else LeftmostFrom(p, s, i + 1)
  }

  function Search(p: Pattern, s: string): Option<nat> {
    LeftmostFrom(p, s, 0)
  }

  /** `match.group(1)` of `re.search(p, s)`, or `None` when nothing matches. */
  function Group(p: Pattern, s: string): Option<string> {
    match Search(p, s)
    case None => None
    case Some(i) => Some(GroupAt(p, s, i))
  }

  /** The patterns whose match begins with a `(\d+)` group. */
  predicate StartsWithDigits(p: Pattern) {
    p.DigitsThen? || p.NumberThenFloor? || p.Digits?
  }

  /**
   * For a pattern that begins with `(\d+)`, the leftmost match starts where a run of
   * digits starts, so the captured number is a whole digit run of the text and every
   * earlier digit run fails the pattern.
   */
  lemma LeftmostIsWholeRun(p: Pattern, s: string)
    requires StartsWithDigits(p) && Search(p, s).Some?
    ensures var k := Search(p, s).value;
            (k == 0 || !IsDigit(s[k - 1])) && GroupAt(p, s, k) == s[k..DigitRunEnd(s, k)]
  {
    var k := Search(p, s).value;
    if k > 0 && IsDigit(s[k - 1]) {
      MatchExtendsBack(p, s, k);
    }
  }

  /** A `(\d+)` pattern that matches inside a digit run also matches one digit earlier. */
  lemma MatchExtendsBack(p: Pattern, s: string, k: nat)
    requires StartsWithDigits(p) && 0 < k < |s| && IsDigit(s[k - 1]) && MatchAt(p, s, k)
    ensures MatchAt(p, s, k - 1)
  {
    match p
    case DigitsThen(g, w) => DigitsThenExtendsBack(g, w, s, k);
    case NumberThenFloor => NumberThenFloorExtendsBack(s, k);
    case Digits =>
  }

  lemma DigitsThenExtendsBack(g: Gap, w: string, s: string, k: nat)
    requires 0 < k < |s| && IsDigit(s[k - 1]) && MatchAt(DigitsThen(g, w), s, k)
    ensures MatchAt(DigitsThen(g, w), s, k - 1)
  {
    assert DigitRunEnd(s, k - 1) == DigitRunEnd(s, k);
  }

  lemma NumberThenFloorExtendsBack(s: string, k: nat)
    requires 0 < k < |s| && IsDigit(s[k - 1]) && MatchAt(NumberThenFloor, s, k)
    ensures MatchAt(NumberThenFloor, s, k - 1)
  {
    assert DigitRunEnd(s, k - 1) == DigitRunEnd(s, k);
  }

  /** `[\d.]+` captures a whole run of digits and dots: the leftmost one. */
  lemma DecimalIsFirstRun(s: string)
    requires Search(Decimal, s).Some?
    ensures var k := Search(Decimal, s).value;
            (forall j :: 0 <= j < k ==> !IsDecimalChar(s[j]))
            && GroupAt(Decimal, s, k) == s[k..DecimalRunEnd(s, k)]
            && (DecimalRunEnd(s, k) == |s| || !IsDecimalChar(s[DecimalRunEnd(s, k)]))
  {
    var k := Search(Decimal, s).value;
    forall j | 0 <= j < k ensures !IsDecimalChar(s[j]) {
      assert !MatchAt(Decimal, s, j);
    }
  }

  /** `(\d{3,5})`: the captured area is a 3-to-5 digit run, so at most 99999. */
  lemma AreaGroupBounded(s: string)
    requires Search(AreaWithUnit, s).Some?
    ensures var g := GroupAt(AreaWithUnit, s, Search(AreaWithUnit, s).value);
            3 <= |g| <= 5 && AllDigits(g) && DigitsValue(g) <= 99999
  {
    var g := GroupAt(AreaWithUnit, s, Search(AreaWithUnit, s).value);
    assert DigitsValue(g) < Pow10(|g|);
    assert Pow10(3) == 1000 && Pow10(4) == 10000 && Pow10(5) == 100000;
  }

  /**
   * The title location group, once stripped, has no comma, and it is a slice of the
   * original title (the pattern works on the original text, ignoring case).
   */
  lemma TitleLocationShape(s: string)
    requires Search(TitleLocation, s).Some?
    ensures var g := Strip(GroupAt(TitleLocation, s, Search(TitleLocation, s).value));
            (forall k :: 0 <= k < |g| ==> g[k] != ',')
            && exists a, b :: 0 <= a <= b <= |s| && g == s[a..b]
  {
    var grp := GroupAt(TitleLocation, s, Search(TitleLocation, s).value);
    TitleGroupShape(s, Search(TitleLocation, s).value);
    var a, b :| 0 <= a <= b <= |s| && grp == s[a..b];
    StripSlice(s, a, b);
    StripKeepsAbsent(grp, ',');
  }

  /** The title location group of a match is a comma-free slice of the text. */
  lemma TitleGroupShape(s: string, i: nat)
    requires i < |s| && MatchAt(TitleLocation, s, i)
    ensures var grp := GroupAt(TitleLocation, s, i);
            (forall k :: 0 <= k < |grp| ==> grp[k] != ',')
            && exists a, b :: 0 <= a <= b <= |s| && grp == s[a..b]
  {
    var q := SkipGap(s, i + 2, Spaces);
    var a, b;
    if q < |s| && s[q] != ',' {
      a, b := q, TitleLocationEnd(s, q + 1);
      assert GroupAt(TitleLocation, s, i) == s[a..b];
    } else {
      a, b := q - 1, q;
      assert s[a..b] == [s[q - 1]];
      assert GroupAt(TitleLocation, s, i) == s[a..b];
    }
  }

  /** The URL location group is the non-empty text after `in-`, up to the next slash. */
  lemma UrlLocationShape(s: string)
    requires Search(UrlLocation, s).Some?
    ensures var g := GroupAt(UrlLocation, s, Search(UrlLocation, s).value);
            |g| > 0 && forall k :: 0 <= k < |g| ==> g[k] != '/'
  {
  }

  /** The first `[\d.]+` token of `s`: `re.findall(r"[\d.]+", s)[0]` when the list is non-empty. */
  function FirstDecimal(s: string): (r: Option<string>)
    ensures r.None? <==> forall k :: 0 <= k < |s| ==> !IsDecimalChar(s[k])
    ensures r.Some? ==> |r.value| > 0 && forall k :: 0 <= k < |r.value| ==> IsDecimalChar(r.value[k])
  {
    match Search(Decimal, s)
    case None =>
      assert forall k :: 0 <= k < |s| ==> !IsDecimalChar(s[k]) by {
        forall k | 0 <= k < |s| ensures !IsDecimalChar(s[k]) {
          assert !MatchAt(Decimal, s, k);
        }
      }
      None
    case Some(i) => Some(GroupAt(Decimal, s, i))
  }

  /** A match at `k` with none in `[i, k)` is what the scan from `i` finds. */
  lemma {:induction false} LeftmostIs(p: Pattern, s: string, i: nat, k: nat)
    requires i <= k < |s| && MatchAt(p, s, k)
    requires forall j :: i <= j < k ==> !MatchAt(p, s, j)
    ensures LeftmostFrom(p, s, i) == Some(k)
    decreases k - i
  {
    if i < k {
      LeftmostIs(p, s, i + 1, k);
    }
  }

  /** The first `[\d.]+` token is the maximal run of digits and dots after a prefix free of them. */
  lemma FirstDecimalIs(s: string, k: nat, e: nat)
    requires k < e <= |s|
    requires forall j :: 0 <= j < k ==> !IsDecimalChar(s[j])
    requires forall j :: k <= j < e ==> IsDecimalChar(s[j])
    requires e == |s| || !IsDecimalChar(s[e])
    ensures FirstDecimal(s) == Some(s[k..e])
  {
    LeftmostIs(Decimal, s, 0, k);
    DecimalRunEndAt(s, k, e);
  }

  /** The patterns whose capture group is a run of digits. */
  predicate NumericGroup(p: Pattern) {
    StartsWithDigits(p) || p.FloorThenNumber? || p.AreaWithUnit?
  }

  /** `int(match.group(1))` of `re.search(p, s)`, or `None` when nothing matches. */
  function IntGroup(p: Pattern, s: string): (r: Option<nat>)
    requires NumericGroup(p)
    ensures r.None? <==> Search(p, s).None?
  {
    match Search(p, s)
    case None => None
    case Some(i) =>
      var g := GroupAt(p, s, i);
      assert AllDigits(g);
      Some(DigitsValue(g))
  }
}
