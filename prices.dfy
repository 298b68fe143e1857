/**
 * The two price normalisers: `normalize_price` of the scraper (crore, lakh/lac,
 * thousand/k, currency tokens stripped, rounded to two places) and `clean_price` of
 * the cleaner (crore and lakh only, no rounding). Python floats are modelled as exact
 * reals; `round(x, 2)` is the abstract step `Round2`.
 */
module Prices {
  import opened Base
  import opened Text
  import opened Patterns

  /**
   * What a normaliser gives back: `None`, a number, or an exception escaping it
   * (`float` refusing a token such as ".", or `[0]` of an empty match list).
   */
  datatype Outcome = Unset | Priced(amount: real) | Raises

  const Crore: nat := 10_000_000
  const Lakh: nat := 100_000
  const Thousand: nat := 1_000

  predicate IsDecimalToken(t: string) {
    forall k :: 0 <= k < |t| ==> IsDecimalChar(t[k])
  }

  /** Index of the first dot of `t`, or `|t|` when there is none. */
  function DotIndex(t: string): (r: nat)
    ensures r <= |t|
    ensures forall k :: 0 <= k < r ==> t[k] != '.'
    ensures r < |t| ==> t[r] == '.'
  {
    if t == [] || t[0] == '.' then 0 else 1 + DotIndex(t[1..])
  }

  /**
   * `float(t)` for a token of digits and dots: "12", "1.5", "1." and ".5" are numbers;
   * `ParseDecimalAccepts` says which tokens Python refuses.
   */
  function ParseDecimal(t: string): (r: Option<real>)
    requires IsDecimalToken(t)
    ensures r.Some? ==> r.value >= 0.0
  {
    var d := DotIndex(t);
    var whole := t[..d];
    var frac := if d < |t| then t[d + 1..] else [];
    if DotIndex(frac) < |frac| || |whole| + |frac| == 0 then None
    else
      assert AllDigits(whole) && AllDigits(frac) by {
        assert forall k :: 0 <= k < |frac| ==> frac[k] == t[d + 1 + k];
      }
      Some(DigitsValue(whole) as real + DigitsValue(frac) as real / Pow10(|frac|) as real)
  }

  /** `float` accepts a `[\d.]+` token exactly when it has at most one dot and some digit. */
  lemma ParseDecimalAccepts(t: string)
    requires IsDecimalToken(t)
    ensures ParseDecimal(t).Some? <==> (forall i, j :: 0 <= i < j < |t| && t[i] == '.' ==> t[j] != '.')
                                       && (exists k :: 0 <= k < |t| && IsDigit(t[k]))
  {
    var d := DotIndex(t);
    var whole := t[..d];
    var frac := if d < |t| then t[d + 1..] else [];
    assert forall k :: 0 <= k < |frac| ==> frac[k] == t[d + 1 + k];
    if DotIndex(frac) < |frac| {
      assert t[d] == '.' && t[d + 1 + DotIndex(frac)] == '.';
    } else if |whole| + |frac| == 0 {
      assert forall k :: 0 <= k < |t| ==> t[k] == '.';
    } else {
      assert forall i, j :: 0 <= i < j < |t| && t[i] == '.' ==> i == d && t[j] != '.';
      assert IsDigit(if |whole| > 0 then t[0] else t[d + 1]);
    }
  }

  /** A token made only of digits reads as the integer it spells. */
  lemma ParseDigits(d: string)
    requires |d| > 0 && AllDigits(d)
    ensures IsDecimalToken(d) && ParseDecimal(d) == Some(DigitsValue(d) as real)
  {
    assert forall k :: 0 <= k < |d| ==> d[k] != '.';
    var i := DotIndex(d);
    assert i == |d|;
    assert d[..i] == d;
    assert DotIndex([]) == 0;
    assert DigitsValue([]) == 0;
    assert Pow10(0) == 1;
  }

  /** `round(x, 2)`: the nearest multiple of 0.01, ties upward. */
  function Round2(x: real): (r: real)
    ensures -1.0 / 200.0 < r - x <= 1.0 / 200.0
    ensures x >= 0.0 ==> r >= 0.0
  {
    ((x * 100.0 + 0.5).Floor as real) / 100.0
  }

  /** An amount with at most two decimal places is left unchanged by rounding. */
  lemma Round2Exact(x: real)
    requires (x * 100.0).Floor as real == x * 100.0
    ensures Round2(x) == x
  {
    var n := (x * 100.0).Floor;
    assert (x * 100.0 + 0.5).Floor == n;
  }

  /** `value * multiplier` for a non-negative value. */
  function Scale(v: real, m: nat): (r: real)
    requires v >= 0.0
    ensures r >= 0.0
  {
    v * m as real
  }

  /** The text `normalize_price` inspects: lower-cased, `,`, `bdt` and `tk` removed, stripped. */
  function PriceText(s: string): string {
    Strip(RemoveAll(RemoveAll(RemoveAll(Lower(s), ","), "bdt"), "tk"))
  }

  /** The multiplier of `normalize_price`, by substring and in this priority. */
  function Multiplier(p: string): nat {
    if Contains(p, "crore") then Crore
    else if Contains(p, "lakh") || Contains(p, "lac") then Lakh
    else if Contains(p, "thousand") || Contains(p, "k") then Thousand
    else 1
  }

  /**
   * `normalize_price(price_str)`; a non-string argument is `None`. It is `None` exactly
   * when there is no argument or no `[\d.]+` token (an empty text has none), it raises
   * exactly when the first token is not a number, and a price is never negative
   * (`NormalizePhrase` gives its value).
   */
  function NormalizePrice(input: Option<string>): (r: Outcome)
    ensures r.Unset? <==> input.None? || FirstDecimal(PriceText(input.value)).None?
    ensures r.Raises? <==> (input.Some? && (var t := FirstDecimal(PriceText(input.value));
                                            t.Some? && ParseDecimal(t.value).None?))
    ensures r.Priced? ==> r.amount >= 0.0
  {
    match input
    case None => Unset
    case Some(s) =>
      var p := PriceText(s);
      if p == [] then Unset
      else
        match FirstDecimal(p)
        case None => Unset
        case Some(t) =>
          match ParseDecimal(t)
          case None => Raises
          case Some(v) => Priced(Round2(Scale(v, Multiplier(p))))
  }

  /**
   * `clean_price(price_str)`; a non-string argument is `None`. With "crore" or "lakh"
   * present and no `[\d.]+` token, indexing the empty match list raises.
   */
  function CleanPrice(input: Option<string>): (r: Outcome)
    ensures r.Unset? <==> (input.None? ||
              (var p := RemoveAll(Lower(input.value), ",");
               !Contains(p, "crore") && !Contains(p, "lakh") && FirstDecimal(p).None?))
    ensures r.Raises? <==> (input.Some? &&
              (var p := RemoveAll(Lower(input.value), ",");
               var t := FirstDecimal(p);
               (t.None? && (Contains(p, "crore") || Contains(p, "lakh"))) || (t.Some? && ParseDecimal(t.value).None?)))
  {
    match input
    case None => Unset
    case Some(s) =>
      var p := RemoveAll(Lower(s), ",");
      var scale: Option<nat> :=
        if Contains(p, "crore") then Some(Crore) else if Contains(p, "lakh") then Some(Lakh) else None;
      match FirstDecimal(p)
      case None => if scale.Some? then Raises else Unset
      case Some(t) =>
        match ParseDecimal(t)
        case None => Raises
        case Some(v) => Priced(if scale.Some? then Scale(v, scale.value) else v)
  }

  // ---------------------------------------------------------------------------
  // Unit phrases: "<digits> <unit>" with an optional currency prefix.

  predicate Lacks(s: string, c: char) {
    forall k :: 0 <= k < |s| ==> s[k] != c
  }

  lemma LacksConcat(a: string, b: string, c: char)
    requires Lacks(a, c) && Lacks(b, c)
    ensures Lacks(a + b, c)
  {
    forall k | 0 <= k < |a + b| ensures (a + b)[k] != c {
      if k < |a| { assert (a + b)[k] == a[k]; } else { assert (a + b)[k] == b[k - |a|]; }
    }
  }

  /** The lower-case currency prefixes a price may carry. */
  predicate IsCurrencyPrefix(c: string) { c == "" || c == "tk " || c == "bdt " }

  /** The lower-case multiplier words of `normalize_price`, with what each is worth. */
  function UnitValue(u: string): (r: Option<nat>)
    ensures r.Some? ==> r.value >= 1
  {
    if u == "crore" then Some(Crore)
    else if u == "lakh" || u == "lac" then Some(Lakh)
    else if u == "thousand" || u == "k" then Some(Thousand)
    else if u == "" then Some(1)
    else None
  }

  lemma UnitLacks(u: string)
    requires UnitValue(u).Some?
    ensures u != "" ==> !IsSpace(u[|u| - 1]) && !IsDecimalChar(u[0])
    ensures forall k :: 0 <= k < |u| ==> !IsUpper(u[k]) && !IsSpace(u[k]) && !IsDigit(u[k])
    ensures Lacks(u, ',') && Lacks(u, 'b') && Lacks(u, '.')
    ensures Lacks(u, 'k') || Lacks(u, 't')
    ensures u != "crore" ==> Lacks(u, 'r')
    ensures u != "crore" && u != "lakh" && u != "lac" ==> Lacks(u, 'l')
    ensures u == "" ==> Lacks(u, 'k') && Lacks(u, 'd')
  {
  }

  /** A `[\d.]+` token has no letter, comma or space. */
  lemma TokenLacks(d: string)
    requires IsDecimalToken(d)
    ensures forall k :: 0 <= k < |d| ==> !IsUpper(d[k]) && !IsSpace(d[k])
    ensures Lacks(d, ',') && Lacks(d, 'b') && Lacks(d, 't') && Lacks(d, 'k')
            && Lacks(d, 'r') && Lacks(d, 'l') && Lacks(d, 'd') && Lacks(d, 'h')
  {
  }

  /** "<digits><sep><unit>" has none of `,`, `b` and one of `t`, `k`, and is free of upper case. */
  lemma CoreLacks(d: string, sep: string, u: string)
    requires IsDecimalToken(d) && (sep == "" || sep == " ") && UnitValue(u).Some?
    ensures var core := d + sep + u;
            Lacks(core, ',') && Lacks(core, 'b') && (Lacks(core, 't') || Lacks(core, 'k'))
  {
    UnitLacks(u);
    TokenLacks(d);
    LacksConcat(d, sep, ',');
    LacksConcat(d + sep, u, ',');
    LacksConcat(d, sep, 'b');
    LacksConcat(d + sep, u, 'b');
    LacksConcat(d, sep, 'k');
    LacksConcat(d, sep, 't');
    if Lacks(u, 'k') { LacksConcat(d + sep, u, 'k'); } else { LacksConcat(d + sep, u, 't'); }
  }

  /** Neither `bdt` nor `tk` can be found in a text that lacks `b` and one of `t`, `k`. */
  lemma NoTokens(x: string)
    requires Lacks(x, 'b') && (Lacks(x, 't') || Lacks(x, 'k'))
    ensures RemoveAll(x, "bdt") == x && RemoveAll(x, "tk") == x
  {
    MissingCharNotContained(x, "bdt", 0);
    RemoveAbsent(x, "bdt");
    if Lacks(x, 't') { MissingCharNotContained(x, "tk", 0); } else { MissingCharNotContained(x, "tk", 1); }
    RemoveAbsent(x, "tk");
  }

  /** Removing `,`, `bdt` and `tk` from "<currency><core>" leaves the core, after a space if there was a currency. */
  lemma RemoveCurrency(c: string, core: string)
    requires IsCurrencyPrefix(c)
    requires Lacks(core, ',') && Lacks(core, 'b') && (Lacks(core, 't') || Lacks(core, 'k'))
    ensures RemoveAll(RemoveAll(RemoveAll(c + core, ","), "bdt"), "tk") == (if c == "" then "" else " ") + core
  {
    var rest := " " + core;
    LacksConcat(" ", core, ',');
    LacksConcat(" ", core, 'b');
    if Lacks(core, 't') { LacksConcat(" ", core, 't'); } else { LacksConcat(" ", core, 'k'); }
    if c == "" {
      assert c + core == core;
      MissingCharNotContained(core, ",", 0);
      RemoveAbsent(core, ",");
      NoTokens(core);
    } else if c == "tk " {
      LacksConcat("tk ", core, ',');
      LacksConcat("tk ", core, 'b');
      MissingCharNotContained(c + core, ",", 0);
      RemoveAbsent(c + core, ",");
      MissingCharNotContained(c + core, "bdt", 0);
      RemoveAbsent(c + core, "bdt");
      assert c + core == "tk" + rest;
      RemoveLeading("tk", rest);
      NoTokens(rest);
    } else {
      LacksConcat("bdt ", core, ',');
      MissingCharNotContained(c + core, ",", 0);
      RemoveAbsent(c + core, ",");
      assert c + core == "bdt" + rest;
      RemoveLeading("bdt", rest);
      NoTokens(rest);
    }
  }

  /** Lower-casing the phrase leaves its number and separator alone. */
  lemma LowerPhrase(c: string, d: string, sep: string, u: string)
    requires IsDecimalToken(d) && (sep == "" || sep == " ")
    ensures Lower(c + d + sep + u) == Lower(c) + (d + sep + Lower(u))
  {
    var t := d + sep;
    assert forall k :: 0 <= k < |t| ==> !IsUpper(t[k]);
    LowerIdle(t);
    LowerConcat(t, u);
    PhraseAssoc(c, d, sep, u);
    LowerConcat(c, t + u);
  }

  lemma PhraseAssoc(c: string, d: string, sep: string, u: string)
    ensures c + d + sep + u == c + (d + sep + u)
  {
    assert c + d + sep == c + (d + sep);
  }

  /**
   * After lower-casing, stripping `,`, `bdt`, `tk` and whitespace, the text
   * "<currency><number><sep><unit>" is reduced to "<number><sep><unit>".
   */
  lemma PriceTextOfPhrase(c: string, d: string, sep: string, u: string)
    requires IsCurrencyPrefix(Lower(c)) && |d| > 0 && IsDecimalToken(d)
    requires sep == "" || sep == " "
    requires UnitValue(Lower(u)).Some? && (Lower(u) == "" ==> sep == "")
    ensures PriceText(c + d + sep + u) == d + sep + Lower(u)
  {
    var u' := Lower(u);
    var core := d + sep + u';
    LowerPhrase(c, d, sep, u);
    CoreLacks(d, sep, u');
    RemoveCurrency(Lower(c), core);
    UnitLacks(u');
    TokenLacks(d);
    assert core[0] == d[0];
    assert core[|core| - 1] == if u' == "" then d[|d| - 1] else u'[|u'| - 1];
    var spaces := if Lower(c) == "" then "" else " ";
    StripLeadingSpaces(spaces, core);
  }

  /** "<number><sep><unit>" lacks any character its three parts lack. */
  lemma PhraseLacks(d: string, sep: string, u: string, ch: char)
    requires Lacks(d, ch) && Lacks(sep, ch) && Lacks(u, ch)
    ensures Lacks(d + sep + u, ch)
  {
    LacksConcat(d, sep, ch);
    LacksConcat(d + sep, u, ch);
  }

  /** In "<number><sep><unit>" the first `[\d.]+` token is the number. */
  lemma FirstTokenOfPhrase(d: string, sep: string, u: string)
    requires |d| > 0 && IsDecimalToken(d) && (sep == "" || sep == " ")
    requires UnitValue(u).Some? && (u == "" ==> sep == "")
    ensures FirstDecimal(d + sep + u) == Some(d)
  {
    var p := d + sep + u;
    UnitLacks(u);
    assert p[0] == d[0];
    assert Search(Decimal, p) == Some(0);
    assert forall k :: 0 <= k < |d| ==> p[k] == d[k];
    if sep == " " {
      assert p[|d|] == ' ';
    } else if u != "" {
      assert p[|d|] == u[0];
    } else {
      assert |p| == |d|;
    }
    DecimalRunEndAt(p, 0, |d|);
    assert p[0..|d|] == d;
  }

  /** The multiplier `normalize_price` finds in "<number><sep><unit>" is the unit's value. */
  lemma MultiplierOfPhrase(d: string, sep: string, u: string)
    requires IsDecimalToken(d) && (sep == "" || sep == " ") && UnitValue(u).Some?
    ensures Multiplier(d + sep + u) == UnitValue(u).value
  {
    var p := d + sep + u;
    var pre := d + sep;
    assert p == pre + u;
    UnitLacks(u);
    TokenLacks(d);
    if u == "crore" {
      ContainsSuffix(pre, u);
    } else {
      PhraseLacks(d, sep, u, 'r');
      MissingCharNotContained(p, "crore", 1);
      if u == "lakh" || u == "lac" {
        ContainsSuffix(pre, u);
        if u == "lac" {
          assert Contains(p, "lac");
        }
      } else {
        PhraseLacks(d, sep, u, 'l');
        MissingCharNotContained(p, "lakh", 0);
        MissingCharNotContained(p, "lac", 0);
        if u == "thousand" || u == "k" {
          ContainsSuffix(pre, u);
        } else {
          PhraseLacks(d, sep, u, 'k');
          PhraseLacks(d, sep, u, 'd');
          MissingCharNotContained(p, "thousand", 6);
          MissingCharNotContained(p, "k", 0);
        }
      }
    }
  }

  /**
   * With `d` the first token of the price text, `normalize_price` raises when `float`
   * refuses `d`, and otherwise gives `d`'s value times the multiplier, rounded.
   */
  lemma NormalizeToken(s: string, d: string)
    requires FirstDecimal(PriceText(s)) == Some(d)
    ensures IsDecimalToken(d)
    ensures NormalizePrice(Some(s)) == match ParseDecimal(d)
                                       case None => Raises
                                       case Some(v) => Priced(Round2(Scale(v, Multiplier(PriceText(s)))))
  {
  }

  /** Scaling a whole number is integer multiplication. */
  lemma ScaleWhole(v: nat, m: nat)
    ensures Scale(v as real, m) == (v * m) as real
  {
  }

  /** A whole number of units is left alone by rounding. */
  lemma RoundWhole(v: nat, m: nat)
    ensures Round2(Scale(v as real, m)) == (v * m) as real
  {
    var n := v * m;
    ScaleWhole(v, m);
    assert n as real * 100.0 == (n * 100) as real;
    Round2Exact(n as real);
  }

  /**
   * `normalize_price` of "<currency><number><sep><unit>" (for instance "Tk 45 Lakh",
   * "1.2 Crore", "bdt 2 crore", "15k", "9000"), with the number any `[\d.]+` token: it
   * raises when `float` refuses the number, and is otherwise the number times the
   * unit's multiplier, rounded to two places.
   */
  lemma NormalizePhrase(c: string, d: string, sep: string, u: string)
    requires IsCurrencyPrefix(Lower(c)) && |d| > 0 && IsDecimalToken(d)
    requires sep == "" || sep == " "
    requires UnitValue(Lower(u)).Some? && (Lower(u) == "" ==> sep == "")
    ensures NormalizePrice(Some(c + d + sep + u)) == match ParseDecimal(d)
              case None => Raises
              case Some(v) => Priced(Round2(Scale(v, UnitValue(Lower(u)).value)))
  {
    var u' := Lower(u);
    PriceTextOfPhrase(c, d, sep, u);
    FirstTokenOfPhrase(d, sep, u');
    NormalizeToken(c + d + sep + u, d);
    MultiplierOfPhrase(d, sep, u');
  }

  /** With a whole number of units the price is exactly the integer product: rounding keeps it. */
  lemma NormalizeWholePhrase(c: string, d: string, sep: string, u: string)
    requires IsCurrencyPrefix(Lower(c)) && |d| > 0 && AllDigits(d)
    requires sep == "" || sep == " "
    requires UnitValue(Lower(u)).Some? && (Lower(u) == "" ==> sep == "")
    ensures NormalizePrice(Some(c + d + sep + u)) == Priced((DigitsValue(d) * UnitValue(Lower(u)).value) as real)
  {
    ParseDigits(d);
    NormalizePhrase(c, d, sep, u);
    RoundWhole(DigitsValue(d), UnitValue(Lower(u)).value);
  }

  /** The multiplier `clean_price` applies to a unit word: only crore and lakh count. */
  function CleanUnitValue(u: string): (r: nat)
    ensures r >= 1
  {
    if u == "crore" then Crore else if u == "lakh" then Lakh else 1
  }

  lemma CurrencyLacks(c: string)
    requires IsCurrencyPrefix(c)
    ensures forall k :: 0 <= k < |c| ==> !IsDecimalChar(c[k])
    ensures Lacks(c, ',') && Lacks(c, 'r') && Lacks(c, 'l') && Lacks(c, 'h')
  {
  }

  /** `clean_price` lower-cases the phrase and finds no comma to remove. */
  lemma CleanTextOfPhrase(c: string, d: string, sep: string, u: string)
    requires IsCurrencyPrefix(Lower(c)) && IsDecimalToken(d) && (sep == "" || sep == " ")
    requires UnitValue(Lower(u)).Some?
    ensures RemoveAll(Lower(c + d + sep + u), ",") == Lower(c) + (d + sep + Lower(u))
  {
    var c', core := Lower(c), d + sep + Lower(u);
    LowerPhrase(c, d, sep, u);
    CurrencyLacks(c');
    CoreLacks(d, sep, Lower(u));
    LacksConcat(c', core, ',');
    MissingCharNotContained(c' + core, ",", 0);
    RemoveAbsent(c' + core, ",");
  }

  /** A token after a text free of digits and dots, and before a non-token character, is the first token. */
  lemma TokenFirst(a: string, d: string, rest: string)
    requires forall k :: 0 <= k < |a| ==> !IsDecimalChar(a[k])
    requires |d| > 0 && IsDecimalToken(d)
    requires rest == [] || !IsDecimalChar(rest[0])
    ensures FirstDecimal(a + d + rest) == Some(d)
  {
    var p := a + d + rest;
    assert forall j :: 0 <= j < |a| ==> p[j] == a[j];
    assert forall j :: 0 <= j < |d| ==> p[|a| + j] == d[j];
    assert rest != [] ==> p[|a| + |d|] == rest[0];
    FirstDecimalIs(p, |a|, |a| + |d|);
    assert p[|a|..|a| + |d|] == d;
  }

  /** The currency and number before the unit have no `r`, `l` or `h`. */
  lemma PrefixLacks(c: string, d: string, sep: string)
    requires IsCurrencyPrefix(c) && IsDecimalToken(d) && (sep == "" || sep == " ")
    ensures Lacks(c + d + sep, 'r') && Lacks(c + d + sep, 'l') && Lacks(c + d + sep, 'h')
  {
    CurrencyLacks(c);
    TokenLacks(d);
    LacksConcat(c, d, 'r');
    LacksConcat(c + d, sep, 'r');
    LacksConcat(c, d, 'l');
    LacksConcat(c + d, sep, 'l');
    LacksConcat(c, d, 'h');
    LacksConcat(c + d, sep, 'h');
  }

  /** After a prefix without `r`, `l` and `h`, "crore" and "lakh" occur only as the unit itself. */
  lemma ScaleWordsOfUnit(pre: string, u: string)
    requires Lacks(pre, 'r') && Lacks(pre, 'l') && Lacks(pre, 'h') && UnitValue(u).Some?
    ensures Contains(pre + u, "crore") <==> u == "crore"
    ensures Contains(pre + u, "lakh") <==> u == "lakh"
  {
    var p := pre + u;
    if u == "crore" {
      ContainsSuffix(pre, u);
    } else {
      assert Lacks(u, 'r');
      LacksConcat(pre, u, 'r');
      MissingCharNotContained(p, "crore", 1);
    }
    if u == "lakh" {
      ContainsSuffix(pre, u);
    } else if u == "lac" {
      assert Lacks(u, 'h');
      LacksConcat(pre, u, 'h');
      MissingCharNotContained(p, "lakh", 3);
    } else {
      assert Lacks(u, 'l');
      LacksConcat(pre, u, 'l');
      MissingCharNotContained(p, "lakh", 0);
    }
  }

  /** The scale `clean_price` applies to a comma-free, lower-cased text. */
  function CleanScale(p: string): (r: nat)
    ensures r >= 1
  {
    if Contains(p, "crore") then Crore else if Contains(p, "lakh") then Lakh else 1
  }

  /**
   * With `d` the first token of the lower-cased, comma-free text, `clean_price` raises
   * when `float` refuses `d`, and otherwise gives `d`'s value times the scale, unrounded.
   */
  lemma CleanToken(s: string, d: string)
    requires FirstDecimal(RemoveAll(Lower(s), ",")) == Some(d)
    ensures IsDecimalToken(d)
    ensures CleanPrice(Some(s)) == match ParseDecimal(d)
                                   case None => Raises
                                   case Some(v) => Priced(Scale(v, CleanScale(RemoveAll(Lower(s), ","))))
  {
    var p := RemoveAll(Lower(s), ",");
    var o := ParseDecimal(d);
    if o.None? {
      assert CleanPrice(Some(s)) == Raises;
    } else {
      var v := o.value;
      var m := CleanScale(p);
      assert CleanPrice(Some(s)) == Priced(if m == 1 then v else Scale(v, m));
      UnscaledIsScaleOne(v, m);
    }
  }

  /** Leaving a value unscaled is scaling it by one. */
  lemma UnscaledIsScaleOne(v: real, m: nat)
    requires v >= 0.0
    ensures (if m == 1 then v else Scale(v, m)) == Scale(v, m)
  {
  }

  /** What follows the digits of a phrase cannot extend its token. */
  lemma AfterDigitsOfPhrase(sep: string, u: string)
    requires (sep == "" || sep == " ") && UnitValue(u).Some?
    ensures sep + u == [] || !IsDecimalChar((sep + u)[0])
  {
    UnitLacks(u);
  }

  /** The first token `clean_price` reads in "<currency><number><sep><unit>" is the number. */
  lemma CleanTokenOfPhrase(c: string, d: string, sep: string, u: string)
    requires IsCurrencyPrefix(c) && |d| > 0 && IsDecimalToken(d)
    requires sep == "" || sep == " "
    requires UnitValue(u).Some?
    ensures FirstDecimal(c + (d + sep + u)) == Some(d)
  {
    CurrencyLacks(c);
    AfterDigitsOfPhrase(sep, u);
    assert c + (d + sep + u) == c + d + (sep + u);
    TokenFirst(c, d, sep + u);
  }

  /** The scale `clean_price` finds in "<currency><number><sep><unit>" is the unit's. */
  lemma CleanScaleOfPhrase(c: string, d: string, sep: string, u: string)
    requires IsCurrencyPrefix(c) && IsDecimalToken(d)
    requires sep == "" || sep == " "
    requires UnitValue(u).Some?
    ensures CleanScale(c + (d + sep + u)) == CleanUnitValue(u)
  {
    PrefixLacks(c, d, sep);
    assert c + (d + sep + u) == c + d + sep + u;
    ScaleWordsOfUnit(c + d + sep, u);
  }

  /**
   * `clean_price` of "<currency><number><sep><unit>": it raises when `float` refuses the
   * number, and is otherwise the number times a crore or a lakh when the unit is one
   * of those, and unscaled for "lac", "thousand" and "k".
   */
  lemma CleanPhrase(c: string, d: string, sep: string, u: string)
    requires IsCurrencyPrefix(Lower(c)) && |d| > 0 && IsDecimalToken(d)
    requires sep == "" || sep == " "
    requires UnitValue(Lower(u)).Some? && (Lower(u) == "" ==> sep == "")
    ensures CleanPrice(Some(c + d + sep + u)) == match ParseDecimal(d)
              case None => Raises
              case Some(v) => Priced(Scale(v, CleanUnitValue(Lower(u))))
  {
    CleanTextOfPhrase(c, d, sep, u);
    CleanTokenOfPhrase(Lower(c), d, sep, Lower(u));
    CleanScaleOfPhrase(Lower(c), d, sep, Lower(u));
    CleanToken(c + d + sep + u, d);
  }

  /** With a whole number the result is the integer product. */
  lemma CleanWholePhrase(c: string, d: string, sep: string, u: string)
    requires IsCurrencyPrefix(Lower(c)) && |d| > 0 && AllDigits(d)
    requires sep == "" || sep == " "
    requires UnitValue(Lower(u)).Some? && (Lower(u) == "" ==> sep == "")
    ensures CleanPrice(Some(c + d + sep + u)) == Priced((DigitsValue(d) * CleanUnitValue(Lower(u))) as real)
  {
    ParseDigits(d);
    CleanPhrase(c, d, sep, u);
    ScaleWhole(DigitsValue(d), CleanUnitValue(Lower(u)));
  }

  /** Different multipliers of a positive amount give different prices. */
  lemma ScaledDiffer(v: nat, m1: nat, m2: nat)
    requires v > 0 && m1 != m2
    ensures Priced((v * m1) as real) != Priced((v * m2) as real)
  {
    if m1 < m2 { assert v * m1 < v * m2; } else { assert v * m1 > v * m2; }
  }

  /** The unit words on whose value the two normalisers agree. */
  lemma UnitValuesAgree(u: string)
    requires UnitValue(u).Some?
    ensures UnitValue(u).value == CleanUnitValue(u) <==> u == "crore" || u == "lakh" || u == ""
  {
  }

  /**
   * The two normalisers agree on such a phrase exactly when its unit is "crore",
   * "lakh" or absent; for "lac", "thousand" and "k" `clean_price` gives the bare number.
   */
  lemma NormalizersAgreeOnPhrase(c: string, d: string, sep: string, u: string)
    requires IsCurrencyPrefix(Lower(c)) && |d| > 0 && AllDigits(d)
    requires sep == "" || sep == " "
    requires UnitValue(Lower(u)).Some? && (Lower(u) == "" ==> sep == "")
    requires DigitsValue(d) > 0
    ensures NormalizePrice(Some(c + d + sep + u)) == CleanPrice(Some(c + d + sep + u))
            <==> Lower(u) == "crore" || Lower(u) == "lakh" || Lower(u) == ""
  {
    NormalizeWholePhrase(c, d, sep, u);
    CleanWholePhrase(c, d, sep, u);
    var m1, m2 := UnitValue(Lower(u)).value, CleanUnitValue(Lower(u));
    UnitValuesAgree(Lower(u));
    if m1 != m2 {
      ScaledDiffer(DigitsValue(d), m1, m2);
    }
  }

  // ---------------------------------------------------------------------------
  // Instances of the phrase lemmas.

  lemma LowerExampleWords()
    ensures Lower("Tk ") == "tk " && Lower("Lakh") == "lakh" && Lower("k") == "k" && Lower("lac") == "lac"
  {
    assert Lower(" ") == " " && Lower("k ") == "k ";
    assert Lower("h") == "h" && Lower("kh") == "kh" && Lower("akh") == "akh";
    assert Lower("c") == "c" && Lower("ac") == "ac";
  }

  lemma ExampleDigits()
    ensures DigitsValue("45") == 45 && DigitsValue("15") == 15
  {
    assert "45"[..1] == "4" && "15"[..1] == "1";
    assert "4"[..0] == [] && "1"[..0] == [];
  }

  /** "Tk 45 Lakh" is 4,500,000 for both normalisers. */
  lemma Tk45LakhExample()
    ensures NormalizePrice(Some("Tk " + "45" + " " + "Lakh")) == Priced(4500000.0)
    ensures CleanPrice(Some("Tk " + "45" + " " + "Lakh")) == Priced(4500000.0)
  {
    LowerExampleWords();
    ExampleDigits();
    NormalizeWholePhrase("Tk ", "45", " ", "Lakh");
    CleanWholePhrase("Tk ", "45", " ", "Lakh");
  }

  /** What "lac" and "k" are worth to each normaliser. */
  lemma ExampleUnits()
    ensures UnitValue("lac") == Some(Lakh) && CleanUnitValue("lac") == 1
    ensures UnitValue("k") == Some(Thousand) && CleanUnitValue("k") == 1
  {
    assert |"lac"| != |"crore"| && "lac"[2] != "lakh"[2];
    assert |"k"| != |"crore"| && |"k"| != |"lakh"| && |"k"| != |"lac"| && |"k"| != |"thousand"|;
  }

  /** "15k" is 15,000 for `normalize_price` and 15 for `clean_price`. */
  lemma FifteenKExample()
    ensures NormalizePrice(Some("" + "15" + "" + "k")) == Priced(15000.0)
    ensures CleanPrice(Some("" + "15" + "" + "k")) == Priced(15.0)
  {
    ExampleUnits();
    LowerExampleWords();
    ExampleDigits();
    assert Lower("") == "";
    NormalizeWholePhrase("", "15", "", "k");
    CleanWholePhrase("", "15", "", "k");
  }

  /** "45 lac" is 4,500,000 for `normalize_price` but 45 for `clean_price`. */
  lemma LacExample()
    ensures NormalizePrice(Some("" + "45" + " " + "lac")) == Priced(4500000.0)
    ensures CleanPrice(Some("" + "45" + " " + "lac")) == Priced(45.0)
  {
    ExampleUnits();
    LowerExampleWords();
    ExampleDigits();
    assert Lower("") == "";
    NormalizeWholePhrase("", "45", " ", "lac");
    CleanWholePhrase("", "45", " ", "lac");
  }

  /** The example of `clean_price`'s documentation: "45 lakh" is 4,500,000. */
  lemma FortyFiveLakhExample()
    ensures CleanPrice(Some("" + "45" + " " + "lakh")) == Priced(4500000.0)
  {
    LowerExampleWords();
    ExampleDigits();
    assert Lower("") == "";
    assert Lower("lakh") == "lakh" by {
      LowerIdle("lakh");
    }
    CleanWholePhrase("", "45", " ", "lakh");
  }

  /** `float("1.2")` is 1.2. */
  lemma ParseOnePointTwo()
    ensures IsDecimalToken("1.2") && ParseDecimal("1.2") == Some(1.2)
  {
    assert "1.2"[1..] == ".2" && DotIndex(".2") == 0;
    assert DotIndex("1.2") == 1;
    assert "1.2"[..1] == "1" && "1.2"[2..] == "2";
    assert "2"[1..] == [] && DotIndex("2") == 1;
    assert "1"[..0] == [] && "2"[..0] == [];
    assert DigitsValue("1") == 1 && DigitsValue("2") == 2;
    assert Pow10(1) == 10;
  }

  lemma LowerCrore()
    ensures Lower("Crore") == "crore" && Lower("crore") == "crore"
  {
    assert Lower("e") == "e" && Lower("re") == "re" && Lower("ore") == "ore" && Lower("rore") == "rore";
  }

  /**
   * "1.2 Crore" and "Tk 1.2 Crore" are 12,000,000 for `normalize_price`, and
   * "Tk 1.2 Crore", the example of `clean_price`'s documentation, is 12,000,000 for it too.
   */
  lemma CroreDecimalExample()
    ensures NormalizePrice(Some("" + "1.2" + " " + "Crore")) == Priced(12000000.0)
    ensures NormalizePrice(Some("Tk " + "1.2" + " " + "Crore")) == Priced(12000000.0)
    ensures CleanPrice(Some("Tk " + "1.2" + " " + "Crore")) == Priced(12000000.0)
  {
    ParseOnePointTwo();
    LowerCrore();
    LowerExampleWords();
    assert Lower("") == "";
    assert Scale(1.2, Crore) == 12000000.0;
    Round2Exact(12000000.0);
    NormalizePhrase("", "1.2", " ", "Crore");
    NormalizePhrase("Tk ", "1.2", " ", "Crore");
    CleanPhrase("Tk ", "1.2", " ", "Crore");
  }
}
