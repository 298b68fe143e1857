/**
 * The two extractors that read listing facts out of text the scraper already has:
 * `extract_info_from_title` (the card's title) and `extract_info_from_url` (the
 * listing's address). Each gives back a record whose fields are `None` when the text
 * does not carry that fact.
 */
module Listing {
  import opened Base
  import opened Text
  import opened Patterns

  /** The dictionary `extract_info_from_title` returns. */
  datatype TitleInfo = TitleInfo(
    areaSqft: Option<nat>,
    bedrooms: Option<nat>,
    location: Option<string>,
    forRentSell: Option<string>)

  /** The dictionary `extract_info_from_url` returns. */
  datatype UrlInfo = UrlInfo(
    areaSqft: Option<nat>,
    bedrooms: Option<nat>,
    location: Option<string>,
    forRentSell: Option<string>,
    propertyType: Option<string>)

  const NoTitleInfo := TitleInfo(None, None, None, None)
  const NoUrlInfo := UrlInfo(None, None, None, None, None)

  /**
   * The Rent/Sell test shared by both extractors: the longer phrase ("for rent",
   * "for-rent") is looked for first, then the bare word, and Rent is checked before Sell.
   */
  function DealIn(s: string, forRent: string, forSale: string): (r: Option<string>)
    ensures r.Some? ==> r.value == "Rent" || r.value == "Sell"
  {
    if Contains(s, forRent) || Contains(s, "rent") then Some("Rent")
    else if Contains(s, forSale) || Contains(s, "sale") then Some("Sell")
    else None
  }

  /**
   * Rent wins: the deal is Rent exactly when "rent" occurs, Sell exactly when "sale"
   * occurs and "rent" does not, and unknown when neither does, because each longer
   * phrase ends with the bare word.
   */
  lemma DealByWord(s: string, pre: string)
    ensures DealIn(s, pre + "rent", pre + "sale") == Some("Rent") <==> Contains(s, "rent")
    ensures DealIn(s, pre + "rent", pre + "sale") == Some("Sell") <==> !Contains(s, "rent") && Contains(s, "sale")
    ensures DealIn(s, pre + "rent", pre + "sale").None? <==> !Contains(s, "rent") && !Contains(s, "sale")
  {
    if Contains(s, pre + "rent") { ContainsWithin(s, pre, "rent"); }
    if Contains(s, pre + "sale") { ContainsWithin(s, pre, "sale"); }
  }

  /** The property kind named in a lower-case text: Flat, then Apartment, then House. */
  function PropertyTypeIn(s: string): (r: Option<string>)
    ensures r.None? <==> !Contains(s, "flat") && !Contains(s, "apartment") && !Contains(s, "house")
    ensures r.Some? ==> r.value == "Flat" || r.value == "Apartment" || r.value == "House"
  {
    if Contains(s, "flat") then Some("Flat")
    else if Contains(s, "apartment") then Some("Apartment")
    else if Contains(s, "house") then Some("House")
    else None
  }

  /** Whether a title or address carries anything: Python's truthiness, and not the "N/A" placeholder. */
  predicate Informative(t: string) { t != "" && t != "N/A" }

  /** `extract_info_from_title(title)`. */
  function ExtractInfoFromTitle(title: string): (r: TitleInfo)
    ensures !Informative(title) ==> r == NoTitleInfo
    ensures r.location.Some? <==> Informative(title) && Search(TitleLocation, title).Some?
    ensures r.areaSqft.Some? <==> Informative(title) && Search(DigitsThen(Spaces, "sft"), Lower(title)).Some?
    ensures r.bedrooms.Some? <==> Informative(title) && Search(DigitsThen(SpacesOrDashes, "bedroom"), Lower(title)).Some?
  {
    if !Informative(title) then NoTitleInfo
    else
      var tl := Lower(title);
      TitleInfo(
        IntGroup(DigitsThen(Spaces, "sft"), tl),
        IntGroup(DigitsThen(SpacesOrDashes, "bedroom"), tl),
        match Group(TitleLocation, title)
        case None => None
        case Some(g) => Some(Strip(g)),
        DealIn(tl, "for rent", "for sale"))
  }

  /** The location part of an address: hyphens become spaces and each word is capitalised. */
  function UrlLocationName(g: string): string {
    Title(ReplaceChar(g, '-', ' '))
  }

  /** `extract_info_from_url(url)`. */
  function ExtractInfoFromUrl(url: string): (r: UrlInfo)
    ensures !Informative(url) ==> r == NoUrlInfo
    ensures r.areaSqft.Some? <==> Informative(url) && Search(DigitsThen(NoGap, "-sft"), Lower(url)).Some?
    ensures r.bedrooms.Some? <==> Informative(url) && Search(DigitsThen(NoGap, "-bedroom"), Lower(url)).Some?
    ensures r.location.Some? <==> Informative(url) && Search(UrlLocation, Lower(url)).Some?
    ensures r.propertyType.None? <==> !Informative(url) || (var ul := Lower(url);
              !Contains(ul, "flat") && !Contains(ul, "apartment") && !Contains(ul, "house"))
  {
    if !Informative(url) then NoUrlInfo
    else
      var ul := Lower(url);
      UrlInfo(
        IntGroup(DigitsThen(NoGap, "-sft"), ul),
        IntGroup(DigitsThen(NoGap, "-bedroom"), ul),
        match Group(UrlLocation, ul)
        case None => None
        case Some(g) => Some(UrlLocationName(g)),
        DealIn(ul, "for-rent", "for-sale"),
        PropertyTypeIn(ul))
  }

  /** A title's deal is Rent whenever it mentions rent, even next to "sale". */
  lemma TitleRentWinsOverSale(title: string)
    requires Informative(title)
    ensures ExtractInfoFromTitle(title).forRentSell == Some("Rent") <==> Contains(Lower(title), "rent")
    ensures ExtractInfoFromTitle(title).forRentSell == Some("Sell")
            <==> !Contains(Lower(title), "rent") && Contains(Lower(title), "sale")
    ensures ExtractInfoFromTitle(title).forRentSell.None?
            <==> !Contains(Lower(title), "rent") && !Contains(Lower(title), "sale")
  {
    assert "for " + "rent" == "for rent" && "for " + "sale" == "for sale";
    assert ExtractInfoFromTitle(title).forRentSell == DealIn(Lower(title), "for rent", "for sale");
    DealByWord(Lower(title), "for ");
  }

  /** An address's deal follows the same rule, on the lower-cased address. */
  lemma UrlRentWinsOverSale(url: string)
    requires Informative(url)
    ensures ExtractInfoFromUrl(url).forRentSell == Some("Rent") <==> Contains(Lower(url), "rent")
    ensures ExtractInfoFromUrl(url).forRentSell == Some("Sell")
            <==> !Contains(Lower(url), "rent") && Contains(Lower(url), "sale")
    ensures ExtractInfoFromUrl(url).forRentSell.None?
            <==> !Contains(Lower(url), "rent") && !Contains(Lower(url), "sale")
  {
    assert "for-" + "rent" == "for-rent" && "for-" + "sale" == "for-sale";
    assert ExtractInfoFromUrl(url).forRentSell == DealIn(Lower(url), "for-rent", "for-sale");
    DealByWord(Lower(url), "for-");
  }

  /**
   * The title's area and bedroom count are whole digit runs of the lower-cased title:
   * the run starts the text or follows a non-digit, and it is followed by a non-digit.
   */
  lemma TitleNumbersAreWholeRuns(title: string, p: Pattern)
    requires p == DigitsThen(Spaces, "sft") || p == DigitsThen(SpacesOrDashes, "bedroom")
    requires Informative(title) && Search(p, Lower(title)).Some?
    ensures var tl := Lower(title);
            var k := Search(p, tl).value;
            var e := DigitRunEnd(tl, k);
            k < e && (k == 0 || !IsDigit(tl[k - 1])) && (e == |tl| || !IsDigit(tl[e]))
            && AllDigits(tl[k..e]) && (if p.word == "sft" then ExtractInfoFromTitle(title).areaSqft
                else ExtractInfoFromTitle(title).bedrooms) == Some(DigitsValue(tl[k..e]))
  {
    var tl := Lower(title);
    LeftmostIsWholeRun(p, tl);
    var k := Search(p, tl).value;
    DigitRunDigits(tl, k);
    var ti := ExtractInfoFromTitle(title);
    assert (if p.word == "sft" then ti.areaSqft else ti.bedrooms) == IntGroup(p, tl);
  }

  /**
   * The address's area and bedroom count are whole digit runs of the lower-cased
   * address, the run directly followed by "-sft" or "-bedroom".
   */
  lemma UrlNumbersAreWholeRuns(url: string, p: Pattern)
    requires p == DigitsThen(NoGap, "-sft") || p == DigitsThen(NoGap, "-bedroom")
    requires Informative(url) && Search(p, Lower(url)).Some?
    ensures var ul := Lower(url);
            var k := Search(p, ul).value;
            var e := DigitRunEnd(ul, k);
            k < e && (k == 0 || !IsDigit(ul[k - 1])) && At(ul, e, p.word)
            && AllDigits(ul[k..e]) && (if p.word == "-sft" then ExtractInfoFromUrl(url).areaSqft
                                       else ExtractInfoFromUrl(url).bedrooms) == Some(DigitsValue(ul[k..e]))
  {
    var ul := Lower(url);
    LeftmostIsWholeRun(p, ul);
    var k := Search(p, ul).value;
    DigitRunDigits(ul, k);
    var ui := ExtractInfoFromUrl(url);
    assert (if p.word == "-sft" then ui.areaSqft else ui.bedrooms) == IntGroup(p, ul);
  }

  /** The title's location has no comma and is a piece of the title as written. */
  lemma TitleLocationIsPiece(title: string)
    requires ExtractInfoFromTitle(title).location.Some?
    ensures var l := ExtractInfoFromTitle(title).location.value;
            (forall k :: 0 <= k < |l| ==> l[k] != ',')
            && exists a, b :: 0 <= a <= b <= |title| && l == title[a..b]
  {
    TitleLocationShape(title);
  }

  /**
   * A location read from a lower-case address segment without slashes: non-empty
   * when the segment is, free of slashes and hyphens, and lower-casing gives back
   * the segment with hyphens read as spaces.
   */
  lemma UrlLocationNameShape(g: string)
    requires forall k :: 0 <= k < |g| ==> !IsUpper(g[k]) && g[k] != '/'
    ensures var l := UrlLocationName(g);
            |l| == |g| && (forall k :: 0 <= k < |l| ==> l[k] != '/' && l[k] != '-')
            && Lower(l) == ReplaceChar(g, '-', ' ')
  {
    var h := ReplaceChar(g, '-', ' ');
    LowerTitleFrom(h, false);
    LowerIdle(h);
  }

  /** Each word of such a location starts with a capital when it starts with a letter. */
  lemma UrlLocationNameCapitalised(g: string)
    ensures var l := UrlLocationName(g);
            forall k :: 0 <= k < |l| && WordStart(l, k) ==> IsUpper(l[k])
  {
    var h := ReplaceChar(g, '-', ' ');
    var t := TitleFrom(h, false);
    assert UrlLocationName(g) == t;
    forall k | 0 <= k < |t| && WordStart(t, k) ensures IsUpper(t[k]) {
      assert IsLetter(h[k]);
      if k > 0 {
        assert !IsLetter(h[k - 1]);
        assert t[k] == UpperChar(h[k]);
      } else {
        assert t[0] == UpperChar(h[0]);
      }
    }
  }

  /**
   * The address's location is non-empty and has no slash and no hyphen; lower-cased,
   * it is the address text after "in-" up to the next slash, hyphens read as spaces;
   * and each of its words starts with a capital letter.
   */
  lemma UrlLocationIsSegment(url: string)
    requires ExtractInfoFromUrl(url).location.Some?
    ensures var l := ExtractInfoFromUrl(url).location.value;
            var ul := Lower(url);
            var i := Search(UrlLocation, ul).value;
            |l| > 0 && (forall k :: 0 <= k < |l| ==> l[k] != '/' && l[k] != '-')
            && Lower(l) == ReplaceChar(ul[i + 3..SlashIndex(ul, i + 3)], '-', ' ')
            && forall k :: 0 <= k < |l| && WordStart(l, k) ==> IsUpper(l[k])
  {
    var ul := Lower(url);
    UrlLocationShape(ul);
    var g := GroupAt(UrlLocation, ul, Search(UrlLocation, ul).value);
    assert ExtractInfoFromUrl(url).location == Some(UrlLocationName(g));
    UrlLocationNameShape(g);
    UrlLocationNameCapitalised(g);
  }
}
