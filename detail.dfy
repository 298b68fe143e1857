/**
 * The text rules of `scrape_property_detail`. Every DOM query of the page is given as
 * the sequence of texts of the elements it returns, in document order; for each field
 * the scraper runs its queries in a fixed order, takes from each query the first
 * element whose text passes the field's test, and stops at the first query that
 * leaves the field truthy.
 */
module Detail {
  import opened Base
  import opened Text
  import opened Patterns
  import opened Listing

  // ---------------------------------------------------------------------------
  // The search shared by every field.

  /** The value of the first element whose text `accept` takes, if any. */
  function FirstAccepted<T>(elems: seq<string>, accept: string -> Option<T>): (r: Option<T>)
    ensures r.None? <==> forall i :: 0 <= i < |elems| ==> accept(elems[i]).None?
  {
    if elems == [] then None
    else if accept(elems[0]).Some? then accept(elems[0])
    else FirstAccepted(elems[1..], accept)
  }

  /**
   * The field after running the remaining queries, starting from its current value:
   * a query that accepts an element overwrites the field, and the search stops as soon
   * as the field is truthy.
   */
  function SearchQueries<T>(queries: seq<seq<string>>, accept: string -> Option<T>, truthy: T -> bool,
                            field: Option<T>): Option<T>
    decreases |queries|
  {
    if queries == [] then field
    else
      var f := if FirstAccepted(queries[0], accept).Some? then FirstAccepted(queries[0], accept) else field;
      if f.Some? && truthy(f.value) then f else SearchQueries(queries[1..], accept, truthy, f)
  }

  /** All element texts of all queries, in the order the scraper visits them. */
  function Flatten(queries: seq<seq<string>>): (r: seq<string>)
    ensures |queries| > 0 ==> r == queries[0] + Flatten(queries[1..])
  {
    if queries == [] then [] else queries[0] + Flatten(queries[1..])
  }

  lemma {:induction false} FirstAcceptedConcat<T>(a: seq<string>, b: seq<string>, accept: string -> Option<T>)
    ensures FirstAccepted(a + b, accept)
            == if FirstAccepted(a, accept).Some? then FirstAccepted(a, accept) else FirstAccepted(b, accept)
  {
    if a != [] {
      assert (a + b)[0] == a[0];
      assert (a + b)[1..] == a[1..] + b;
      FirstAcceptedConcat(a[1..], b, accept);
    } else {
      assert a + b == b;
    }
  }

  /** The value found is one that `accept` gives for some element of some query. */
  lemma {:induction false} FirstAcceptedIsAccepted<T>(elems: seq<string>, accept: string -> Option<T>)
    requires FirstAccepted(elems, accept).Some?
    ensures exists i :: (0 <= i < |elems| && accept(elems[i]) == FirstAccepted(elems, accept)
                         && forall j :: 0 <= j < i ==> accept(elems[j]).None?)
  {
    if accept(elems[0]).None? {
      FirstAcceptedIsAccepted(elems[1..], accept);
      var i :| 0 <= i < |elems[1..]| && accept(elems[1..][i]) == FirstAccepted(elems[1..], accept)
               && forall j :: 0 <= j < i ==> accept(elems[1..][j]).None?;
      assert accept(elems[i + 1]) == FirstAccepted(elems, accept);
      assert forall j :: 0 <= j < i + 1 ==> accept(elems[j]).None? by {
        forall j | 0 <= j < i + 1 ensures accept(elems[j]).None? {
          if j > 0 { assert elems[j] == elems[1..][j - 1]; }
        }
      }
    } else {
      assert accept(elems[0]) == FirstAccepted(elems, accept);
    }
  }

  /**
   * The value the field starts with survives only when no query accepts anything:
   * otherwise the search ends with what it would have found from an empty field.
   */
  lemma {:induction false} SearchStartValue<T>(queries: seq<seq<string>>, accept: string -> Option<T>,
                                               truthy: T -> bool, field: Option<T>)
    requires field.None? || !truthy(field.value)
    ensures SearchQueries(queries, accept, truthy, field)
            == if SearchQueries(queries, accept, truthy, None).None? then field
               else SearchQueries(queries, accept, truthy, None)
    decreases |queries|
  {
    if queries != [] && FirstAccepted(queries[0], accept).None? {
      SearchStartValue(queries[1..], accept, truthy, field);
    }
    if queries != [] && FirstAccepted(queries[0], accept).Some? {
      var v := FirstAccepted(queries[0], accept);
      if !truthy(v.value) {
        SearchStartValue(queries[1..], accept, truthy, v);
      }
    }
  }

  /** From an empty field the search finds nothing exactly when no element of any query is accepted. */
  lemma {:induction false} SearchFindsNothing<T>(queries: seq<seq<string>>, accept: string -> Option<T>,
                                                 truthy: T -> bool)
    ensures SearchQueries(queries, accept, truthy, None).None?
            <==> FirstAccepted(Flatten(queries), accept).None?
    decreases |queries|
  {
    if queries != [] {
      FirstAcceptedConcat(queries[0], Flatten(queries[1..]), accept);
      if FirstAccepted(queries[0], accept).None? {
        SearchFindsNothing(queries[1..], accept, truthy);
      } else {
        var v := FirstAccepted(queries[0], accept);
        if !truthy(v.value) {
          SearchStartValue(queries[1..], accept, truthy, v);
        }
      }
    }
  }

  /** When every accepted value is truthy, the search finds the first accepted element over all queries. */
  lemma {:induction false} SearchFindsFirst<T>(queries: seq<seq<string>>, accept: string -> Option<T>,
                                               truthy: T -> bool)
    requires forall s :: accept(s).Some? ==> truthy(accept(s).value)
    ensures SearchQueries(queries, accept, truthy, None) == FirstAccepted(Flatten(queries), accept)
    decreases |queries|
  {
    if queries != [] {
      FirstAcceptedConcat(queries[0], Flatten(queries[1..]), accept);
      if FirstAccepted(queries[0], accept).None? {
        SearchFindsFirst(queries[1..], accept, truthy);
      } else {
        FirstAcceptedIsAccepted(queries[0], accept);
      }
    }
  }

  /**
   * The nested loops of every field: for each query in turn, the first accepted
   * element's value is stored and the search stops once the stored value is truthy.
   */
  method FindField<T>(queries: seq<seq<string>>, accept: string -> Option<T>, truthy: T -> bool)
    returns (field: Option<T>)
    ensures field == SearchQueries(queries, accept, truthy, None)
  {
    field := None;
    var q := 0;
    while q < |queries|
      invariant 0 <= q <= |queries|
      invariant SearchQueries(queries[q..], accept, truthy, field) == SearchQueries(queries, accept, truthy, None)
      decreases |queries| - q
    {
      var elems := queries[q];
      var e := 0;
      var found := false;
      while e < |elems|
        invariant 0 <= e <= |elems|
        invariant found ==> field == FirstAccepted(elems, accept) && field.Some?
        invariant !found ==> FirstAccepted(elems[e..], accept) == FirstAccepted(elems, accept)
        invariant !found ==> SearchQueries(queries[q..], accept, truthy, field)
                             == SearchQueries(queries, accept, truthy, None)
        decreases |elems| - e, if found then 0 else 1
      {
        assert elems[e..][1..] == elems[e + 1..];
        var v := accept(elems[e]);
        if v.Some? {
          field := v;
          found := true;
          break;
        }
        e := e + 1;
      }
      assert queries[q..][0] == elems && queries[q..][1..] == queries[q + 1..];
      if field.Some? && truthy(field.value) {
        return;
      }
      q := q + 1;
    }
  }

  // ---------------------------------------------------------------------------
  // The field tests.

  /** Area: the first run of digits of the text without commas, if it lies in [100, 10000]. */
  function AreaAccept(text: string): (r: Option<nat>)
    ensures r.Some? <==> var n := IntGroup(Digits, RemoveAll(text, ",")); n.Some? && 100 <= n.value <= 10000
    ensures r.Some? ==> 100 <= r.value <= 10000
    ensures r.Some? ==> IntGroup(Digits, RemoveAll(text, ",")) == r
  {
    var n := IntGroup(Digits, RemoveAll(text, ","));
    if n.Some? && 100 <= n.value <= 10000 then n else None
  }

  /** Bedrooms: `(\d+)[-\s]*bedroom` on the lower-cased text. */
  function BedroomAccept(text: string): Option<nat> {
    IntGroup(DigitsThen(SpacesOrDashes, "bedroom"), Lower(text))
  }

  /** Bathrooms: `(\d+)[-\s]*(?:bathroom|bath)`; both words begin with "bath". */
  function BathroomAccept(text: string): Option<nat> {
    IntGroup(DigitsThen(SpacesOrDashes, "bath"), Lower(text))
  }

  /** Floor: "floor/level then a number" is tried first, then "a number then floor/level". */
  function FloorAccept(text: string): (r: Option<nat>)
    ensures r.None? <==> Search(FloorThenNumber, Lower(text)).None? && Search(NumberThenFloor, Lower(text)).None?
    ensures Search(FloorThenNumber, Lower(text)).Some? ==> r == IntGroup(FloorThenNumber, Lower(text))
  {
    var tl := Lower(text);
    var first := IntGroup(FloorThenNumber, tl);
    if first.Some? then first else IntGroup(NumberThenFloor, tl)
  }

  /** The words that mark a text as a price. The test is case-sensitive. */
  predicate HasPriceKeyword(p: string) {
    Contains(p, "BDT") || Contains(p, "Tk") || Contains(p, "Lakh") || Contains(p, "Crore")
    || Contains(p, "lakh") || Contains(p, "crore")
  }

  lemma EmptyHasNoKeyword()
    ensures !HasPriceKeyword([])
  {
    assert !Contains([], "Tk") && !Contains([], "BDT") && !Contains([], "Lakh") && !Contains([], "Crore");
    assert !Contains([], "lakh") && !Contains([], "crore");
  }

  /** Price: the stripped text, if it carries a price keyword. */
  function PriceAccept(text: string): (r: Option<string>)
    ensures r.Some? <==> HasPriceKeyword(Strip(text))
    ensures r.Some? ==> r.value == Strip(text) && r.value != []
  {
    var p := Strip(text);
    if HasPriceKeyword(p) then
      assert p != [] by {
        EmptyHasNoKeyword();
      }
      Some(p)
    else None
  }

  /** Property type: the first kind named in the lower-cased text. */
  function TypeAccept(text: string): Option<string> {
    PropertyTypeIn(Lower(text))
  }

  /** Location: the stripped text, if it is longer than two characters and not "N/A". */
  function LocationAccept(text: string): (r: Option<string>)
    ensures r.Some? <==> |Strip(text)| > 2 && Strip(text) != "N/A"
    ensures r.Some? ==> r.value == Strip(text)
  {
    var l := Strip(text);
    if l != "" && l != "N/A" && |l| > 2 then Some(l) else None
  }

  predicate NonZero(n: nat) { n != 0 }

  predicate NonEmpty(s: string) { s != "" }

  // ---------------------------------------------------------------------------
  // The page and the record it yields.

  /** The element texts of every query `scrape_property_detail` runs, and the text of `<body>` if the page has one. */
  datatype Page = Page(
    areaQueries: seq<seq<string>>,
    bedroomQueries: seq<seq<string>>,
    priceQueries: seq<seq<string>>,
    bathroomQueries: seq<seq<string>>,
    floorQueries: seq<seq<string>>,
    typeQueries: seq<seq<string>>,
    locationQueries: seq<seq<string>>,
    body: Option<string>)

  /** The dictionary `scrape_property_detail` returns. */
  datatype DetailInfo = DetailInfo(
    areaSqft: Option<nat>,
    bedrooms: Option<nat>,
    bathrooms: Option<nat>,
    floor: Option<nat>,
    forRentSell: Option<string>,
    price: Option<string>,
    location: Option<string>,
    propertyType: Option<string>)

  const NoDetail := DetailInfo(None, None, None, None, None, None, None, None)

  /** Rent/Sell from the address alone (the detail page also accepts "sell"). */
  function DealFromUrl(url: string): (r: Option<string>)
    ensures r == Some("Rent") <==> Contains(Lower(url), "rent")
    ensures r.None? <==> !Contains(Lower(url), "rent") && !Contains(Lower(url), "sale") && !Contains(Lower(url), "sell")
  {
    var ul := Lower(url);
    if Contains(ul, "rent") then Some("Rent")
    else if Contains(ul, "sale") || Contains(ul, "sell") then Some("Sell")
    else None
  }

  /** Rent/Sell from the page's text. */
  function DealFromBody(body: string): Option<string> {
    var pt := Lower(body);
    if Contains(pt, "for rent") || Contains(pt, "available for rent") then Some("Rent")
    else if Contains(pt, "for sale") || Contains(pt, "available for sale") then Some("Sell")
    else None
  }

  /** A price that reads as a rent: per month, monthly or rent. */
  predicate RentPrice(p: string) {
    var pl := Lower(p);
    Contains(pl, "per month") || Contains(pl, "monthly") || Contains(pl, "rent")
  }

  /** A price in crore or lakh reads as a sale. */
  predicate SalePrice(p: string) {
    var pl := Lower(p);
    Contains(pl, "crore") || Contains(pl, "lakh")
  }

  /**
   * The Rent/Sell decision: the address first, the page text when the address says
   * nothing, then the price, which forces Rent or fills in Sell. A page without a
   * `<body>` element ends the decision when the address said nothing, before the price
   * is looked at.
   */
  function DealOf(url: string, body: Option<string>, price: Option<string>): (r: Option<string>)
    ensures r.Some? ==> r.value == "Rent" || r.value == "Sell"
  {
    var fromUrl := DealFromUrl(url);
    if fromUrl.None? && body.None? then None
    else
      var d := if fromUrl.Some? then fromUrl else DealFromBody(body.value);
      if price.Some? && price.value != "" then
        if RentPrice(price.value) then Some("Rent")
        else if SalePrice(price.value) && d.None? then Some("Sell")
        else d
      else d
  }

  /**
   * When the price carries no rent or sale word, the address decides, and the page
   * text decides only when the address says nothing.
   */
  lemma AddressThenPageText(url: string, body: Option<string>, price: Option<string>)
    requires price.None? || price.value == "" || (!RentPrice(price.value) && !SalePrice(price.value))
    requires DealFromUrl(url).Some? || body.Some?
    ensures DealOf(url, body, price) == if DealFromUrl(url).Some? then DealFromUrl(url) else DealFromBody(body.value)
  {
  }

  /** A page without `<body>` leaves a silent address undecided, whatever the price says. */
  lemma NoBodyNoDeal(url: string, price: Option<string>)
    requires DealFromUrl(url).None?
    ensures DealOf(url, None, price).None?
  {
  }

  /**
   * `scrape_property_detail(driver, url)` for a page that loaded (`Some`), or failed
   * to load (`None`), in which case every field stays `None`.
   */
  function DetailOf(url: string, page: Option<Page>): DetailInfo {
    match page
    case None => NoDetail
    case Some(pg) =>
      var price := SearchQueries(pg.priceQueries, PriceAccept, NonEmpty, None);
      var kind := SearchQueries(pg.typeQueries, TypeAccept, NonEmpty, None);
      DetailInfo(
        SearchQueries(pg.areaQueries, AreaAccept, NonZero, None),
        SearchQueries(pg.bedroomQueries, BedroomAccept, NonZero, None),
        SearchQueries(pg.bathroomQueries, BathroomAccept, NonZero, None),
        SearchQueries(pg.floorQueries, FloorAccept, NonZero, None),
        DealOf(url, pg.body, price),
        price,
        SearchQueries(pg.locationQueries, LocationAccept, NonEmpty, None),
        if kind.Some? && kind.value != "" then kind else PropertyTypeIn(Lower(url)))
  }

  /** The scraping of one detail page, field by field in the scraper's order. */
  method ScrapePropertyDetail(url: string, page: Option<Page>) returns (detail: DetailInfo)
    ensures detail == DetailOf(url, page)
  {
    if page.None? {
      return NoDetail;
    }
    var pg := page.value;
    var area := FindField(pg.areaQueries, AreaAccept, NonZero);
    var bedrooms := FindField(pg.bedroomQueries, BedroomAccept, NonZero);
    var price := FindField(pg.priceQueries, PriceAccept, NonEmpty);
    var bathrooms := FindField(pg.bathroomQueries, BathroomAccept, NonZero);
    var floor := FindField(pg.floorQueries, FloorAccept, NonZero);
    var deal := DealOf(url, pg.body, price);
    var kind := FindField(pg.typeQueries, TypeAccept, NonEmpty);
    if !(kind.Some? && kind.value != "") {
      kind := PropertyTypeIn(Lower(url));
    }
    var location := FindField(pg.locationQueries, LocationAccept, NonEmpty);
    detail := DetailInfo(area, bedrooms, bathrooms, floor, deal, price, location, kind);
  }

  // ---------------------------------------------------------------------------
  // What the rules guarantee.

  /** The area is the first element, over all area queries, whose first number lies in [100, 10000]. */
  lemma DetailAreaIsFirstInRange(url: string, pg: Page)
    ensures DetailOf(url, Some(pg)).areaSqft == FirstAccepted(Flatten(pg.areaQueries), AreaAccept)
    ensures DetailOf(url, Some(pg)).areaSqft.Some? ==> 100 <= DetailOf(url, Some(pg)).areaSqft.value <= 10000
  {
    SearchFindsFirst(pg.areaQueries, AreaAccept, NonZero);
    if DetailOf(url, Some(pg)).areaSqft.Some? {
      FirstAcceptedIsAccepted(Flatten(pg.areaQueries), AreaAccept);
    }
  }

  /** The price is the first element, over all price queries, that carries a keyword; it is stripped. */
  lemma DetailPriceIsFirstWithKeyword(url: string, pg: Page)
    ensures DetailOf(url, Some(pg)).price == FirstAccepted(Flatten(pg.priceQueries), PriceAccept)
    ensures var p := DetailOf(url, Some(pg)).price;
            p.Some? ==> HasPriceKeyword(p.value) && Strip(p.value) == p.value
  {
    SearchFindsFirst(pg.priceQueries, PriceAccept, NonEmpty);
    var p := DetailOf(url, Some(pg)).price;
    if p.Some? {
      FirstAcceptedIsAccepted(Flatten(pg.priceQueries), PriceAccept);
      var i :| 0 <= i < |Flatten(pg.priceQueries)| && PriceAccept(Flatten(pg.priceQueries)[i]) == p
               && forall j :: 0 <= j < i ==> PriceAccept(Flatten(pg.priceQueries)[j]).None?;
      StripIdempotent(Flatten(pg.priceQueries)[i]);
    }
  }

  /** The location is the first element, over all location queries, longer than two characters once stripped. */
  lemma DetailLocationIsFirstLongEnough(url: string, pg: Page)
    ensures DetailOf(url, Some(pg)).location == FirstAccepted(Flatten(pg.locationQueries), LocationAccept)
    ensures var l := DetailOf(url, Some(pg)).location;
            l.Some? ==> |l.value| > 2 && l.value != "N/A" && Strip(l.value) == l.value
  {
    SearchFindsFirst(pg.locationQueries, LocationAccept, NonEmpty);
    var l := DetailOf(url, Some(pg)).location;
    if l.Some? {
      FirstAcceptedIsAccepted(Flatten(pg.locationQueries), LocationAccept);
      var i :| 0 <= i < |Flatten(pg.locationQueries)| && LocationAccept(Flatten(pg.locationQueries)[i]) == l
               && forall j :: 0 <= j < i ==> LocationAccept(Flatten(pg.locationQueries)[j]).None?;
      StripIdempotent(Flatten(pg.locationQueries)[i]);
    }
  }

  /**
   * A count (bedrooms, bathrooms, floor) is missing exactly when no element of any of
   * its queries matches; a 0 found by one query is replaced by what a later query finds.
   */
  lemma DetailCountFound(queries: seq<seq<string>>, accept: string -> Option<nat>, first: seq<string>, rest: seq<seq<string>>)
    requires queries == [first] + rest
    requires FirstAccepted(first, accept) == Some(0)
    ensures SearchQueries(queries, accept, NonZero, None).None?
            <==> FirstAccepted(Flatten(queries), accept).None?
    ensures SearchQueries(queries, accept, NonZero, None)
            == if SearchQueries(rest, accept, NonZero, None).None? then Some(0)
               else SearchQueries(rest, accept, NonZero, None)
  {
    SearchFindsNothing(queries, accept, NonZero);
    assert queries[1..] == rest;
    SearchStartValue(rest, accept, NonZero, Some(0));
  }

  /** A price that reads as a rent makes the listing a rent, whatever the address or page text say. */
  lemma RentPriceOverrides(url: string, pg: Page)
    requires DetailOf(url, Some(pg)).price.Some? && RentPrice(DetailOf(url, Some(pg)).price.value)
    requires DealFromUrl(url).Some? || pg.body.Some?
    ensures DetailOf(url, Some(pg)).forRentSell == Some("Rent")
  {
    DetailPriceIsFirstWithKeyword(url, pg);
  }

  /** A crore or lakh price makes the listing a sale only when nothing else has decided it. */
  lemma SalePriceOnlyFills(url: string, body: Option<string>, p: string)
    requires p != "" && SalePrice(p) && !RentPrice(p)
    requires DealFromUrl(url).Some? || body.Some?
    ensures var before := if DealFromUrl(url).Some? then DealFromUrl(url) else DealFromBody(body.value);
            DealOf(url, body, Some(p)) == if before.None? then Some("Sell") else before
  {
  }
}
