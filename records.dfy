/**
 * The second stage of the scraper: for every collected address, the detail page,
 * the card, the title and the address are merged into one output row, falling back
 * to a reduced row when the price cannot be read; then the table keeps one row per
 * address.
 */
module Records {
  import opened Base
  import opened Prices
  import opened Listing
  import opened Detail
  import opened Collector

  /** A cell of the output table: a text, a count, or a price amount. */
  datatype Cell = Str(s: string) | Int(n: nat) | Num(x: real)

  const NA := Str("N/A")

  /** One output row, its columns in the scraper's order. */
  datatype Record = Record(
    location: Cell,
    areaSqft: Cell,
    price: Cell,
    priceBdt: Cell,
    bedroom: Cell,
    bathroom: Cell,
    floor: Cell,
    forRentSell: Cell,
    propertyType: Cell,
    url: string)

  /** A cell is truthy in Python: not the empty text, not 0 and not 0.0. */
  predicate Truthy(c: Cell) {
    match c
    case Str(s) => s != ""
    case Int(n) => n != 0
    case Num(x) => x != 0.0
  }

  predicate AllTruthy(r: Record) {
    Truthy(r.location) && Truthy(r.areaSqft) && Truthy(r.price) && Truthy(r.priceBdt)
    && Truthy(r.bedroom) && Truthy(r.bathroom) && Truthy(r.floor)
    && Truthy(r.forRentSell) && Truthy(r.propertyType)
  }

  /**
   * `a or b or ...` over optional values: the first value present and truthy;
   * `None` when there is none (then the chain's own result is falsy too).
   */
  function FirstTruthy<T>(xs: seq<Option<T>>, truthy: T -> bool): (r: Option<T>)
    ensures r.Some? ==> truthy(r.value)
  {
    if xs == [] then None
    else if xs[0].Some? && truthy(xs[0].value) then xs[0]
    else FirstTruthy(xs[1..], truthy)
  }

  /** The chain picks the value at the first truthy position, and every earlier position is falsy. */
  lemma {:induction false} FirstTruthyIsFirst<T>(xs: seq<Option<T>>, truthy: T -> bool)
    ensures FirstTruthy(xs, truthy).None? <==> forall i :: 0 <= i < |xs| ==> xs[i].None? || !truthy(xs[i].value)
    ensures FirstTruthy(xs, truthy).Some? ==>
              exists i :: (0 <= i < |xs| && xs[i] == FirstTruthy(xs, truthy)
                           && forall j :: 0 <= j < i ==> xs[j].None? || !truthy(xs[j].value))
  {
    if xs != [] {
      FirstTruthyIsFirst(xs[1..], truthy);
      if !(xs[0].Some? && truthy(xs[0].value)) {
        var tail := xs[1..];
        if FirstTruthy(tail, truthy).Some? {
          var i :| 0 <= i < |tail| && tail[i] == FirstTruthy(tail, truthy)
                   && forall j :: 0 <= j < i ==> tail[j].None? || !truthy(tail[j].value);
          assert xs[i + 1] == tail[i];
          forall j | 0 <= j < i + 1 ensures xs[j].None? || !truthy(xs[j].value) {
            if j > 0 { assert xs[j] == tail[j - 1]; }
          }
        }
        forall i | 0 <= i < |tail| ensures xs[i + 1] == tail[i] { }
      }
    }
  }

  /** The cell for a count: the count when truthy, else "N/A". */
  function CountCell(o: Option<nat>): (c: Cell)
    ensures Truthy(c)
    ensures c != NA ==> o.Some? && c == Int(o.value)
    ensures o.Some? && o.value != 0 ==> c == Int(o.value)
  {
    if o.Some? && o.value != 0 then Int(o.value) else NA
  }

  /** The cell for a text: the text when non-empty, else "N/A". */
  function TextCell(o: Option<string>): (c: Cell)
    ensures Truthy(c)
    ensures o.Some? && o.value != "" ==> c == Str(o.value)
    ensures o.None? || o.value == "" ==> c == NA
  {
    if o.Some? && o.value != "" then Str(o.value) else NA
  }

  /** The cell for a normalised price: the amount when one was read and is not 0, else "N/A". */
  function PriceCell(p: Outcome): (c: Cell)
    ensures Truthy(c)
    ensures p.Priced? && p.amount != 0.0 ==> c == Num(p.amount)
    ensures !(p.Priced? && p.amount != 0.0) ==> c == NA
  {
    if p.Priced? && p.amount != 0.0 then Num(p.amount) else NA
  }

  /** The card's facts, as `all_card_data.get(url, {})` reads them. */
  function CardTitle(card: Option<Card>, missing: string): string {
    if card.Some? then card.value.title else missing
  }

  function CardLocation(card: Option<Card>): Option<string> {
    if card.Some? then card.value.location else None
  }

  function CardPrice(card: Option<Card>): Option<string> {
    if card.Some? then card.value.price else None
  }

  /**
   * The full row built from the detail page `d`, the card, and what the title (`ti`)
   * and the address (`ui`) yield; `None` when `normalize_price` raises on the chosen
   * price text (then the scraper falls back to the reduced row). Each column is the
   * first truthy value in its fixed order of sources; the address column is the
   * address itself.
   */
  function FullRecord(url: string, card: Option<Card>, d: DetailInfo, ti: TitleInfo, ui: UrlInfo): (r: Option<Record>)
    ensures var price := FirstTruthy([d.price, CardPrice(card)], NonEmpty);
            r.None? <==> price.Some? && NormalizePrice(price).Raises?
    ensures r.Some? ==>
              var price := FirstTruthy([d.price, CardPrice(card)], NonEmpty);
              var rec := r.value;
              && rec.areaSqft == CountCell(FirstTruthy([d.areaSqft, ti.areaSqft, ui.areaSqft], NonZero))
              && rec.bedroom == CountCell(FirstTruthy([d.bedrooms, ti.bedrooms, ui.bedrooms], NonZero))
              && rec.price == TextCell(price)
              && rec.priceBdt == (if price.Some? then PriceCell(NormalizePrice(price)) else NA)
              && rec.location == TextCell(FirstTruthy([d.location, CardLocation(card), ti.location, ui.location], NonEmpty))
              && rec.forRentSell == TextCell(FirstTruthy([d.forRentSell, ti.forRentSell, ui.forRentSell], NonEmpty))
              && rec.propertyType == TextCell(FirstTruthy([d.propertyType, ui.propertyType], NonEmpty))
              && rec.bathroom == CountCell(d.bathrooms)
              && rec.floor == CountCell(d.floor)
              && rec.url == url
  {
    var area := OrNats([d.areaSqft, ti.areaSqft, ui.areaSqft]);
    var bedrooms := OrNats([d.bedrooms, ti.bedrooms, ui.bedrooms]);
    var price := OrTexts([d.price, CardPrice(card)]);
    var numeric := if price.Some? && price.value != "" then NormalizePrice(price) else Unset;
    var location := OrTexts([d.location, CardLocation(card), ti.location, ui.location]);
    var deal := OrTexts([d.forRentSell, ti.forRentSell, ui.forRentSell]);
    var kind := OrTexts([d.propertyType, ui.propertyType]);
    CountChain([d.areaSqft, ti.areaSqft, ui.areaSqft]);
    CountChain([d.bedrooms, ti.bedrooms, ui.bedrooms]);
    TextChain([d.price, CardPrice(card)]);
    TextChain([d.location, CardLocation(card), ti.location, ui.location]);
    TextChain([d.forRentSell, ti.forRentSell, ui.forRentSell]);
    TextChain([d.propertyType, ui.propertyType]);
    if numeric.Raises? then None
    else
      Some(Record(TextCell(location), CountCell(area), TextCell(price), PriceCell(numeric),
                  CountCell(bedrooms), CountCell(d.bathrooms), CountCell(d.floor),
                  TextCell(deal), TextCell(kind), url))
  }

  /** Python's `a or b` on optional counts. */
  function OrNat(a: Option<nat>, b: Option<nat>): Option<nat> {
    if a.Some? && a.value != 0 then a else b
  }

  /** Python's `a or b` on optional texts. */
  function OrText(a: Option<string>, b: Option<string>): Option<string> {
    if a.Some? && a.value != "" then a else b
  }

  /** `xs[0] or xs[1] or ...` on counts, folded to the left as Python evaluates it. */
  function OrNats(xs: seq<Option<nat>>): Option<nat>
    requires |xs| > 0
  {
    if |xs| == 1 then xs[0] else OrNat(OrNats(xs[..|xs| - 1]), xs[|xs| - 1])
  }

  /** `xs[0] or xs[1] or ...` on texts. */
  function OrTexts(xs: seq<Option<string>>): Option<string>
    requires |xs| > 0
  {
    if |xs| == 1 then xs[0] else OrText(OrTexts(xs[..|xs| - 1]), xs[|xs| - 1])
  }

  /** A Python `or` chain of counts, put in a cell, is the cell of the first truthy count. */
  lemma {:induction false} CountChain(xs: seq<Option<nat>>)
    requires |xs| > 0
    ensures FirstTruthy(xs, NonZero) == if OrNats(xs).Some? && OrNats(xs).value != 0 then OrNats(xs) else None
    ensures CountCell(OrNats(xs)) == CountCell(FirstTruthy(xs, NonZero))
  {
    if |xs| > 1 {
      var init := xs[..|xs| - 1];
      CountChain(init);
      FirstTruthySplit(init, [xs[|xs| - 1]], NonZero);
      assert init + [xs[|xs| - 1]] == xs;
    }
  }

  /** A Python `or` chain of texts, put in a cell, is the cell of the first truthy text. */
  lemma {:induction false} TextChain(xs: seq<Option<string>>)
    requires |xs| > 0
    ensures FirstTruthy(xs, NonEmpty) == if OrTexts(xs).Some? && OrTexts(xs).value != "" then OrTexts(xs) else None
    ensures TextCell(OrTexts(xs)) == TextCell(FirstTruthy(xs, NonEmpty))
  {
    if |xs| > 1 {
      var init := xs[..|xs| - 1];
      TextChain(init);
      FirstTruthySplit(init, [xs[|xs| - 1]], NonEmpty);
      assert init + [xs[|xs| - 1]] == xs;
    }
  }

  /** The first truthy value of `a + b` comes from `a` when `a` has one, else from `b`. */
  lemma {:induction false} FirstTruthySplit<T>(a: seq<Option<T>>, b: seq<Option<T>>, truthy: T -> bool)
    ensures FirstTruthy(a + b, truthy) == if FirstTruthy(a, truthy).Some? then FirstTruthy(a, truthy) else FirstTruthy(b, truthy)
  {
    if a != [] {
      assert (a + b)[0] == a[0];
      assert (a + b)[1..] == a[1..] + b;
      FirstTruthySplit(a[1..], b, truthy);
    } else {
      assert a + b == b;
    }
  }

  /**
   * The reduced row written when the full row failed: only the card, the title and
   * the address are used, bathroom and floor are "N/A", and the price column is the
   * card's price text or "N/A". `None` when `normalize_price` raises on that text
   * too, which ends the whole run.
   */
  function ReducedRecord(url: string, card: Option<Card>, ti: TitleInfo, ui: UrlInfo): (r: Option<Record>)
    ensures var text := if CardPrice(card).Some? && CardPrice(card).value != "" then CardPrice(card).value else "N/A";
            r.None? <==> text != "N/A" && NormalizePrice(Some(text)).Raises?
    ensures r.Some? ==>
              var rec := r.value;
              && rec.bathroom == NA && rec.floor == NA && rec.url == url
              && rec.location == TextCell(FirstTruthy([CardLocation(card), ti.location, ui.location], NonEmpty))
              && rec.areaSqft == CountCell(FirstTruthy([ti.areaSqft, ui.areaSqft], NonZero))
              && rec.bedroom == CountCell(FirstTruthy([ti.bedrooms, ui.bedrooms], NonZero))
              && rec.forRentSell == TextCell(FirstTruthy([ti.forRentSell, ui.forRentSell], NonEmpty))
              && rec.propertyType == TextCell(ui.propertyType)
              && (rec.price == NA <==> CardPrice(card).None? || CardPrice(card).value in {"", "N/A"})
  {
    var text := if CardPrice(card).Some? && CardPrice(card).value != "" then CardPrice(card).value else "N/A";
    var numeric := if text != "N/A" then NormalizePrice(Some(text)) else Unset;
    TextChain([CardLocation(card), ti.location, ui.location]);
    CountChain([ti.areaSqft, ui.areaSqft]);
    CountChain([ti.bedrooms, ui.bedrooms]);
    TextChain([ti.forRentSell, ui.forRentSell]);
    if numeric.Raises? then None
    else
      Some(Record(TextCell(OrTexts([CardLocation(card), ti.location, ui.location])),
                  CountCell(OrNats([ti.areaSqft, ui.areaSqft])),
                  Str(text),
                  PriceCell(numeric),
                  CountCell(OrNats([ti.bedrooms, ui.bedrooms])),
                  NA, NA,
                  TextCell(OrTexts([ti.forRentSell, ui.forRentSell])),
                  TextCell(ui.propertyType),
                  url))
  }

  /**
   * The row for one address: the full row, else the reduced one; `None` aborts the
   * run. The full row reads the card's title ("N/A" without a card), the reduced row
   * reads it with "" as the default.
   */
  function RecordFor(url: string, card: Option<Card>, d: DetailInfo): (r: Option<Record>)
    ensures r.Some? ==> r.value.url == url && AllTruthy(r.value)
  {
    var ui := ExtractInfoFromUrl(url);
    match FullRecord(url, card, d, ExtractInfoFromTitle(CardTitle(card, "N/A")), ui)
    case Some(rec) => Some(rec)
    case None => ReducedRecord(url, card, ExtractInfoFromTitle(CardTitle(card, "")), ui)
  }

  /**
   * A count on the detail page decides the column whenever it is truthy; a 0 there
   * gives way to the title and then to the address.
   */
  lemma DetailAreaWins(url: string, card: Option<Card>, d: DetailInfo, ti: TitleInfo, ui: UrlInfo)
    requires FullRecord(url, card, d, ti, ui).Some?
    ensures d.areaSqft.Some? && d.areaSqft.value != 0 ==>
              FullRecord(url, card, d, ti, ui).value.areaSqft == Int(d.areaSqft.value)
    ensures d.areaSqft == Some(0) ==>
              FullRecord(url, card, d, ti, ui).value.areaSqft
              == CountCell(FirstTruthy([ti.areaSqft, ui.areaSqft], NonZero))
  {
    var xs := [d.areaSqft, ti.areaSqft, ui.areaSqft];
    assert xs[1..] == [ti.areaSqft, ui.areaSqft];
  }

  /**
   * The location column is "N/A" exactly when no source has one; otherwise it is the
   * value of the first source, in the order detail page, card, title, address, that has one.
   */
  lemma LocationPrecedence(url: string, card: Option<Card>, d: DetailInfo, ti: TitleInfo, ui: UrlInfo)
    requires FullRecord(url, card, d, ti, ui).Some?
    ensures var xs := [d.location, CardLocation(card), ti.location, ui.location];
            var loc := FullRecord(url, card, d, ti, ui).value.location;
            ((forall i :: 0 <= i < 4 ==> xs[i].None? || xs[i].value == "") ==> loc == NA)
            && ((exists i :: 0 <= i < 4 && xs[i].Some? && xs[i].value != "") ==>
                  exists i :: (0 <= i < 4 && xs[i] == Some(loc.s)
                               && forall j :: 0 <= j < i ==> xs[j].None? || xs[j].value == ""))
  {
    var xs := [d.location, CardLocation(card), ti.location, ui.location];
    FirstTruthyIsFirst(xs, NonEmpty);
  }

  // ---------------------------------------------------------------------------
  // The whole table.

  /** The page for an address; an address without one stands for a page that failed to load. */
  function PageFor(pages: map<string, Page>, url: string): Option<Page> {
    if url in pages then Some(pages[url]) else None
  }

  function CardFor(cards: map<string, Card>, url: string): Option<Card> {
    if url in cards then Some(cards[url]) else None
  }

  /**
   * The row for one collected address: its card if one was stored, and its detail
   * page as scraped.
   */
  function RowFor(cards: map<string, Card>, pages: map<string, Page>, url: string): (r: Option<Record>)
    ensures r.Some? ==> r.value.url == url && AllTruthy(r.value)
  {
    RecordFor(url, CardFor(cards, url), DetailOf(url, PageFor(pages, url)))
  }

  /** Every row `row` builds is for its own address and has no falsy cell. */
  ghost predicate RowsWellFormed(row: string -> Option<Record>) {
    forall u :: row(u).Some? ==> row(u).value.url == u && AllTruthy(row(u).value)
  }

  /** The rows `row` builds for `urls` in order, or `None` when one address aborts the run. */
  function Rows(urls: seq<string>, row: string -> Option<Record>): (r: Option<seq<Record>>)
    ensures r.Some? ==> |r.value| == |urls|
    ensures r.None? <==> exists i :: 0 <= i < |urls| && row(urls[i]).None?
  {
    if urls == [] then Some([])
    else
      var init := urls[..|urls| - 1];
      var u := urls[|urls| - 1];
      var prev := Rows(init, row);
      assert prev.None? <==> exists i :: 0 <= i < |urls| - 1 && row(urls[i]).None? by {
        forall i | 0 <= i < |init| ensures init[i] == urls[i] { }
      }
      match prev
      case None => None
      case Some(rs) =>
        match row(u)
        case None => None
        case Some(rec) => Some(rs + [rec])
  }

  /** Row `i` is for address `i`, and no cell of any row is falsy. */
  lemma {:induction false} RowsFollowUrls(urls: seq<string>, row: string -> Option<Record>)
    requires RowsWellFormed(row) && Rows(urls, row).Some?
    ensures forall i :: 0 <= i < |urls| ==> Rows(urls, row).value[i] == row(urls[i]).value
    ensures forall i :: 0 <= i < |urls| ==>
              Rows(urls, row).value[i].url == urls[i] && AllTruthy(Rows(urls, row).value[i])
  {
    if urls != [] {
      var init := urls[..|urls| - 1];
      RowsFollowUrls(init, row);
      var rs := Rows(urls, row).value;
      var prev := Rows(init, row).value;
      assert rs == prev + [row(urls[|urls| - 1]).value];
      forall i | 0 <= i < |urls| ensures rs[i] == row(urls[i]).value {
        if i < |prev| {
          assert rs[i] == prev[i];
          assert urls[i] == init[i];
        }
      }
    }
  }

  function UrlOf(x: Record): string { x.url }

  /** `drop_duplicates(subset=['URL'], keep='first')`. */
  function DedupByUrl(rs: seq<Record>): (r: seq<Record>)
    ensures forall i, j :: 0 <= i < j < |r| ==> r[i].url != r[j].url
    ensures forall u :: HasKey(r, UrlOf, u) <==> HasKey(rs, UrlOf, u)
    ensures forall i :: 0 <= i < |r| ==> KeptFirstAt(rs, UrlOf, r[i])
  {
    KeepFirstDistinct(rs, UrlOf);
    KeepFirstKeys(rs, UrlOf);
    KeepFirstKeepsFirst(rs, UrlOf);
    KeepFirst(rs, UrlOf)
  }

  /** Collected addresses are distinct, so de-duplicating the table removes nothing. */
  lemma DedupKeepsCollectedRows(urls: seq<string>, row: string -> Option<Record>)
    requires Distinct(urls) && RowsWellFormed(row) && Rows(urls, row).Some?
    ensures DedupByUrl(Rows(urls, row).value) == Rows(urls, row).value
  {
    var rs := Rows(urls, row).value;
    RowsFollowUrls(urls, row);
    forall i, j | 0 <= i < j < |rs| ensures UrlOf(rs[i]) != UrlOf(rs[j]) {
      assert rs[i].url == urls[i] && rs[j].url == urls[j];
    }
    KeepFirstOfDistinct(rs, UrlOf);
  }

  /** One more address extends the rows of a prefix by that address's row. */
  lemma RowsPrefixStep(urls: seq<string>, i: nat, row: string -> Option<Record>)
    requires i < |urls| && Rows(urls[..i], row).Some? && row(urls[i]).Some?
    ensures Rows(urls[..i + 1], row) == Some(Rows(urls[..i], row).value + [row(urls[i]).value])
  {
    assert urls[..i + 1][..i] == urls[..i];
  }

  /** The loop over the collected addresses, building each address's row in turn. */
  method CollectRows(urls: seq<string>, row: string -> Option<Record>) returns (data: Option<seq<Record>>)
    ensures data == Rows(urls, row)
  {
    var rows: seq<Record> := [];
    var i := 0;
    while i < |urls|
      invariant 0 <= i <= |urls|
      invariant Rows(urls[..i], row) == Some(rows)
    {
      var rec := row(urls[i]);
      if rec.None? {
        assert Rows(urls, row).None?;
        return None;
      }
      RowsPrefixStep(urls, i, row);
      rows := rows + [rec.value];
      i := i + 1;
    }
    assert urls[..i] == urls;
    data := Some(rows);
  }

  /**
   * Step two of the scraper: every address's detail page is read and its row built,
   * then the table is de-duplicated by address. `None` when the run aborts.
   */
  method ScrapeTable(urls: seq<string>, cards: map<string, Card>, pages: map<string, Page>)
    returns (table: Option<seq<Record>>)
    ensures table == match Rows(urls, u => RowFor(cards, pages, u))
                     case None => None
                     case Some(rs) => Some(DedupByUrl(rs))
  {
    var data := CollectRows(urls, u => RowFor(cards, pages, u));
    if data.None? {
      return None;
    }
    table := Some(DedupByUrl(data.value));
  }
}
