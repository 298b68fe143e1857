/**
 * The cleaning pass over the raw listing table: the price is read into
 * `price_clean`, the area into `area_sqft`, the location is stripped; then repeated
 * rows are dropped, and so are rows without a price.
 */
module Cleaning {
  import opened Base
  import opened Text
  import opened Patterns
  import opened Prices

  /**
   * `extract_area(title)`: the leftmost run of 3 to 5 digits followed by optional
   * whitespace and "sqft", "sft" or "ft" in the lower-cased title.
   */
  function ExtractArea(title: string): (r: Option<nat>)
    ensures r.None? <==> Search(AreaWithUnit, Lower(title)).None?
    ensures r.Some? ==>
              var tl := Lower(title);
              var g := GroupAt(AreaWithUnit, tl, Search(AreaWithUnit, tl).value);
              3 <= |g| <= 5 && AllDigits(g) && r.value == DigitsValue(g) && r.value <= 99999
  {
    var tl := Lower(title);
    match Search(AreaWithUnit, tl)
    case None => None
    case Some(_) =>
      AreaGroupBounded(tl);
      IntGroup(AreaWithUnit, tl)
  }

  /**
   * The area is read from the leftmost position from which the rest of a digit run has
   * 3 to 5 digits and is followed by the gap and a unit; in a longer run that
   * position is inside the run.
   */
  lemma AreaIsNumberBeforeUnit(title: string)
    requires ExtractArea(title).Some?
    ensures var tl := Lower(title);
            var k := Search(AreaWithUnit, tl).value;
            var e := DigitRunEnd(tl, k);
            3 <= e - k <= 5 && UnitAt(tl, SkipGap(tl, e, Spaces))
            && AllDigits(tl[k..e]) && ExtractArea(title) == Some(DigitsValue(tl[k..e]))
  {
  }

  /** The example of the documentation: "1200 sqft" has area 1200. */
  lemma AreaExample()
    ensures ExtractArea("1200" + " sqft") == Some(1200)
  {
    var t := "1200" + " sqft";
    ExampleIsLower(t);
    ExampleMatches(t);
    Digits1200();
  }

  lemma ExampleIsLower(t: string)
    requires t == "1200" + " sqft"
    ensures Lower(t) == t
  {
    LowerIdle(t);
  }

  lemma ExampleMatches(t: string)
    requires t == "1200" + " sqft"
    ensures MatchAt(AreaWithUnit, t, 0) && Search(AreaWithUnit, t) == Some(0)
    ensures GroupAt(AreaWithUnit, t, 0) == "1200"
  {
    assert !IsDigit(t[4]);
    assert DigitRunEnd(t, 3) == 4;
    assert DigitRunEnd(t, 0) == 4;
    assert SkipGap(t, 4, Spaces) == 5;
    assert At(t, 5, "sqft");
    assert t[0..4] == "1200";
  }

  lemma Digits1200()
    ensures DigitsValue("1200") == 1200
  {
    assert "1200"[..3] == "120" && "120"[..2] == "12" && "12"[..1] == "1" && "1"[..0] == [];
  }

  /**
   * A row of the raw table. A missing cell (`NaN`) is `None`; `others` are the columns
   * this pass does not touch; `priceClean` and `areaSqft` are overwritten.
   */
  datatype Row = Row(
    price: Option<string>,
    title: Option<string>,
    location: Option<string>,
    others: seq<Option<string>>,
    priceClean: Option<real>,
    areaSqft: Option<nat>)

  /** Why the pass stops: `clean_price` raised, or a missing title met `.lower()`. */
  datatype Failure = PriceUnreadable | TitleMissing

  datatype Cleaned = Table(rows: seq<Row>) | Fails(why: Failure)

  /** The `price_clean` cell of a row whose price does not make `clean_price` raise. */
  function PriceValue(price: Option<string>): (r: Option<real>)
    ensures r.Some? <==> CleanPrice(price).Priced?
    ensures r.Some? ==> CleanPrice(price) == Priced(r.value)
  {
    match CleanPrice(price)
    case Priced(x) => Some(x)
    case _ => None
  }

  /** The `area_sqft` cell of a row with a title. */
  function AreaValue(title: Option<string>): Option<nat> {
    if title.Some? then ExtractArea(title.value) else None
  }

  /** `.str.strip()`: a missing cell stays missing. */
  function StripCell(o: Option<string>): (r: Option<string>)
    ensures r.None? <==> o.None?
  {
    if o.Some? then Some(Strip(o.value)) else None
  }

  predicate PriceFails(r: Row) { CleanPrice(r.price).Raises? }

  predicate TitleFails(r: Row) { r.title.None? }

  /**
   * The three column assignments applied to one row: every other column passes
   * through, and the new cells depend only on the row's price, title and location.
   */
  function CleanRow(r: Row): (c: Row)
    ensures c.price == r.price && c.title == r.title && c.others == r.others
    ensures c.priceClean.Some? <==> CleanPrice(r.price).Priced?
    ensures c.areaSqft.Some? ==> r.title.Some? && c.areaSqft.value <= 99999
    ensures c.location.None? <==> r.location.None?
  {
    r.(priceClean := PriceValue(r.price), areaSqft := AreaValue(r.title), location := StripCell(r.location))
  }

  /** Cleaning a cleaned row changes nothing. */
  lemma CleanRowIdempotent(r: Row)
    ensures CleanRow(CleanRow(r)) == CleanRow(r)
  {
    if r.location.Some? {
      StripIdempotent(r.location.value);
    }
  }

  function CleanRows(rows: seq<Row>): (r: seq<Row>)
    ensures |r| == |rows|
    ensures forall i :: 0 <= i < |rows| ==> r[i] == CleanRow(rows[i])
  {
    seq(|rows|, i requires 0 <= i < |rows| => CleanRow(rows[i]))
  }

  function RowKey(r: Row): Row { r }

  function HasPrice(r: Row): bool { r.priceClean.Some? }

  /** `df.drop_duplicates()` over all columns, keeping the first copy. */
  function DropDuplicates(rows: seq<Row>): seq<Row> {
    KeepFirst(rows, RowKey)
  }

  /** `df.dropna(subset=["price_clean"])`. */
  function DropMissingPrice(rows: seq<Row>): seq<Row> {
    Filter(rows, HasPrice)
  }

  /** `clean_dataset` on the table read from the raw file. */
  function CleanTable(rows: seq<Row>): Cleaned {
    if exists i :: 0 <= i < |rows| && PriceFails(rows[i]) then Fails(PriceUnreadable)
    else if exists i :: 0 <= i < |rows| && TitleFails(rows[i]) then Fails(TitleMissing)
    else Table(DropMissingPrice(DropDuplicates(CleanRows(rows))))
  }

  // ---------------------------------------------------------------------------
  // What the pass guarantees.

  /**
   * Every output row has a price, no two output rows are equal, and the output is
   * the cleaned input in its original order with rows removed: exactly the cleaned
   * rows with a price survive, one copy each.
   */
  lemma CleanTableShape(rows: seq<Row>)
    requires CleanTable(rows).Table?
    ensures var out := CleanTable(rows).rows;
            var cleaned := CleanRows(rows);
            && (forall k :: 0 <= k < |out| ==> out[k].priceClean.Some?)
            && (forall i, j :: 0 <= i < j < |out| ==> out[i] != out[j])
            && Subseq(out, cleaned)
            && (forall x :: x in out <==> x in cleaned && x.priceClean.Some?)
            && out == Filter(Pick(cleaned, FirstIndices(cleaned, RowKey)), HasPrice)
  {
    var cleaned := CleanRows(rows);
    var d := DropDuplicates(cleaned);
    var out := DropMissingPrice(d);
    assert CleanTable(rows).rows == out;
    DropDuplicatesShape(cleaned);
    assert d == Pick(cleaned, FirstIndices(cleaned, RowKey));
    FilterMembers(d, HasPrice);
    FilterIsSubseq(d, HasPrice);
    SubseqTrans(out, d, cleaned);
    SubseqDistinct(out, d);
  }

  /**
   * `drop_duplicates` keeps one copy of every row, in the original order: the copy
   * at the row's first occurrence.
   */
  lemma DropDuplicatesShape(rows: seq<Row>)
    ensures var d := DropDuplicates(rows);
            && (forall i, j :: 0 <= i < j < |d| ==> d[i] != d[j])
            && Subseq(d, rows)
            && (forall x :: x in d <==> x in rows)
            && d == Pick(rows, FirstIndices(rows, RowKey))
  {
    var d := DropDuplicates(rows);
    KeepFirstDistinct(rows, RowKey);
    KeepFirstKeys(rows, RowKey);
    KeepFirstIsSubseq(rows, RowKey);
    forall x | x in rows ensures x in d {
      var j :| 0 <= j < |rows| && rows[j] == x;
      assert HasKey(rows, RowKey, RowKey(x));
      var i :| 0 <= i < |d| && RowKey(d[i]) == x;
    }
    forall x | x in d ensures x in rows {
      var i :| 0 <= i < |d| && d[i] == x;
      assert HasKey(rows, RowKey, RowKey(d[i]));
    }
    KeepFirstAtFirstIndices(rows, RowKey);
  }

  /** A subsequence of a sequence without repeats has no repeats. */
  lemma {:induction false} SubseqDistinct(xs: seq<Row>, ys: seq<Row>)
    requires Subseq(xs, ys) && forall i, j :: 0 <= i < j < |ys| ==> ys[i] != ys[j]
    ensures forall i, j :: 0 <= i < j < |xs| ==> xs[i] != xs[j]
    decreases |ys|
  {
    if xs != [] {
      var yi := ys[..|ys| - 1];
      if xs[|xs| - 1] == ys[|ys| - 1] {
        var xi := xs[..|xs| - 1];
        SubseqDistinct(xi, yi);
        SubseqMembers(xi, yi);
        forall i, j | 0 <= i < j < |xs| ensures xs[i] != xs[j] {
          if j < |xs| - 1 {
            assert xs[i] == xi[i] && xs[j] == xi[j];
          } else {
            assert xs[i] == xi[i] && xi[i] in yi;
          }
        }
      } else {
        SubseqDistinct(xs, yi);
      }
    }
  }

  /** The elements of a subsequence come from the sequence. */
  lemma {:induction false} SubseqMembers(xs: seq<Row>, ys: seq<Row>)
    requires Subseq(xs, ys)
    ensures forall x :: x in xs ==> x in ys
    decreases |ys|
  {
    if xs != [] {
      var yi := ys[..|ys| - 1];
      assert yi + [ys[|ys| - 1]] == ys;
      if xs[|xs| - 1] == ys[|ys| - 1] {
        var xi := xs[..|xs| - 1];
        SubseqMembers(xi, yi);
        assert xi + [xs[|xs| - 1]] == xs;
      } else {
        SubseqMembers(xs, yi);
      }
    }
  }

  /** A row the pass outputs is one it would keep and would not change. */
  lemma StableRow(rows: seq<Row>, x: Row)
    requires CleanTable(rows).Table? && x in CleanRows(rows)
    ensures !PriceFails(x) && !TitleFails(x) && CleanRow(x) == x
  {
    var cleaned := CleanRows(rows);
    var i :| 0 <= i < |cleaned| && cleaned[i] == x;
    CleanRowIdempotent(rows[i]);
    assert !PriceFails(rows[i]) && !TitleFails(rows[i]);
  }

  /** A table of distinct rows that are already clean and priced. */
  predicate Settled(rows: seq<Row>) {
    && !(exists i :: 0 <= i < |rows| && PriceFails(rows[i]))
    && !(exists i :: 0 <= i < |rows| && TitleFails(rows[i]))
    && (forall k :: 0 <= k < |rows| ==> HasPrice(rows[k]))
    && CleanRows(rows) == rows
    && (forall i, j :: 0 <= i < j < |rows| ==> RowKey(rows[i]) != RowKey(rows[j]))
  }

  /** The output of the pass is settled. */
  lemma OutputSettled(rows: seq<Row>)
    requires CleanTable(rows).Table?
    ensures Settled(CleanTable(rows).rows)
  {
    var out := CleanTable(rows).rows;
    assert && (forall k :: 0 <= k < |out| ==> out[k].priceClean.Some?)
           && (forall i, j :: 0 <= i < j < |out| ==> out[i] != out[j])
           && (forall x :: x in out ==> x in CleanRows(rows)) by {
      CleanTableShape(rows);
    }
    forall k | 0 <= k < |out| ensures !PriceFails(out[k]) && !TitleFails(out[k]) && CleanRow(out[k]) == out[k] {
      StableRow(rows, out[k]);
    }
    StableRowsSettled(out);
  }

  /** Distinct priced rows that the pass would keep and not change are settled. */
  lemma StableRowsSettled(out: seq<Row>)
    requires forall k :: 0 <= k < |out| ==> out[k].priceClean.Some?
    requires forall i, j :: 0 <= i < j < |out| ==> out[i] != out[j]
    requires forall k :: 0 <= k < |out| ==> !PriceFails(out[k]) && !TitleFails(out[k]) && CleanRow(out[k]) == out[k]
    ensures Settled(out)
  {
    assert CleanRows(out) == out;
  }

  /** The pass leaves a settled table as it is. */
  lemma SettledIsFixed(rows: seq<Row>)
    requires Settled(rows)
    ensures CleanTable(rows) == Table(rows)
  {
    KeepFirstOfDistinct(rows, RowKey);
    FilterAll(rows, HasPrice);
    assert DropMissingPrice(DropDuplicates(rows)) == rows;
    assert CleanTable(rows) == Table(DropMissingPrice(DropDuplicates(CleanRows(rows))));
  }

  /** Running the pass on its own output gives the same table. */
  lemma CleanTableIdempotent(rows: seq<Row>)
    requires CleanTable(rows).Table?
    ensures CleanTable(CleanTable(rows).rows) == CleanTable(rows)
  {
    OutputSettled(rows);
    SettledIsFixed(CleanTable(rows).rows);
  }

  // ---------------------------------------------------------------------------
  // The pass as the program runs it.

  /** `df["price_clean"] = df["price"].apply(clean_price)`; `false` when `clean_price` raises. */
  method AssignPrices(df: array<Row>) returns (ok: bool)
    modifies df
    ensures ok <==> forall k :: 0 <= k < df.Length ==> !PriceFails(old(df[k]))
    ensures ok ==> forall k :: 0 <= k < df.Length ==> df[k] == old(df[k]).(priceClean := PriceValue(old(df[k]).price))
  {
    var i := 0;
    while i < df.Length
      invariant 0 <= i <= df.Length
      invariant forall k :: 0 <= k < i ==> !PriceFails(old(df[k]))
      invariant forall k :: 0 <= k < i ==> df[k] == old(df[k]).(priceClean := PriceValue(old(df[k]).price))
      invariant forall k :: i <= k < df.Length ==> df[k] == old(df[k])
    {
      var p := CleanPrice(df[i].price);
      if p.Raises? {
        assert PriceFails(old(df[i]));
        return false;
      }
      df[i] := df[i].(priceClean := PriceValue(df[i].price));
      i := i + 1;
    }
    return true;
  }

  /** `df["area_sqft"] = df["title"].apply(extract_area)`; `false` when a title is missing. */
  method AssignAreas(df: array<Row>) returns (ok: bool)
    modifies df
    ensures ok <==> forall k :: 0 <= k < df.Length ==> !TitleFails(old(df[k]))
    ensures ok ==> forall k :: 0 <= k < df.Length ==> df[k] == old(df[k]).(areaSqft := AreaValue(old(df[k]).title))
  {
    var i := 0;
    while i < df.Length
      invariant 0 <= i <= df.Length
      invariant forall k :: 0 <= k < i ==> !TitleFails(old(df[k]))
      invariant forall k :: 0 <= k < i ==> df[k] == old(df[k]).(areaSqft := AreaValue(old(df[k]).title))
      invariant forall k :: i <= k < df.Length ==> df[k] == old(df[k])
    {
      if df[i].title.None? {
        assert TitleFails(old(df[i]));
        return false;
      }
      df[i] := df[i].(areaSqft := ExtractArea(df[i].title.value));
      i := i + 1;
    }
    return true;
  }

  /** `df["location"] = df["location"].str.strip()`. */
  method StripLocations(df: array<Row>)
    modifies df
    ensures forall k :: 0 <= k < df.Length ==> df[k] == old(df[k]).(location := StripCell(old(df[k]).location))
  {
    var i := 0;
    while i < df.Length
      invariant 0 <= i <= df.Length
      invariant forall k :: 0 <= k < i ==> df[k] == old(df[k]).(location := StripCell(old(df[k]).location))
      invariant forall k :: i <= k < df.Length ==> df[k] == old(df[k])
    {
      df[i] := df[i].(location := StripCell(df[i].location));
      i := i + 1;
    }
  }

  /**
   * `clean_dataset`: the table is copied into a frame, the three columns are
   * assigned in place one after the other, and the frame is then de-duplicated and
   * filtered.
   */
  method CleanDataset(rows: seq<Row>) returns (result: Cleaned)
    ensures result == CleanTable(rows)
  {
    var df := new Row[|rows|](i requires 0 <= i < |rows| => rows[i]);
    assert df[..] == rows;
    var ok := AssignPrices(df);
    if !ok {
      return Fails(PriceUnreadable);
    }
    ghost var priced := df[..];
    ok := AssignAreas(df);
    if !ok {
      assert forall k :: 0 <= k < |rows| ==> priced[k].title == rows[k].title;
      return Fails(TitleMissing);
    }
    StripLocations(df);
    assert df[..] == CleanRows(rows);
    result := Table(DropMissingPrice(DropDuplicates(df[..])));
  }
}
