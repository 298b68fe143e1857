/**
 * The accumulator the listing pages feed: `all_urls`, the property addresses in the
 * order they were first seen, and `all_card_data`, the card facts stored per address.
 * Two paths add to it: the search for every property link on a page, and the walk
 * over the listing cards.
 */
module Collector {
  import opened Base
  import opened Text

  /** What a listing card shows: its title, and its address and price text when found. */
  datatype Card = Card(title: string, location: Option<string>, price: Option<string>)

  /** A link found on a page: its `href` attribute (`None` when absent) and the card facts read next to it. */
  datatype Link = Link(href: Option<string>, card: Card)

  /** The accumulator's contents as values. */
  datatype Acc = Acc(urls: seq<string>, cards: map<string, Card>)

  predicate Distinct(s: seq<string>) {
    forall i, j :: 0 <= i < j < |s| ==> s[i] != s[j]
  }

  /** No address is listed twice, and card facts are stored only for listed addresses. */
  predicate AccValid(a: Acc) {
    Distinct(a.urls) && forall u :: u in a.cards ==> u in a.urls
  }

  /** `s.split("#")[0]`: the text before the first '#'. */
  function BeforeHash(s: string): (r: string)
    ensures r <= s
    ensures forall k :: 0 <= k < |r| ==> r[k] != '#'
    ensures |r| < |s| ==> s[|r|] == '#'
    ensures '#' !in s ==> r == s
  {
    if s == [] || s[0] == '#' then []
    else [s[0]] + BeforeHash(s[1..])
  }

  // ---------------------------------------------------------------------------
  // One link at a time, as values.

  /**
   * The address the direct-link search appends for `href`, if any: the attribute must
   * be present, non-empty, not yet listed and contain "/property/"; its fragment is
   * then cut off, and the result must not be listed either.
   */
  function DirectLinkUrl(urls: seq<string>, href: Option<string>): (r: Option<string>)
    ensures r.Some? <==> href.Some? && href.value != "" && href.value !in urls
                         && Contains(href.value, "/property/") && BeforeHash(href.value) !in urls
    ensures r.Some? ==> r.value == BeforeHash(href.value) && '#' !in r.value && r.value <= href.value
  {
    if href.Some? && href.value != "" && href.value !in urls && Contains(href.value, "/property/") then
      var u := if '#' in href.value then BeforeHash(href.value) else href.value;
      if u !in urls then Some(u) else None
    else None
  }

  /** The address the card walk appends: any present, non-empty address not yet listed, as it is. */
  function CardLinkUrl(urls: seq<string>, href: Option<string>): (r: Option<string>)
    ensures r.Some? <==> href.Some? && href.value != "" && href.value !in urls
    ensures r.Some? ==> r.value == href.value
  {
    if href.None? || href.value == "" || href.value in urls then None else href
  }

  /**
   * One step of the direct-link search: the address is appended at the end, and its
   * card facts are stored unless some are stored already.
   */
  function DirectStep(a: Acc, link: Link): (r: Acc)
    ensures a.urls <= r.urls && |r.urls| <= |a.urls| + 1
    ensures forall u :: u in a.cards ==> u in r.cards && r.cards[u] == a.cards[u]
    ensures |r.urls| == |a.urls| + 1 <==> DirectLinkUrl(a.urls, link.href).Some?
  {
    match DirectLinkUrl(a.urls, link.href)
    case None => a
    case Some(u) => Acc(a.urls + [u], if u in a.cards then a.cards else a.cards[u := link.card])
  }

  /** One step of the card walk: a new address is appended and its card facts are stored. */
  function CardStep(a: Acc, link: Link): (r: Acc)
    ensures a.urls <= r.urls && |r.urls| <= |a.urls| + 1
    ensures |r.urls| == |a.urls| + 1 <==> CardLinkUrl(a.urls, link.href).Some?
    ensures |r.urls| == |a.urls| + 1 ==> r.cards == a.cards[link.href.value := link.card]
    ensures AccValid(a) ==> forall u :: u in a.cards ==> u in r.cards && r.cards[u] == a.cards[u]
  {
    match CardLinkUrl(a.urls, link.href)
    case None => a
    case Some(u) => Acc(a.urls + [u], a.cards[u := link.card])
  }

  /** Appending an address that is not listed keeps the addresses distinct. */
  lemma AppendDistinct(s: seq<string>, u: string)
    requires Distinct(s) && u !in s
    ensures Distinct(s + [u])
  {
    var t := s + [u];
    forall i, j | 0 <= i < j < |t| ensures t[i] != t[j] {
      assert t[i] == s[i];
      if j == |s| { assert t[j] == u; } else { assert t[j] == s[j]; }
    }
  }

  /** Both steps keep the accumulator valid. */
  lemma StepsKeepValid(a: Acc, link: Link)
    requires AccValid(a)
    ensures AccValid(DirectStep(a, link)) && AccValid(CardStep(a, link))
  {
    var d := DirectLinkUrl(a.urls, link.href);
    if d.Some? { AppendDistinct(a.urls, d.value); }
    var c := CardLinkUrl(a.urls, link.href);
    if c.Some? { AppendDistinct(a.urls, c.value); }
  }

  // ---------------------------------------------------------------------------
  // A page's worth of links.

  /** The accumulator after the direct-link search runs over `links` in order. */
  function DirectLinks(a: Acc, links: seq<Link>): Acc {
    if links == [] then a else DirectStep(DirectLinks(a, links[..|links| - 1]), links[|links| - 1])
  }

  /** The accumulator after the card walk runs over `links` in order. */
  function CardLinks(a: Acc, links: seq<Link>): Acc {
    if links == [] then a else CardStep(CardLinks(a, links[..|links| - 1]), links[|links| - 1])
  }

  /**
   * Over a whole page, both paths keep the accumulator valid, and the earlier
   * addresses stay in place: the list only grows, at its end.
   */
  lemma {:induction false} LinksKeepValid(a: Acc, links: seq<Link>)
    requires AccValid(a)
    ensures AccValid(DirectLinks(a, links)) && a.urls <= DirectLinks(a, links).urls
    ensures AccValid(CardLinks(a, links)) && a.urls <= CardLinks(a, links).urls
  {
    if links != [] {
      var init := links[..|links| - 1];
      LinksKeepValid(a, init);
      StepsKeepValid(DirectLinks(a, init), links[|links| - 1]);
      StepsKeepValid(CardLinks(a, init), links[|links| - 1]);
    }
  }

  /** Every address the direct-link search adds is free of a fragment. */
  lemma {:induction false} DirectLinksHaveNoFragment(a: Acc, links: seq<Link>)
    ensures forall i :: |a.urls| <= i < |DirectLinks(a, links).urls| ==> '#' !in DirectLinks(a, links).urls[i]
  {
    if links != [] {
      var init := links[..|links| - 1];
      DirectLinksHaveNoFragment(a, init);
      var m := DirectLinks(a, init);
      var r := DirectLinks(a, links);
      forall i | |a.urls| <= i < |r.urls| ensures '#' !in r.urls[i] {
        if i < |m.urls| {
          assert r.urls[i] == m.urls[i];
        } else {
          var d := DirectLinkUrl(m.urls, links[|links| - 1].href);
          assert r == DirectStep(m, links[|links| - 1]);
          assert d.Some? && r.urls == m.urls + [d.value];
        }
      }
    }
  }

  /**
   * The "/property/" test comes before the fragment is cut off, so an address that
   * has the marker only in its fragment is appended without it.
   */
  lemma MarkerMayLieInFragment()
    ensures DirectLinkUrl([], Some("a#" + "/property/")) == Some("a")
  {
    var s := "a#" + "/property/";
    assert At(s, 2, "/property/");
    assert BeforeHash(s[1..]) == [];
    assert BeforeHash(s) == "a";
  }

  // ---------------------------------------------------------------------------
  // The accumulator itself.

  /** `all_urls` and `all_card_data`, updated in place as the pages are read. */
  class UrlCollector {
    var urls: seq<string>
    var cards: map<string, Card>

    ghost predicate Valid()
      reads this
    {
      AccValid(Acc(urls, cards))
    }

    constructor()
      ensures urls == [] && cards == map[]
      ensures Valid()
    {
      urls := [];
      cards := map[];
    }

    /** The body of the direct-link search for one link; `added` is whether it counted as new. */
    method AddDirectLink(link: Link) returns (added: bool)
      requires Valid()
      modifies this
      ensures Acc(urls, cards) == DirectStep(Acc(old(urls), old(cards)), link)
      ensures added <==> |urls| == |old(urls)| + 1
      ensures Valid()
    {
      StepsKeepValid(Acc(urls, cards), link);
      added := false;
      var href := link.href;
      if href.Some? && href.value != "" && href.value !in urls && Contains(href.value, "/property/") {
        var u := href.value;
        if '#' in u {
          u := BeforeHash(u);
        }
        if u !in urls {
          urls := urls + [u];
          added := true;
          if u !in cards {
            cards := cards[u := link.card];
          }
        }
      }
    }

    /** The body of the card walk for one card whose link was read as `link.href`. */
    method AddCardLink(link: Link) returns (added: bool)
      requires Valid()
      modifies this
      ensures Acc(urls, cards) == CardStep(Acc(old(urls), old(cards)), link)
      ensures added <==> |urls| == |old(urls)| + 1
      ensures Valid()
    {
      StepsKeepValid(Acc(urls, cards), link);
      added := false;
      var href := link.href;
      if href.None? || href.value == "" || href.value in urls {
        return;
      }
      urls := urls + [href.value];
      added := true;
      cards := cards[href.value := link.card];
    }

    /**
     * The direct-link search over one page's links; `found` is the number of
     * addresses it added (`direct_urls_found`).
     */
    method AddDirectLinks(links: seq<Link>) returns (found: nat)
      requires Valid()
      modifies this
      ensures Acc(urls, cards) == DirectLinks(Acc(old(urls), old(cards)), links)
      ensures found == |urls| - |old(urls)|
      ensures Valid()
    {
      ghost var start := Acc(urls, cards);
      found := 0;
      var i := 0;
      while i < |links|
        invariant 0 <= i <= |links|
        invariant Acc(urls, cards) == DirectLinks(start, links[..i])
        invariant Valid()
        invariant |urls| == |start.urls| + found
      {
        assert links[..i + 1][..i] == links[..i];
        var added := AddDirectLink(links[i]);
        if added {
          found := found + 1;
        }
        i := i + 1;
      }
      assert links[..i] == links;
    }

    /**
     * The card walk over one page's cards; `count` is the number of addresses it
     * added (`page_urls_count`).
     */
    method AddCardLinks(links: seq<Link>) returns (count: nat)
      requires Valid()
      modifies this
      ensures Acc(urls, cards) == CardLinks(Acc(old(urls), old(cards)), links)
      ensures count == |urls| - |old(urls)|
      ensures Valid()
    {
      ghost var start := Acc(urls, cards);
      count := 0;
      var i := 0;
      while i < |links|
        invariant 0 <= i <= |links|
        invariant Acc(urls, cards) == CardLinks(start, links[..i])
        invariant Valid()
        invariant |urls| == |start.urls| + count
      {
        assert links[..i + 1][..i] == links[..i];
        var added := AddCardLink(links[i]);
        if added {
          count := count + 1;
        }
        i := i + 1;
      }
      assert links[..i] == links;
    }
  }
}
