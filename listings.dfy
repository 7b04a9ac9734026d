/** The per-listing loop of scrape_ebay (ebaybot.py, lines 36-56). Each
    `li.s-item` container of the fetched page is abstracted to the parts the
    loop looks for: the text of the three title candidates, the text of the
    price span, and the link anchor with its href attribute. */
module Listings {
  import opened Text

  /** An `a.s-item__link` anchor; its href attribute may be missing. */
  datatype Anchor = Anchor(href: Option<string>)

  /** One `li.s-item` container; None is a node that `find` does not find. */
  datatype Container = Container(
    h3Title: Option<string>,
    divTitle: Option<string>,
    spanTitle: Option<string>,
    price: Option<string>,
    anchor: Option<Anchor>)

  /** One result record: {'title': ..., 'price': ..., 'link': ...}. */
  datatype Listing = Listing(title: string, price: string, link: string)

  const NoTitle := "Kein Titel"
  const NoPrice := "Kein Preis"

  /** A node is present and its text is not all whitespace, that is, its
      stripped text is non-empty (see Text.Strip). */
  predicate HasText(node: Option<string>) {
    node.Some? && !Blank(node.value)
  }

  /** The title as lines 39-47 compute it: the h3 node, replaced by the div
      node when it is missing or blank, replaced in turn by the span node
      when that is missing or blank. */
  function TitleText(c: Container): (title: string) {
    var t1 := c.h3Title;
    var t2 := if !HasText(t1) then c.divTitle else t1;
    var t3 := if !HasText(t2) then c.spanTitle else t2;
    if HasText(t3) then Strip(t3.value) else NoTitle
  }

  /** A record's title is never empty and never starts or ends with
      whitespace: blank candidates fall through to the sentinel. */
  lemma TitleNonEmpty(c: Container)
    ensures TitleText(c) != "" && Trimmed(TitleText(c))
  {
  }

  /** The price as line 50 computes it: a present price span gives its
      stripped text, even when that is empty. */
  function PriceText(c: Container): (price: string) {
    if c.price.Some? then Strip(c.price.value) else NoPrice
  }

  /** "Kein Preis" stands in only for a missing price span. A present span
      is never replaced by the sentinel: its text is kept with only the
      surrounding whitespace removed, and is empty exactly when blank. */
  lemma PriceSpec(c: Container)
    ensures c.price.None? ==> PriceText(c) == NoPrice
    ensures c.price.Some? ==> StrippedFrom(PriceText(c), c.price.value)
    ensures c.price.Some? ==> (PriceText(c) == "" <==> Blank(c.price.value))
    ensures Trimmed(PriceText(c))
  {
    if c.price.Some? {
      StripSpec(c.price.value);
    }
  }

  /** nodes[i] is the first node of nodes that has text. */
  predicate IsFirstWithText(nodes: seq<Option<string>>, i: int) {
    && 0 <= i < |nodes|
    && HasText(nodes[i])
    && forall j :: 0 <= j < i ==> !HasText(nodes[j])
  }

  /** The stripped text of the first node in `nodes` that has text, or
      `default` when none has: the ordered fallback chain. */
  function FirstText(nodes: seq<Option<string>>, default: string): string {
    if nodes == [] then default
    else if HasText(nodes[0]) then Strip(nodes[0].value)
    else FirstText(nodes[1..], default)
  }

  /** FirstText picks the earliest node with text and falls back to the
      default only when no node has text. */
  lemma {:induction false} FirstTextSpec(nodes: seq<Option<string>>, default: string)
    ensures (forall i :: 0 <= i < |nodes| ==> !HasText(nodes[i])) ==> FirstText(nodes, default) == default
    ensures forall i :: IsFirstWithText(nodes, i) ==> FirstText(nodes, default) == Strip(nodes[i].value)
    decreases |nodes|
  {
    if nodes != [] && !HasText(nodes[0]) {
      var rest := nodes[1..];
      FirstTextSpec(rest, default);
      forall i | IsFirstWithText(nodes, i)
        ensures FirstText(nodes, default) == Strip(nodes[i].value)
      {
        assert rest[i - 1] == nodes[i];
        forall j | 0 <= j < i - 1 ensures !HasText(rest[j]) {
          assert rest[j] == nodes[j + 1];
        }
        assert IsFirstWithText(rest, i - 1);
      }
      if forall i :: 0 <= i < |nodes| ==> !HasText(nodes[i]) {
        forall i | 0 <= i < |rest| ensures !HasText(rest[i]) {
          assert rest[i] == nodes[i + 1];
        }
      }
    }
  }

  /** The title is the first of h3, div and span that has text, in that
      priority, and "Kein Titel" when none has. */
  lemma TitleIsFirstText(c: Container)
    ensures TitleText(c) == FirstText([c.h3Title, c.divTitle, c.spanTitle], NoTitle)
  {
    var nodes := [c.h3Title, c.divTitle, c.spanTitle];
    var rest := [c.divTitle, c.spanTitle];
    var last := [c.spanTitle];
    assert nodes[1..] == rest && rest[1..] == last && last[1..] == [];
    if HasText(c.h3Title) {
      assert TitleText(c) == Strip(c.h3Title.value);
    } else if HasText(c.divTitle) {
      assert TitleText(c) == Strip(c.divTitle.value);
      assert FirstText(nodes, NoTitle) == FirstText(rest, NoTitle);
    } else {
      assert FirstText(nodes, NoTitle) == FirstText(rest, NoTitle) == FirstText(last, NoTitle);
      assert FirstText(last[1..], NoTitle) == NoTitle;
    }
  }

  /** `item.find('a', ...)['href']`: a missing anchor (a TypeError on
      None) and a missing attribute (a KeyError) both fail. */
  function Href(c: Container): Option<string> {
    match c.anchor
    case None => None
    case Some(a) => a.href
  }

  function ListingOf(c: Container, link: string): Listing {
    Listing(TitleText(c), PriceText(c), link)
  }

  /** The result of the loop over the containers: None when the loop raises
      on a container without a link. */
  function Extract(page: seq<Container>): Option<seq<Listing>> {
    if page == [] then Some([])
    else
      match Extract(page[..|page| - 1])
      case None => None
      case Some(items) =>
        match Href(page[|page| - 1])
        case None => None
        case Some(link) => Some(items + [ListingOf(page[|page| - 1], link)])
  }

  /** The loop itself: one record appended per container, in document
      order; a container without a link raises and ends the scrape. */
  method ExtractListings(page: seq<Container>) returns (result: Option<seq<Listing>>)
    ensures result == Extract(page)
  {
    var items: seq<Listing> := [];
    for i := 0 to |page|
      invariant Extract(page[..i]) == Some(items)
    {
      var item := page[i];
      var title := TitleText(item);
      var price := PriceText(item);
      ExtractStep(page, i);
      match Href(item)
      case None =>
        ExtractAbortsFrom(page, i + 1);
        return None;
      case Some(link) =>
        items := items + [Listing(title, price, link)];
    }
    assert page[..|page|] == page;
    result := Some(items);
  }

  /** Extract on one more container. */
  lemma ExtractStep(page: seq<Container>, i: nat)
    requires i < |page|
    ensures Extract(page[..i + 1]) ==
      if Extract(page[..i]).Some? && Href(page[i]).Some?
      then Some(Extract(page[..i]).value + [ListingOf(page[i], Href(page[i]).value)])
      else None
  {
    assert page[..i + 1][..i] == page[..i];
    assert page[..i + 1][i] == page[i];
  }

  /** Once a prefix of the page fails, every longer prefix fails too. */
  lemma {:induction false} ExtractAbortsFrom(page: seq<Container>, n: nat)
    requires n <= |page| && Extract(page[..n]).None?
    ensures Extract(page).None?
    decreases |page| - n
  {
    if n < |page| {
      ExtractStep(page, n);
      ExtractAbortsFrom(page, n + 1);
    } else {
      assert page[..n] == page;
    }
  }

  /** The extraction succeeds exactly when every container has a link, and
      then yields one record per container, in document order, with that
      container's href as its link. Neither title nor price ever drops a
      container. */
  lemma {:induction false} ExtractSpec(page: seq<Container>)
    ensures Extract(page).Some? <==> forall i :: 0 <= i < |page| ==> Href(page[i]).Some?
    ensures Extract(page).Some? ==>
      && |Extract(page).value| == |page|
      && forall i :: 0 <= i < |page| ==> Extract(page).value[i] == ListingOf(page[i], Href(page[i]).value)
    decreases |page|
  {
    if page != [] {
      var n := |page| - 1;
      var init := page[..n];
      ExtractSpec(init);
      ExtractStep(page, n);
      assert page[..n + 1] == page;
      if Extract(page).Some? {
        var items := Extract(init).value;
        var last := ListingOf(page[n], Href(page[n]).value);
        assert Extract(page).value == items + [last];
        forall i | 0 <= i < |page|
          ensures Extract(page).value[i] == ListingOf(page[i], Href(page[i]).value)
        {
          if i < n {
            assert init[i] == page[i];
            assert (items + [last])[i] == items[i];
          }
        }
      } else if Extract(init).Some? {
        assert Href(page[n]).None?;
      } else {
        var j :| 0 <= j < |init| && Href(init[j]).None?;
        assert init[j] == page[j];
      }
      if forall i :: 0 <= i < |page| ==> Href(page[i]).Some? {
        forall i | 0 <= i < |init| ensures Href(init[i]).Some? {
          assert init[i] == page[i];
        }
      }
    }
  }
}
