/** The downtimes service: the path of one page of a check's downtimes. */
module Downtimes {

  import opened Wrappers
  import opened Strconv
  import opened Query

  /** `max` on two integers. */
  function Max(a: int, b: int): (r: int)
    ensures r >= a && r >= b
    ensures r == a || r == b
  {
    if a > b then a else b
  }

  lemma MaxCommutes(a: int, b: int)
    ensures Max(a, b) == Max(b, a)
  {
  }

  /** The page number put into the path: `max(1, pageNb)`. */
  function Page(pageNb: int): (p: int)
    ensures p >= 1
    ensures pageNb <= 0 ==> p == 1
    ensures pageNb >= 1 ==> p == pageNb
  {
    Max(1, pageNb)
  }

  /** The part of the path before the page number. */
  function PagePrefix(token: string): string {
    "checks/" + token + "/downtimes?page="
  }

  /** The path requested by `DowntimeService.List(token, pageNb)`. */
  function ListPath(token: string, pageNb: int): (path: string)
    ensures |path| > |PagePrefix(token)|
    ensures path[..|PagePrefix(token)|] == PagePrefix(token)
    ensures AllDigits(path[|PagePrefix(token)|..])
  {
    PagePrefix(token) + Itoa(Page(pageNb))
  }

  /** The page number written into the path reads back as `pageNb` clamped to at least 1:
      `page=1` for `pageNb <= 0`, and `pageNb` itself otherwise. */
  lemma ListPathPage(token: string, pageNb: int)
    ensures var page := Atoi(ListPath(token, pageNb)[|PagePrefix(token)|..]);
      && page.Some? && page.value >= 1
      && page.value == (if pageNb <= 0 then 1 else pageNb)
  {
    assert ListPath(token, pageNb)[|PagePrefix(token)|..] == Itoa(Page(pageNb));
    ItoaRoundTrip(Page(pageNb));
  }

  /** When the token holds neither `?` nor `#`, the query of the resolved URL is the single
      parameter `page=<n>`, with `n` the decimal rendering of the clamped page number. */
  lemma ListPathQuery(token: string, pageNb: int)
    requires '?' !in token && '#' !in token
    ensures Split(QueryOf(ListPath(token, pageNb)), '&') == ["page=" + Itoa(Page(pageNb))]
  {
    var page := "page=" + Itoa(Page(pageNb));
    assert ListPath(token, pageNb) == ("checks/" + token + "/downtimes") + ['?'] + page;
    assert '&' !in page && '#' !in page by {
      assert forall i :: 5 <= i < |page| ==> IsDigit(page[i]);
    }
    QueryWithoutFragment("checks/" + token + "/downtimes", page);
    SplitWithoutSeparator(page, '&');
  }
}
