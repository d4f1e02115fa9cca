/** `extractVideoId` of `ApiVideoRepository`: the video ID is taken from the
    resolved URL's path, else from its `item_id` query parameter, else from the
    first of five patterns that matches the page's HTML. */
module VideoIds {
  import opened Wrappers
  import opened Strings
  import opened Patterns
  import opened Failures

  /** `/\/video\/(\d+)/`. */
  const UrlIdPattern: Pattern := [Term(Lit("/video/"), false), IdGroup]

  const IdGroup := Term(Many(Digit, true), true)

  /** The characters `["':=]` of the assignment-style patterns. */
  const Assign := AnyOf("\"':=")

  /** The HTML patterns, in the order they are tried. */
  const HtmlIdPatterns: seq<Pattern> := [
    [Term(Lit("video/"), false), IdGroup],                                // video\/(\d+)
    [Term(Lit("itemId"), false), Term(Many(Assign, true), false), IdGroup],  // itemId["':=]+(\d+)
    [Term(Lit("\"itemId\""), false), Term(Many(Space, false), false),       // "itemId"\s*:\s*"(\d+)"
     Term(Lit(":"), false), Term(Many(Space, false), false),
     Term(Lit("\""), false), IdGroup, Term(Lit("\""), false)],
    [Term(Lit("item_ids="), false), IdGroup],                             // item_ids=(\d+)
    [Term(Lit("awemeId"), false), Term(Many(Assign, true), false), IdGroup]  // awemeId["':=]+(\d+)
  ]

  /** The index of the first pattern, from `from` on, whose first group is found. */
  function FirstPatternFrom(s: string, pats: seq<Pattern>, from: nat): (r: Option<nat>)
    decreases |pats| - from
    ensures r.Some? ==> from <= r.value < |pats| && FirstGroup(s, pats[r.value]).Some?
    ensures r.Some? ==> forall j :: from <= j < r.value ==> FirstGroup(s, pats[j]).None?
    ensures r.None? ==> forall j :: from <= j < |pats| ==> FirstGroup(s, pats[j]).None?
  {
    if from >= |pats| then None
    else if FirstGroup(s, pats[from]).Some? then Some(from)
    else FirstPatternFrom(s, pats, from + 1)
  }

  /** The `for (const pattern of patterns)` loop: the first group of the first
      pattern that matches. */
  function FirstPatternGroup(s: string, pats: seq<Pattern>): (r: Option<string>)
    ensures r.Some? ==> r.value != ""
  {
    match FirstPatternFrom(s, pats, 0)
    case Some(i) => FirstGroup(s, pats[i])
    case None => None
  }

  /** `extractVideoId(url)`, with the query lookup and the page fetch as inputs:
      `itemIdParam` is what `new URL(url).searchParams.get('item_id')` yields
      (None when the URL does not parse or the parameter is absent), `page` the
      body of the HTML GET of `url` (None when that request fails). */
  function ExtractVideoId(url: string, itemIdParam: Option<string>, page: Option<string>): (r: Result<string, Failure>)
    ensures r.Ok? ==> r.value != ""
    ensures r.Err? ==> r.error == PageFetchFailed || r.error == VideoIdNotFound
  {
    if Contains(url, "video/") && FirstGroup(url, UrlIdPattern).Some? then
      Ok(FirstGroup(url, UrlIdPattern).value)
    else if Present(itemIdParam) then
      Ok(itemIdParam.value)
    else
      match page
      case None => Err(PageFetchFailed)
      case Some(html) =>
        match FirstPatternGroup(html, HtmlIdPatterns)
        case Some(id) => Ok(id)
        case None => Err(VideoIdNotFound)
  }

  // ---------------------------------------------------------------------------
  // What the patterns mean
  // ---------------------------------------------------------------------------

  /** `/video/` at `p`, directly followed by a digit. */
  ghost predicate VideoPathAt(url: string, p: nat) {
    OccursAt(url, "/video/", p) && p + 7 < |url| && IsDigit(url[p + 7])
  }

  /** The maximal digit run starting at `i`. */
  function DigitsAt(s: string, i: nat): (d: string)
    requires i <= |s|
    ensures AllDigits(d) && OccursAt(s, d, i)
    ensures i + |d| < |s| ==> !IsDigit(s[i + |d|])
  {
    s[i..RunEnd(s, i, Digit)]
  }

  lemma UrlMatchIsPath(url: string, q: nat)
    requires q <= |url|
    ensures MatchAt(url, q, UrlIdPattern).Some? <==> VideoPathAt(url, q)
    ensures VideoPathAt(url, q) ==> MatchAt(url, q, UrlIdPattern).value.groups == [DigitsAt(url, q + 7)]
  {
    var p := UrlIdPattern;
    assert p[1..] == [IdGroup];
    assert [IdGroup][1..] == [];
    assert IdGroup.atom == Many(Digit, true) && IdGroup.group;
    assert p[0].atom == Lit("/video/") && !p[0].group;
    if OccursAt(url, "/video/", q) {
      var k := RunEnd(url, q + 7, Digit);
      assert AtomEnd(url, q, p[0].atom) == Some(q + 7);
      assert MatchAt(url, k, []) == Some(Match(k, []));
      if k > q + 7 {
        assert AtomEnd(url, q + 7, IdGroup.atom) == Some(k);
        assert MatchAt(url, q + 7, [IdGroup]) == Some(Match(k, [url[q + 7..k]] + []));
        assert [url[q + 7..k]] + [] == [url[q + 7..k]];
        assert MatchAt(url, q + 7, p[1..]) == Some(Match(k, [url[q + 7..k]]));
        assert [] + [url[q + 7..k]] == [url[q + 7..k]];
        assert MatchAt(url, q, p) == Some(Match(k, [url[q + 7..k]]));
      }
    }
  }

  /** The path pattern finds the digits after the leftmost `/video/<digit>`. */
  lemma {:induction false} UrlIdIsLeftmostPath(url: string, p: nat)
    requires VideoPathAt(url, p)
    requires forall q: nat :: q < p ==> !VideoPathAt(url, q)
    ensures Contains(url, "video/")
    ensures FirstGroup(url, UrlIdPattern) == Some(DigitsAt(url, p + 7))
  {
    assert OccursAt("/video/", "video/", 1);
    OccursWithin(url, "/video/", "video/", p, 1);
    UrlMatchIsPath(url, p);
    var f := Find(url, UrlIdPattern);
    assert f.Some?;
    UrlMatchIsPath(url, f.value.start);
    assert f.value.start == p;
  }

  /** Without a `/video/<digit>` in the URL the path pattern finds nothing. */
  lemma {:induction false} NoPathNoUrlId(url: string)
    requires forall q: nat :: !VideoPathAt(url, q)
    ensures FirstGroup(url, UrlIdPattern).None?
  {
    var f := Find(url, UrlIdPattern);
    if f.Some? {
      UrlMatchIsPath(url, f.value.start);
    }
  }

  // ---------------------------------------------------------------------------
  // Priority
  // ---------------------------------------------------------------------------

  /** A path ID wins over the query parameter and the page, whatever they hold. */
  lemma {:induction false} PathIdWins(url: string, p: nat, itemIdParam: Option<string>, page: Option<string>)
    requires VideoPathAt(url, p)
    requires forall q: nat :: q < p ==> !VideoPathAt(url, q)
    ensures ExtractVideoId(url, itemIdParam, page) == Ok(DigitsAt(url, p + 7))
  {
    UrlIdIsLeftmostPath(url, p);
  }

  /** The query parameter is used only when the path has no ID, and then the
      page is not consulted. */
  lemma {:induction false} QueryIdSecond(url: string, itemIdParam: Option<string>, page: Option<string>)
    requires forall q: nat :: !VideoPathAt(url, q)
    ensures Present(itemIdParam) ==> ExtractVideoId(url, itemIdParam, page) == Ok(itemIdParam.value)
    ensures !Present(itemIdParam) && page.None? ==> ExtractVideoId(url, itemIdParam, page) == Err(PageFetchFailed)
  {
    NoPathNoUrlId(url);
  }

  /** On the page, the first pattern in the list that matches decides the ID,
      and when none matches the ID is not found. */
  lemma {:induction false} HtmlIdLast(url: string, itemIdParam: Option<string>, html: string, i: nat)
    requires forall q: nat :: !VideoPathAt(url, q)
    requires !Present(itemIdParam)
    requires i < |HtmlIdPatterns| && FirstGroup(html, HtmlIdPatterns[i]).Some?
    requires forall j :: 0 <= j < i ==> FirstGroup(html, HtmlIdPatterns[j]).None?
    ensures ExtractVideoId(url, itemIdParam, Some(html)) == Ok(FirstGroup(html, HtmlIdPatterns[i]).value)
  {
    NoPathNoUrlId(url);
    var k := FirstPatternFrom(html, HtmlIdPatterns, 0);
    assert k == Some(i);
  }

  lemma {:induction false} HtmlIdNotFound(url: string, itemIdParam: Option<string>, html: string)
    requires forall q: nat :: !VideoPathAt(url, q)
    requires !Present(itemIdParam)
    requires forall j :: 0 <= j < |HtmlIdPatterns| ==> FirstGroup(html, HtmlIdPatterns[j]).None?
    ensures ExtractVideoId(url, itemIdParam, Some(html)) == Err(VideoIdNotFound)
  {
    NoPathNoUrlId(url);
  }
}
