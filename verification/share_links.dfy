/** Link handling of `ApiVideoRepository`: the domain allow-list behind
    `isValidDouyinUrl`, and `processShareUrl`, which guards a share link, follows
    one redirect hop of a short link and repairs a known malformed redirect target. */
module ShareLinks {
  import opened Wrappers
  import opened Strings
  import opened Patterns
  import opened Failures

  // ---------------------------------------------------------------------------
  // Link classification
  // ---------------------------------------------------------------------------

  datatype LinkCheck = LinkCheck(isValid: bool, platform: string)

  /** `DOUYIN_DOMAIN_PATTERN`, read as the regular expression reads:
      `^https?://`, an optional `www.`, one of three hosts, then `/`. The
      alternatives are tried as the regex engine tries them. */
  predicate MatchesDomainPattern(url: string) {
    || (StartsWith(url, "https://") && MatchesAfterScheme(url[8..]))
    || (StartsWith(url, "http://") && MatchesAfterScheme(url[7..]))
  }

  predicate MatchesAfterScheme(rest: string) {
    || (StartsWith(rest, "www.") && MatchesHost(rest[4..]))
    || MatchesHost(rest)
  }

  predicate MatchesHost(rest: string) {
    || StartsWith(rest, "douyin.com/")
    || StartsWith(rest, "iesdouyin.com/")
    || StartsWith(rest, "v.douyin.com/")
  }

  /** The twelve prefixes the allow-list accepts, spelled out one by one. */
  datatype Scheme = Http | Https
  datatype Host = Douyin | IesDouyin | VDouyin

  function SchemeText(sc: Scheme): string {
    if sc == Https then "https://" else "http://"
  }

  function WwwText(www: bool): string {
    if www then "www." else ""
  }

  function HostName(h: Host): string {
    match h
    case Douyin => "douyin.com"
    case IesDouyin => "iesdouyin.com"
    case VDouyin => "v.douyin.com"
  }

  function AllowedPrefix(sc: Scheme, www: bool, h: Host): string {
    SchemeText(sc) + WwwText(www) + HostName(h) + "/"
  }

  /** A link is on the allow-list when it starts with one of the allowed prefixes. */
  ghost predicate OnAllowList(url: string) {
    exists sc: Scheme, www: bool, h: Host :: StartsWith(url, AllowedPrefix(sc, www, h))
  }

  lemma HostIff(rest: string)
    ensures MatchesHost(rest) <==> exists h: Host :: StartsWith(rest, HostName(h) + "/")
  {
    if MatchesHost(rest) {
      if StartsWith(rest, "douyin.com/") {
        assert StartsWith(rest, HostName(Douyin) + "/");
      } else if StartsWith(rest, "iesdouyin.com/") {
        assert StartsWith(rest, HostName(IesDouyin) + "/");
      } else {
        assert StartsWith(rest, HostName(VDouyin) + "/");
      }
    }
  }

  lemma AfterSchemeIff(rest: string)
    ensures MatchesAfterScheme(rest) <==>
      exists www: bool, h: Host :: StartsWith(rest, WwwText(www) + HostName(h) + "/")
  {
    HostIff(rest);
    if |rest| >= 4 {
      HostIff(rest[4..]);
    }
    forall www: bool, h: Host
      ensures StartsWith(rest, WwwText(www) + HostName(h) + "/")
          <==> StartsWith(rest, WwwText(www)) && StartsWith(rest[|WwwText(www)|..], HostName(h) + "/")
    {
      assert WwwText(www) + HostName(h) + "/" == WwwText(www) + (HostName(h) + "/");
      StartsWithConcat(rest, WwwText(www), HostName(h) + "/");
    }
    if MatchesAfterScheme(rest) {
      if StartsWith(rest, "www.") && MatchesHost(rest[4..]) {
        var h: Host :| StartsWith(rest[4..], HostName(h) + "/");
        assert StartsWith(rest, WwwText(true) + HostName(h) + "/");
      } else {
        var h: Host :| StartsWith(rest, HostName(h) + "/");
        assert rest[0..] == rest;
        assert StartsWith(rest, WwwText(false) + HostName(h) + "/");
      }
    }
    if exists www: bool, h: Host :: StartsWith(rest, WwwText(www) + HostName(h) + "/") {
      var www: bool, h: Host :| StartsWith(rest, WwwText(www) + HostName(h) + "/");
      if !www {
        assert rest[0..] == rest;
      }
    }
  }

  /** An allowed prefix is a scheme followed by the rest of the prefix. */
  lemma SchemeSplit(url: string, sc: Scheme, www: bool, h: Host)
    ensures StartsWith(url, AllowedPrefix(sc, www, h))
        <==> StartsWith(url, SchemeText(sc)) && StartsWith(url[|SchemeText(sc)|..], WwwText(www) + HostName(h) + "/")
  {
    assert AllowedPrefix(sc, www, h) == SchemeText(sc) + (WwwText(www) + HostName(h) + "/");
    StartsWithConcat(url, SchemeText(sc), WwwText(www) + HostName(h) + "/");
  }

  lemma MatchIsAllowed(url: string)
    requires MatchesDomainPattern(url)
    ensures OnAllowList(url)
  {
    var sc := if StartsWith(url, "https://") && MatchesAfterScheme(url[8..]) then Https else Http;
    var rest := url[|SchemeText(sc)|..];
    AfterSchemeIff(rest);
    var www: bool, h: Host :| StartsWith(rest, WwwText(www) + HostName(h) + "/");
    SchemeSplit(url, sc, www, h);
  }

  lemma AllowedIsMatch(url: string, sc: Scheme, www: bool, h: Host)
    requires StartsWith(url, AllowedPrefix(sc, www, h))
    ensures MatchesDomainPattern(url)
  {
    SchemeSplit(url, sc, www, h);
    AfterSchemeIff(url[|SchemeText(sc)|..]);
  }

  /** The hand-written matcher accepts exactly the allow-listed prefixes. */
  lemma {:induction false} DomainPatternIff(url: string)
    ensures MatchesDomainPattern(url) <==> OnAllowList(url)
  {
    if MatchesDomainPattern(url) {
      MatchIsAllowed(url);
    }
    if OnAllowList(url) {
      var sc: Scheme, www: bool, h: Host :| StartsWith(url, AllowedPrefix(sc, www, h));
      AllowedIsMatch(url, sc, www, h);
    }
  }

  /** `isValidDouyinUrl(url)`: valid exactly on the allow-list; the platform is
      always `douyin`. */
  function IsValidDouyinUrl(url: string): (r: LinkCheck)
    ensures r.platform == "douyin"
    ensures r.isValid <==> OnAllowList(url)
  {
    DomainPatternIff(url);
    LinkCheck(MatchesDomainPattern(url), "douyin")
  }

  // ---------------------------------------------------------------------------
  // The share-link guard
  // ---------------------------------------------------------------------------

  /** Every host name holds `douyin.com`, so the `iesdouyin.com` test of the
      guard never rejects a link the `douyin.com` test lets through, and every
      short link passes the guard. */
  lemma {:induction false} HostsHoldDouyin(s: string)
    ensures Contains(s, "iesdouyin.com") ==> Contains(s, "douyin.com")
    ensures Contains(s, "v.douyin.com") ==> Contains(s, "douyin.com")
  {
    HostNameHoldsDouyin(IesDouyin);
    HostNameHoldsDouyin(VDouyin);
    if Contains(s, "iesdouyin.com") {
      ContainsWithin(s, "iesdouyin.com", "douyin.com", 3);
    }
    if Contains(s, "v.douyin.com") {
      ContainsWithin(s, "v.douyin.com", "douyin.com", 2);
    }
  }

  function DouyinOffset(h: Host): nat {
    match h
    case Douyin => 0
    case IesDouyin => 3
    case VDouyin => 2
  }

  lemma HostNameHoldsDouyin(h: Host)
    ensures OccursAt(HostName(h), "douyin.com", DouyinOffset(h))
  {
  }

  /** The guard of `processShareUrl` is looser than the allow-list: every link
      `isValidDouyinUrl` accepts passes it. */
  lemma {:induction false} AllowListPassesGuard(url: string)
    requires IsValidDouyinUrl(url).isValid
    ensures Contains(url, "douyin.com")
  {
    var sc: Scheme, www: bool, h: Host :| StartsWith(url, AllowedPrefix(sc, www, h));
    var pre := AllowedPrefix(sc, www, h);
    var a := SchemeText(sc) + WwwText(www);
    assert pre == a + HostName(h) + "/";
    assert pre[|a|..|a| + |HostName(h)|] == HostName(h);
    HostNameHoldsDouyin(h);
    OccursWithin(pre, HostName(h), "douyin.com", |a|, DouyinOffset(h));
    OccursWithin(url, pre, "douyin.com", 0, |a| + DouyinOffset(h));
  }

  /** ... and it is strictly looser: a bare host without a scheme passes it. */
  lemma GuardAdmitsNonUrl()
    ensures Contains("douyin.com", "douyin.com") && !IsValidDouyinUrl("douyin.com").isValid
  {
    assert OccursAt("douyin.com", "douyin.com", 0);
    assert !MatchesDomainPattern("douyin.com");
  }

  // ---------------------------------------------------------------------------
  // Redirect-target repair
  // ---------------------------------------------------------------------------

  /** `/\/video\/(\d+)([^\d])/`. */
  const RedirectIdPattern: Pattern := [VideoPrefix, DigitsGroup, NextCharGroup]
  const VideoPrefix := Term(Lit("/video/"), false)
  const DigitsGroup := Term(Many(Digit, true), true)
  const NextCharGroup := Term(One(NonDigit), true)

  /** A malformed site: `/video/` at `p`, then `n` digits, then a non-digit. */
  ghost predicate MalformedSite(loc: string, p: nat, n: nat) {
    && OccursAt(loc, "/video/", p)
    && n >= 1
    && p + 7 + n < |loc|
    && AllDigits(loc[p + 7..p + 7 + n])
    && !IsDigit(loc[p + 7 + n])
  }

  /** `location.replace('/video/' + id + next, '/video/' + id + '?' + next)`. */
  function Fix(loc: string, id: string, next: string): string {
    ReplaceFirst(loc, "/video/" + id + next, "/video/" + id + "?" + next)
  }

  /** `loc` with `?` inserted before index `k`. */
  function Insert(loc: string, k: nat): string
    requires k <= |loc|
  {
    loc[..k] + "?" + loc[k..]
  }

  /** The fix applied to a redirect target without a query delimiter: a `?` goes
      between the digits of the first `/video/<digits><non-digit>` and the
      character after them. The same code runs on the success and on the
      error-response path. */
  function RepairLocation(loc: string): (r: string)
    ensures r == loc || (|r| == |loc| + 1 && Contains(r, "?") && !Contains(loc, "?"))
  {
    if Contains(loc, "video/") && !Contains(loc, "?") then
      match Find(loc, RedirectIdPattern)
      case Some(f) =>
        RepairShape(loc, f);
        Fix(loc, f.groups[0], f.groups[1])
      case None => loc
    else loc
  }

  /** The possessive tail `[^\d]` after a whole digit run, matched at `k`. */
  lemma TailMatch(s: string, k: nat)
    requires k < |s| && !IsDigit(s[k])
    ensures MatchAt(s, k, [NextCharGroup]) == Some(Match(k + 1, [[s[k]]]))
  {
    assert [NextCharGroup][1..] == [];
    assert NextCharGroup.atom == One(NonDigit) && NextCharGroup.group;
    assert InClass(s[k], NonDigit);
    assert AtomEnd(s, k, NextCharGroup.atom) == Some(k + 1);
    assert MatchAt(s, k + 1, []) == Some(Match(k + 1, []));
    assert s[k..k + 1] == [s[k]];
    assert [s[k..k + 1]] + [] == [[s[k]]];
  }

  lemma RedirectMatchIsSite(s: string, q: nat)
    requires q <= |s| && MatchAt(s, q, RedirectIdPattern).Some?
    ensures var g := MatchAt(s, q, RedirectIdPattern).value.groups;
      && |g| == 2
      && MalformedSite(s, q, |g[0]|)
      && g[0] == s[q + 7..q + 7 + |g[0]|]
      && g[1] == [s[q + 7 + |g[0]|]]
  {
    var p := RedirectIdPattern;
    assert p[1..] == [DigitsGroup, NextCharGroup];
    assert [DigitsGroup, NextCharGroup][1..] == [NextCharGroup];
    assert AtomEnd(s, q, VideoPrefix.atom) == Some(q + 7);
    var k := RunEnd(s, q + 7, Digit);
    assert AtomEnd(s, q + 7, DigitsGroup.atom) == Some(k);
    assert MatchAt(s, k, [NextCharGroup]).Some?;
    TailMatch(s, k);
    assert MatchAt(s, q + 7, [DigitsGroup, NextCharGroup]) == Some(Match(k + 1, [s[q + 7..k]] + [[s[k]]]));
    assert forall x :: q + 7 <= x < k ==> IsDigit(s[x]);
  }

  lemma SiteIsRedirectMatch(s: string, q: nat, n: nat)
    requires MalformedSite(s, q, n)
    ensures MatchAt(s, q, RedirectIdPattern) == Some(Match(q + 8 + n, [s[q + 7..q + 7 + n], [s[q + 7 + n]]]))
  {
    var p := RedirectIdPattern;
    assert p[1..] == [DigitsGroup, NextCharGroup];
    assert [DigitsGroup, NextCharGroup][1..] == [NextCharGroup];
    var k := RunEnd(s, q + 7, Digit);
    assert k == q + 7 + n;
    assert VideoPrefix.atom == Lit("/video/") && !VideoPrefix.group;
    assert DigitsGroup.atom == Many(Digit, true) && DigitsGroup.group;
    assert AtomEnd(s, q, VideoPrefix.atom) == Some(q + 7);
    assert AtomEnd(s, q + 7, DigitsGroup.atom) == Some(k);
    TailMatch(s, k);
    var tail := MatchAt(s, q + 7, [DigitsGroup, NextCharGroup]);
    assert tail == Some(Match(k + 1, [s[q + 7..k]] + [[s[k]]]));
    assert MatchAt(s, q, p) == Some(Match(k + 1, [] + tail.value.groups));
    assert [] + tail.value.groups == [s[q + 7..q + 7 + n], [s[q + 7 + n]]];
  }

  /** An occurrence of `/video/<id><c>` is itself a malformed site. */
  lemma OccurrenceIsSite(loc: string, j: nat, id: string, c: char)
    requires |id| >= 1 && AllDigits(id) && !IsDigit(c)
    requires OccursAt(loc, "/video/" + id + [c], j)
    ensures MalformedSite(loc, j, |id|)
  {
    var t := "/video/" + id + [c];
    assert t[..7] == "/video/";
    OccursWithin(loc, t, "/video/", j, 0);
    assert t[7..7 + |id|] == id;
    OccursWithin(loc, t, id, j, 7);
    assert loc[j + 7 + |id|] == loc[j..j + |t|][7 + |id|];
  }

  /** What `replace` does once the regex matched: the string pattern it is given
      first occurs exactly where the regex matched, so a `?` is inserted after
      the digit run there. */
  lemma RepairShape(loc: string, f: Found)
    requires Find(loc, RedirectIdPattern) == Some(f)
    ensures |f.groups| == 2
    ensures MalformedSite(loc, f.start, |f.groups[0]|)
    ensures Fix(loc, f.groups[0], f.groups[1]) == Insert(loc, f.start + 7 + |f.groups[0]|)
    ensures OccursAt(Insert(loc, f.start + 7 + |f.groups[0]|), "?", f.start + 7 + |f.groups[0]|)
  {
    var m := MatchAt(loc, f.start, RedirectIdPattern);
    assert m.Some? && f.groups == m.value.groups;
    RedirectMatchIsSite(loc, f.start);
    FixAtSite(loc, f.start, f.groups[0], loc[f.start + 7 + |f.groups[0]|]);
  }

  /** At the regex's match, `Fix` inserts `?` after the digits. */
  lemma FixAtSite(loc: string, p: nat, id: string, c: char)
    requires Find(loc, RedirectIdPattern).Some? && Find(loc, RedirectIdPattern).value.start == p
    requires MalformedSite(loc, p, |id|)
    requires id == loc[p + 7..p + 7 + |id|] && c == loc[p + 7 + |id|]
    ensures Fix(loc, id, [c]) == Insert(loc, p + 7 + |id|)
    ensures OccursAt(Insert(loc, p + 7 + |id|), "?", p + 7 + |id|)
  {
    SiteOccurrence(loc, p, |id|);
    FirstSiteOccurrence(loc, p, id, c);
    ReplaceAtSite(loc, p, id, c);
  }

  /** Replacing the leftmost `/video/<id><c>` inserts `?` after the digits. */
  lemma ReplaceAtSite(loc: string, p: nat, id: string, c: char)
    requires OccursAt(loc, "/video/" + id + [c], p)
    requires forall j: nat :: j < p ==> !OccursAt(loc, "/video/" + id + [c], j)
    ensures Fix(loc, id, [c]) == Insert(loc, p + 7 + |id|)
    ensures OccursAt(Insert(loc, p + 7 + |id|), "?", p + 7 + |id|)
  {
    ReplaceFirstAt(loc, "/video/" + id + [c], "/video/" + id + "?" + [c], p);
    InsertDelimiter(loc, p, id, c);
  }

  /** At a malformed site the characters spell `/video/<digits><c>`. */
  lemma SiteOccurrence(loc: string, p: nat, n: nat)
    requires MalformedSite(loc, p, n)
    ensures OccursAt(loc, "/video/" + loc[p + 7..p + 7 + n] + [loc[p + 7 + n]], p)
  {
    var t := "/video/" + loc[p + 7..p + 7 + n] + [loc[p + 7 + n]];
    assert loc[p..p + |t|] == loc[p..p + 7] + loc[p + 7..p + 7 + n] + [loc[p + 7 + n]];
  }

  /** No earlier index holds the same `/video/<id><c>`: it would be an earlier
      regex match. */
  lemma FirstSiteOccurrence(loc: string, p: nat, id: string, c: char)
    requires Find(loc, RedirectIdPattern).Some? && Find(loc, RedirectIdPattern).value.start == p
    requires |id| >= 1 && AllDigits(id) && !IsDigit(c)
    ensures forall j: nat :: j < p ==> !OccursAt(loc, "/video/" + id + [c], j)
  {
    forall j: nat | j < p
      ensures !OccursAt(loc, "/video/" + id + [c], j)
    {
      if OccursAt(loc, "/video/" + id + [c], j) {
        OccurrenceIsSite(loc, j, id, c);
        SiteIsRedirectMatch(loc, j, |id|);
        assert false;
      }
    }
  }

  /** Rewriting `/video/<id><c>` at `p` into `/video/<id>?<c>` is inserting `?`
      after the digits. */
  lemma InsertDelimiter(loc: string, p: nat, id: string, c: char)
    requires OccursAt(loc, "/video/" + id + [c], p)
    ensures var k := p + 7 + |id|;
      && loc[..p] + ("/video/" + id + "?" + [c]) + loc[p + |"/video/" + id + [c]|..] == Insert(loc, k)
      && OccursAt(Insert(loc, k), "?", k)
  {
    var t := "/video/" + id + [c];
    var k := p + 7 + |id|;
    assert loc[p..p + |t|] == t;
    assert t[..7 + |id|] == "/video/" + id;
    assert loc[p..k] == loc[p..p + |t|][..7 + |id|];
    assert loc[..k] == loc[..p] + loc[p..k];
    assert loc[k] == c;
    assert loc[k..] == [c] + loc[p + |t|..];
    var fixed := Insert(loc, k);
    assert fixed[k..k + 1] == "?";
  }

  /** The repair inserts `?` at the leftmost malformed site, and only there. */
  lemma {:induction false} RepairInsertsDelimiter(loc: string, p: nat, n: nat)
    requires !Contains(loc, "?")
    requires MalformedSite(loc, p, n)
    requires forall q: nat, m: nat :: q < p ==> !MalformedSite(loc, q, m)
    ensures RepairLocation(loc) == Insert(loc, p + 7 + n)
  {
    SiteHoldsVideo(loc, p, n);
    LeftmostSiteIsMatch(loc, p, n);
    var f := Find(loc, RedirectIdPattern).value;
    RepairAtMatch(loc, f);
  }

  lemma SiteHoldsVideo(loc: string, p: nat, n: nat)
    requires MalformedSite(loc, p, n)
    ensures Contains(loc, "video/")
  {
    assert OccursAt("/video/", "video/", 1);
    OccursWithin(loc, "/video/", "video/", p, 1);
  }

  /** The regex search stops at the leftmost malformed site. */
  lemma LeftmostSiteIsMatch(loc: string, p: nat, n: nat)
    requires MalformedSite(loc, p, n)
    requires forall q: nat, m: nat :: q < p ==> !MalformedSite(loc, q, m)
    ensures Find(loc, RedirectIdPattern).Some?
    ensures Find(loc, RedirectIdPattern).value.start == p
    ensures |Find(loc, RedirectIdPattern).value.groups[0]| == n
  {
    SiteIsRedirectMatch(loc, p, n);
    var f := Find(loc, RedirectIdPattern);
    assert f.Some?;
    RedirectMatchIsSite(loc, f.value.start);
    assert f.value.start == p;
  }

  /** The repair, once the regex has matched, in terms of the match. */
  lemma RepairAtMatch(loc: string, f: Found)
    requires Contains(loc, "video/") && !Contains(loc, "?")
    requires Find(loc, RedirectIdPattern) == Some(f)
    ensures |f.groups| == 2
    ensures MalformedSite(loc, f.start, |f.groups[0]|)
    ensures RepairLocation(loc) == Insert(loc, f.start + 7 + |f.groups[0]|)
  {
    RepairShape(loc, f);
    assert RepairLocation(loc) == Fix(loc, f.groups[0], f.groups[1]);
  }

  /** Without a malformed site the target is returned unchanged. */
  lemma {:induction false} RepairWithoutSite(loc: string)
    requires forall q: nat, m: nat :: !MalformedSite(loc, q, m)
    ensures RepairLocation(loc) == loc
  {
    var f := Find(loc, RedirectIdPattern);
    if f.Some? {
      RedirectMatchIsSite(loc, f.value.start);
    }
  }

  /** Repairing twice changes nothing more. */
  lemma RepairIdempotent(loc: string)
    ensures RepairLocation(RepairLocation(loc)) == RepairLocation(loc)
  {
  }

  // ---------------------------------------------------------------------------
  // processShareUrl
  // ---------------------------------------------------------------------------

  /** What the single non-following GET of a short link gave back. */
  datatype RedirectReply =
    | Answered(location: Option<string>) // a status in 200..399; its Location header
    | Rejected(location: Option<string>) // the request threw; the error response's Location, if any

  /** `processShareUrl(shareUrl)`, with the redirect GET's outcome as an input
      (it is only consulted for short links). */
  function ProcessShareUrl(shareUrl: string, reply: RedirectReply): (r: Result<string, Failure>)
    ensures r == Err(InvalidShareLink) <==> !Contains(shareUrl, "douyin.com")
    ensures Contains(shareUrl, "douyin.com") && !Contains(shareUrl, "v.douyin.com") ==> r == Ok(shareUrl)
    ensures Contains(shareUrl, "v.douyin.com") && Present(reply.location) ==> r == Ok(RepairLocation(reply.location.value))
    ensures Contains(shareUrl, "v.douyin.com") && reply.Answered? && !Present(reply.location) ==> r == Ok(shareUrl)
    ensures r == Err(RedirectFailed) <==> Contains(shareUrl, "v.douyin.com") && reply.Rejected? && !Present(reply.location)
    ensures r.Ok? ==> r.value != ""
  {
    HostsHoldDouyin(shareUrl);
    if !Contains(shareUrl, "douyin.com") && !Contains(shareUrl, "iesdouyin.com") then Err(InvalidShareLink)
    else if Contains(shareUrl, "v.douyin.com") then
      match reply
      case Answered(location) =>
        if Present(location) then Ok(RepairLocation(location.value)) else Ok(shareUrl)
      case Rejected(location) =>
        if Present(location) then Ok(RepairLocation(location.value)) else Err(RedirectFailed)
    else Ok(shareUrl)
  }
}
