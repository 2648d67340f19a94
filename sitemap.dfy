/**
 * The sitemap generator: the list of URL entries it builds (static pages,
 * city pages, club pages, event pages, promoter pages), the XML it writes
 * for them, the `Sitemap:` line it rewrites in robots.txt, and the counts it
 * logs. The fetched club and event lists, today's date and the current
 * robots.txt (None when the file does not exist) are parameters.
 */
module Sitemap {
  import opened Wrappers
  import opened Text
  import opened Entities
  import opened Domain
  import opened Prerender
  import opened PrerenderPages

  // ---------------------------------------------------------------- escapeXml

  /** The five replacements of `escapeXml`, as (character, entity) pairs. */
  const XmlTable: Table := [('&', "&amp;"), ('<', "&lt;"), ('>', "&gt;"), ('"', "&quot;"), ('\'', "&apos;")]

  lemma XmlTableGood()
    ensures GoodTable(XmlTable)
  {
    assert XmlTable[0].0 == '&';
    XmlEntitiesSpelled();
    XmlEntriesDistinct();
    NoKeyInsideEntities(XmlTable);
  }

  lemma XmlEntitiesSpelled()
    ensures forall i :: 0 <= i < |XmlTable| ==> EntityShaped(XmlTable[i].1)
    ensures forall i, k :: 0 <= i < |XmlTable| && 0 < k < |XmlTable[i].1| ==> EntityNameChar(XmlTable[i].1[k])
  {
    LetterEntity("&amp;");
    LetterEntity("&lt;");
    LetterEntity("&gt;");
    LetterEntity("&quot;");
    LetterEntity("&apos;");
  }

  lemma XmlEntriesDistinct()
    ensures forall i, j :: 0 <= i < j < |XmlTable| ==> XmlTable[i].0 != XmlTable[j].0 && XmlTable[i].1 != XmlTable[j].1
  {
  }

  /**
   * `escapeXml`: `&` is replaced first, then `<`, `>`, `"` and `'`. By
   * `EscapeXmlSpec` the result has none of the four raw, every `&` in it
   * starts one of the five entities, and decoding the entities gives the
   * input back.
   */
  function EscapeXml(s: string): string {
    ReplaceChar(ReplaceChar(ReplaceChar(ReplaceChar(ReplaceChar(s, '&', "&amp;"), '<', "&lt;"), '>', "&gt;"), '"', "&quot;"), '\'', "&apos;")
  }

  lemma EscapeXmlSpec(s: string)
    ensures var r := EscapeXml(s);
      '<' !in r && '>' !in r && '"' !in r && '\'' !in r && AmpsStartEntities(r, XmlTable) && Decode(r, XmlTable) == s
  {
    EscapeXmlIsEntityEscape(s);
    XmlTableGood();
    EscapeCharsSafe(s, XmlTable);
    DecodeEscapeChars(s, XmlTable);
    NoRawXmlSpecials(EscapeXml(s));
  }

  lemma NoRawXmlSpecials(r: string)
    requires OnlyAmpRaw(r, XmlTable)
    ensures '<' !in r && '>' !in r && '"' !in r && '\'' !in r
  {
    assert IsKey('<', XmlTable) && IsKey('>', XmlTable) && IsKey('"', XmlTable) && IsKey('\'', XmlTable) by {
      assert XmlTable[1].0 == '<' && XmlTable[2].0 == '>' && XmlTable[3].0 == '"' && XmlTable[4].0 == '\'';
    }
  }

  /** The chain of `replace` calls escapes character by character. */
  lemma {:induction false} EscapeXmlIsEntityEscape(s: string)
    ensures EscapeXml(s) == EscapeChars(s, XmlTable)
  {
    if s != [] {
      var c, rest := s[0], s[1..];
      assert s == [c] + rest;
      XmlChainConcat([c], rest);
      EscapeXmlIsEntityEscape(rest);
      SingleCharXml(c);
    }
  }

  lemma XmlChainConcat(a: string, b: string)
    ensures EscapeXml(a + b) == EscapeXml(a) + EscapeXml(b)
  {
    var a1 := ReplaceChar(a, '&', "&amp;");
    var b1 := ReplaceChar(b, '&', "&amp;");
    ReplaceCharConcat(a, b, '&', "&amp;");
    var a2 := ReplaceChar(a1, '<', "&lt;");
    var b2 := ReplaceChar(b1, '<', "&lt;");
    ReplaceCharConcat(a1, b1, '<', "&lt;");
    var a3 := ReplaceChar(a2, '>', "&gt;");
    var b3 := ReplaceChar(b2, '>', "&gt;");
    ReplaceCharConcat(a2, b2, '>', "&gt;");
    var a4 := ReplaceChar(a3, '"', "&quot;");
    var b4 := ReplaceChar(b3, '"', "&quot;");
    ReplaceCharConcat(a3, b3, '"', "&quot;");
    ReplaceCharConcat(a4, b4, '\'', "&apos;");
  }

  lemma EntityOfXml(c: char)
    ensures EntityOf(c, XmlTable) ==
      if c == '&' then "&amp;" else if c == '<' then "&lt;" else if c == '>' then "&gt;"
      else if c == '"' then "&quot;" else if c == '\'' then "&apos;" else [c]
  {
    var t0 := XmlTable;
    var t1 := [('<', "&lt;"), ('>', "&gt;"), ('"', "&quot;"), ('\'', "&apos;")];
    var t2 := [('>', "&gt;"), ('"', "&quot;"), ('\'', "&apos;")];
    var t3 := [('"', "&quot;"), ('\'', "&apos;")];
    var t4 := [('\'', "&apos;")];
    assert t0[1..] == t1 && t1[1..] == t2 && t2[1..] == t3 && t3[1..] == t4 && t4[1..] == [];
    assert EntityOf(c, t4) == if c == '\'' then "&apos;" else EntityOf(c, []);
    assert EntityOf(c, t3) == if c == '"' then "&quot;" else EntityOf(c, t4);
    assert EntityOf(c, t2) == if c == '>' then "&gt;" else EntityOf(c, t3);
    assert EntityOf(c, t1) == if c == '<' then "&lt;" else EntityOf(c, t2);
    assert EntityOf(c, t0) == if c == '&' then "&amp;" else EntityOf(c, t1);
  }

  lemma SingleCharXml(c: char)
    ensures EscapeXml([c]) == EntityOf(c, XmlTable)
  {
    EntityOfXml(c);
    if c == '&' {
      AmpXml();
    } else if c == '<' {
      LtXml();
    } else if c == '>' {
      GtXml();
    } else if c == '"' {
      QuotXml();
    } else if c == '\'' {
      AposXml();
    } else {
      assert '&' !in [c] && '<' !in [c] && '>' !in [c] && '"' !in [c] && '\'' !in [c];
    }
  }

  /** A string without the last four special characters is left alone by their replacements. */
  lemma LastFourKeep(e: string)
    requires '<' !in e && '>' !in e && '"' !in e && '\'' !in e
    ensures ReplaceChar(ReplaceChar(ReplaceChar(ReplaceChar(e, '<', "&lt;"), '>', "&gt;"), '"', "&quot;"), '\'', "&apos;") == e
  {
  }

  lemma AmpXml()
    ensures EscapeXml("&") == "&amp;"
  {
    ReplaceCharSingle('&', '&', "&amp;");
    assert '<' !in "&amp;" && '>' !in "&amp;" && '"' !in "&amp;" && '\'' !in "&amp;";
    LastFourKeep("&amp;");
  }

  lemma LtXml()
    ensures EscapeXml("<") == "&lt;"
  {
    ReplaceCharSingle('<', '&', "&amp;");
    ReplaceCharSingle('<', '<', "&lt;");
    assert '>' !in "&lt;" && '"' !in "&lt;" && '\'' !in "&lt;";
  }

  lemma GtXml()
    ensures EscapeXml(">") == "&gt;"
  {
    ReplaceCharSingle('>', '&', "&amp;");
    ReplaceCharSingle('>', '<', "&lt;");
    ReplaceCharSingle('>', '>', "&gt;");
    assert '"' !in "&gt;" && '\'' !in "&gt;";
  }

  lemma QuotXml()
    ensures EscapeXml("\"") == "&quot;"
  {
    ReplaceCharSingle('"', '&', "&amp;");
    ReplaceCharSingle('"', '<', "&lt;");
    ReplaceCharSingle('"', '>', "&gt;");
    ReplaceCharSingle('"', '"', "&quot;");
    assert '\'' !in "&quot;";
  }

  lemma AposXml()
    ensures EscapeXml("'") == "&apos;"
  {
    ReplaceCharSingle('\'', '&', "&amp;");
    ReplaceCharSingle('\'', '<', "&lt;");
    ReplaceCharSingle('\'', '>', "&gt;");
    ReplaceCharSingle('\'', '"', "&quot;");
    ReplaceCharSingle('\'', '\'', "&apos;");
  }

  // ---------------------------------------------------------------- getCitySlug

  /** The first of `cities` equal to `city` ignoring case. */
  function FindKnown(cities: seq<string>, city: string): Option<string> {
    if cities == [] then None
    else if Lower(cities[0]) == Lower(city) then Some(cities[0])
    else FindKnown(cities[1..], city)
  }

  /** A city is found exactly when one of `cities` equals it ignoring case. */
  lemma {:induction false} FindKnownSpec(cities: seq<string>, city: string)
    ensures var r := FindKnown(cities, city);
      && (r.Some? ==> r.value in cities && Lower(r.value) == Lower(city))
      && (r.None? ==> forall k :: k in cities ==> Lower(k) != Lower(city))
  {
    if cities != [] && Lower(cities[0]) != Lower(city) {
      FindKnownSpec(cities[1..], city);
      assert forall k :: k in cities ==> k == cities[0] || k in cities[1..];
    }
  }

  /**
   * `getCitySlug`: the trimmed last comma segment, matched against `CITIES`
   * ignoring case; the known name or else the segment, slugified.
   */
  function CitySlug(location: string): string {
    var city := CitySegment(location);
    match FindKnown(Cities(), city)
    case Some(known) => Slugify(known)
    case None => Slugify(city)
  }

  /** The match ignores case, so the slug is the segment's own slug either way; it has no whitespace. */
  lemma CitySlugOfSegment(location: string)
    ensures CitySlug(location) == Slugify(CitySegment(location))
    ensures forall i :: 0 <= i < |CitySlug(location)| ==> !IsSpace(CitySlug(location)[i])
  {
    FindKnownSpec(Cities(), CitySegment(location));
    DashSpacesSpec(Lower(CitySegment(location)));
  }

  /**
   * Where the city segment has only single spaces, the sitemap's slug (runs
   * of whitespace become one `-`) is the prerender script's slug (each space
   * becomes `-`).
   */
  lemma SitemapSlugMatchesPrerender(location: string)
    requires SingleSpaced(CitySegment(location))
    ensures CitySlug(location) == LocationSlug(location)
  {
    var city := CitySegment(location);
    CitySlugOfSegment(location);
    LowerKeepsSingleSpaced(city);
    DashSpacesOfSingleSpaced(Lower(city));
  }

  // ---------------------------------------------------------------- URL entries

  datatype UrlEntry = UrlEntry(loc: string, changefreq: string, priority: string, lastmod: string)

  /** `updatedAt ? updatedAt.split('T')[0] : today`. */
  function LastMod(updatedAt: string, today: string): string {
    if updatedAt != "" then BeforeFirst(updatedAt, 'T') else today
  }

  /**
   * Without `updatedAt` the date is today's; with one it is the part of
   * `updatedAt` before the first `T`, and an ISO timestamp is cut back to its
   * date.
   */
  lemma LastModSpec(updatedAt: string, today: string)
    ensures updatedAt == "" ==> LastMod(updatedAt, today) == today
    ensures updatedAt != "" ==> var r := LastMod(updatedAt, today);
      'T' !in r && |r| <= |updatedAt| && r == updatedAt[..|r|] && (|r| < |updatedAt| ==> updatedAt[|r|] == 'T')
  {
  }

  lemma LastModOfTimestamp(date: string, time: string, today: string)
    requires 'T' !in date
    ensures LastMod(date + "T" + time, today) == date
  {
    BeforeFirstSplit(date, 'T', time);
  }

  function StaticUrls(today: string): seq<UrlEntry> {
    [ UrlEntry(SiteUrl + "/", "weekly", "1.0", today),
      UrlEntry(SiteUrl + "/list-your-club", "monthly", "0.8", today),
      UrlEntry(SiteUrl + "/clubs", "weekly", "0.9", today) ]
  }

  function CityEntry(city: string, today: string): UrlEntry {
    UrlEntry(SiteUrl + "/clubs/" + Slugify(city), "daily", "0.8", today)
  }

  /** The location a club without a (non-empty) one is filed under. */
  const FallbackLocation := "India"

  /** `club.location || 'India'`. */
  function ClubLocation(c: Club): (r: string)
    ensures r != ""
  {
    match c.location
    case Some(l) => if l != "" then l else FallbackLocation
    case None => FallbackLocation
  }

  function ClubEntry(c: Club, today: string): UrlEntry {
    UrlEntry(SiteUrl + "/clubs/" + CitySlug(ClubLocation(c)) + "/" + c.id, "weekly", "0.7", LastMod(c.updatedAt, today))
  }

  function EventEntry(e: Event, today: string): UrlEntry {
    UrlEntry(SiteUrl + "/events/" + e.id, "daily", "0.8", LastMod(e.updatedAt, today))
  }

  function PromoterEntry(id: string, today: string): UrlEntry {
    UrlEntry(SiteUrl + "/promoters/" + id, "weekly", "0.6", today)
  }

  function CityUrls(cities: seq<string>, today: string): (r: seq<UrlEntry>)
    ensures |r| == |cities|
  {
    if cities == [] then [] else CityUrls(cities[..|cities| - 1], today) + [CityEntry(cities[|cities| - 1], today)]
  }

  lemma {:induction false} CityUrlsAt(cities: seq<string>, today: string, i: nat)
    requires i < |cities|
    ensures CityUrls(cities, today)[i] == CityEntry(cities[i], today)
    decreases |cities|
  {
    var init := cities[..|cities| - 1];
    if i < |init| {
      CityUrlsAt(init, today, i);
      assert init[i] == cities[i];
    }
  }

  function ClubUrls(clubs: seq<Club>, today: string): (r: seq<UrlEntry>)
    ensures |r| == |clubs|
  {
    if clubs == [] then [] else ClubUrls(clubs[..|clubs| - 1], today) + [ClubEntry(clubs[|clubs| - 1], today)]
  }

  lemma {:induction false} ClubUrlsAt(clubs: seq<Club>, today: string, i: nat)
    requires i < |clubs|
    ensures ClubUrls(clubs, today)[i] == ClubEntry(clubs[i], today)
    decreases |clubs|
  {
    var init := clubs[..|clubs| - 1];
    if i < |init| {
      ClubUrlsAt(init, today, i);
      assert init[i] == clubs[i];
    }
  }

  function EventUrls(events: seq<Event>, today: string): (r: seq<UrlEntry>)
    ensures |r| == |events|
  {
    if events == [] then [] else EventUrls(events[..|events| - 1], today) + [EventEntry(events[|events| - 1], today)]
  }

  lemma {:induction false} EventUrlsAt(events: seq<Event>, today: string, i: nat)
    requires i < |events|
    ensures EventUrls(events, today)[i] == EventEntry(events[i], today)
    decreases |events|
  {
    var init := events[..|events| - 1];
    if i < |init| {
      EventUrlsAt(init, today, i);
      assert init[i] == events[i];
    }
  }

  function PromoterUrls(ids: seq<string>, today: string): (r: seq<UrlEntry>)
    ensures |r| == |ids|
  {
    if ids == [] then [] else PromoterUrls(ids[..|ids| - 1], today) + [PromoterEntry(ids[|ids| - 1], today)]
  }

  lemma {:induction false} PromoterUrlsAt(ids: seq<string>, today: string, i: nat)
    requires i < |ids|
    ensures PromoterUrls(ids, today)[i] == PromoterEntry(ids[i], today)
    decreases |ids|
  {
    var init := ids[..|ids| - 1];
    if i < |init| {
      PromoterUrlsAt(init, today, i);
      assert init[i] == ids[i];
    }
  }

  /**
   * The `promoterIds` set in insertion order: each id once, and exactly the
   * ids the prerender script writes promoter pages for.
   */
  function SitemapPromoterIds(events: seq<Event>, clubs: seq<Club>): (r: seq<string>)
    ensures Distinct(r)
    ensures forall id :: id in r <==> id in PromoterMapOf(PromoterEntries(events, clubs))
  {
    PromoterMapKeys(PromoterEntries(events, clubs));
    Dedup(Ids(PromoterEntries(events, clubs)))
  }

  /** Every entry the script pushes onto `urls`, in order. */
  function SitemapUrls(clubs: seq<Club>, events: seq<Event>, today: string): seq<UrlEntry> {
    StaticUrls(today) + CityUrls(Cities(), today) + ClubUrls(clubs, today) + EventUrls(events, today)
      + PromoterUrls(SitemapPromoterIds(events, clubs), today)
  }

  /**
   * How many URLs the sitemap lists: three static pages, nine city pages,
   * one per club and per event, one per distinct promoter id.
   */
  lemma SitemapUrlCount(clubs: seq<Club>, events: seq<Event>, today: string)
    ensures |SitemapUrls(clubs, events, today)|
      == 3 + |Cities()| + |clubs| + |events| + |SitemapPromoterIds(events, clubs)|
    ensures |SitemapUrls(clubs, events, today)|
      == 12 + |clubs| + |events| + |PromoterMapOf(PromoterEntries(events, clubs))|
  {
    var ids := SitemapPromoterIds(events, clubs);
    var m := PromoterMapOf(PromoterEntries(events, clubs));
    DistinctCard(ids, m.Keys);
    assert |CityUrls(Cities(), today)| == 9;
  }

  /** `loc` is an absolute URL on the site: `SiteUrl` followed by a path. */
  predicate OnSite(loc: string) {
    |loc| > |SiteUrl| && loc[..|SiteUrl| + 1] == SiteUrl + "/"
  }

  lemma OnSitePath(path: string)
    requires path != [] && path[0] == '/'
    ensures OnSite(SiteUrl + path)
  {
    assert (SiteUrl + path)[..|SiteUrl| + 1] == SiteUrl + [path[0]];
  }

  lemma OnSiteExtend(a: string, b: string)
    requires OnSite(a)
    ensures OnSite(a + b)
  {
    assert (a + b)[..|SiteUrl| + 1] == a[..|SiteUrl| + 1];
  }

  lemma CityEntryOnSite(city: string, today: string)
    ensures OnSite(CityEntry(city, today).loc)
  {
    OnSitePath("/clubs/");
    OnSiteExtend(SiteUrl + "/clubs/", Slugify(city));
  }

  lemma ClubEntryOnSite(c: Club, today: string)
    ensures OnSite(ClubEntry(c, today).loc)
  {
    var slug := CitySlug(ClubLocation(c));
    OnSitePath("/clubs/");
    OnSiteExtend(SiteUrl + "/clubs/", slug);
    OnSiteExtend(SiteUrl + "/clubs/" + slug, "/");
    OnSiteExtend(SiteUrl + "/clubs/" + slug + "/", c.id);
  }

  lemma EventEntryOnSite(e: Event, today: string)
    ensures OnSite(EventEntry(e, today).loc)
  {
    OnSitePath("/events/");
    OnSiteExtend(SiteUrl + "/events/", e.id);
  }

  lemma PromoterEntryOnSite(id: string, today: string)
    ensures OnSite(PromoterEntry(id, today).loc)
  {
    OnSitePath("/promoters/");
    OnSiteExtend(SiteUrl + "/promoters/", id);
  }

  predicate AllOnSite(urls: seq<UrlEntry>) {
    forall i :: 0 <= i < |urls| ==> OnSite(urls[i].loc)
  }

  lemma AllOnSiteConcat(a: seq<UrlEntry>, b: seq<UrlEntry>)
    requires AllOnSite(a) && AllOnSite(b)
    ensures AllOnSite(a + b)
  {
    forall i | 0 <= i < |a + b| ensures OnSite((a + b)[i].loc) {
      if i >= |a| {
        assert (a + b)[i] == b[i - |a|];
      }
    }
  }

  lemma StaticUrlsOnSite(today: string)
    ensures AllOnSite(StaticUrls(today))
  {
    OnSitePath("/");
    OnSitePath("/list-your-club");
    OnSitePath("/clubs");
  }

  lemma CityUrlsOnSite(cities: seq<string>, today: string)
    ensures AllOnSite(CityUrls(cities, today))
  {
    forall k | 0 <= k < |cities| ensures OnSite(CityUrls(cities, today)[k].loc) {
      CityUrlsAt(cities, today, k);
      CityEntryOnSite(cities[k], today);
    }
  }

  lemma ClubUrlsOnSite(clubs: seq<Club>, today: string)
    ensures AllOnSite(ClubUrls(clubs, today))
  {
    forall k | 0 <= k < |clubs| ensures OnSite(ClubUrls(clubs, today)[k].loc) {
      ClubUrlsAt(clubs, today, k);
      ClubEntryOnSite(clubs[k], today);
    }
  }

  lemma EventUrlsOnSite(events: seq<Event>, today: string)
    ensures AllOnSite(EventUrls(events, today))
  {
    forall k | 0 <= k < |events| ensures OnSite(EventUrls(events, today)[k].loc) {
      EventUrlsAt(events, today, k);
      EventEntryOnSite(events[k], today);
    }
  }

  lemma PromoterUrlsOnSite(ids: seq<string>, today: string)
    ensures AllOnSite(PromoterUrls(ids, today))
  {
    forall k | 0 <= k < |ids| ensures OnSite(PromoterUrls(ids, today)[k].loc) {
      PromoterUrlsAt(ids, today, k);
      PromoterEntryOnSite(ids[k], today);
    }
  }

  /** Every listed URL is on the site. */
  lemma SitemapLocsOnSite(clubs: seq<Club>, events: seq<Event>, today: string)
    ensures AllOnSite(SitemapUrls(clubs, events, today))
  {
    var s := StaticUrls(today);
    var a := CityUrls(Cities(), today);
    var b := ClubUrls(clubs, today);
    var c := EventUrls(events, today);
    var d := PromoterUrls(SitemapPromoterIds(events, clubs), today);
    StaticUrlsOnSite(today);
    CityUrlsOnSite(Cities(), today);
    ClubUrlsOnSite(clubs, today);
    EventUrlsOnSite(events, today);
    PromoterUrlsOnSite(SitemapPromoterIds(events, clubs), today);
    AllOnSiteConcat(s, a);
    AllOnSiteConcat(s + a, b);
    AllOnSiteConcat(s + a + b, c);
    AllOnSiteConcat(s + a + b + c, d);
  }

  /** The city entries list the pages the prerender script writes for the nine cities. */
  lemma CityLocMatchesPrerender(i: nat, today: string)
    requires i < |Cities()|
    ensures CityUrls(Cities(), today)[i].loc == SiteUrl + "/clubs/" + CityPageSlug(Cities()[i])
  {
    var c := Cities()[i];
    CityUrlsAt(Cities(), today, i);
    CitiesSingleSpaced(i);
    LowerKeepsSingleSpaced(c);
    DashSpacesOfSingleSpaced(Lower(c));
    assert Slugify(c) == CityPageSlug(c);
  }

  lemma CitiesSingleSpaced(i: nat)
    requires i < |Cities()|
    ensures SingleSpaced(Cities()[i])
  {
    if i == 1 {
      var c := Cities()[1];
      assert c == CityName(1);
      forall k | 0 <= k < |c| && IsSpace(c[k]) ensures c[k] == ' ' && (k + 1 < |c| ==> !IsSpace(c[k + 1])) {
        assert k == 5;
      }
    } else {
      var c := Cities()[i];
      assert c == CityName(i);
      forall k | 0 <= k < |c| ensures !IsSpace(c[k]) {
        if i == 0 {} else if i == 2 {} else if i == 3 {} else if i == 4 {}
        else if i == 5 {} else if i == 6 {} else if i == 7 {} else {}
      }
    }
  }

  /**
   * A club with a non-empty location whose city segment is single-spaced is
   * listed at the URL the prerender script writes its page to; so is a club
   * without a location (both fall back to the "india" segment).
   */
  lemma ClubLocMatchesPrerender(c: Club, today: string)
    requires c.location.Some? ==> c.location.value != "" && SingleSpaced(CitySegment(c.location.value))
    ensures ClubEntry(c, today).loc == ClubUrl(c)
  {
    assert CitySlug(ClubLocation(c)) == ClubCitySlug(c) by {
      match c.location
      case Some(l) =>
        SitemapSlugMatchesPrerender(l);
      case None =>
        FallbackSlugs();
    }
    UrlJoin(SiteUrl, "/clubs/", ClubCitySlug(c), "/", c.id);
  }

  /** The sitemap joins a club's URL from the left, the prerender script from the route. */
  lemma UrlJoin(site: string, dir: string, slug: string, slash: string, id: string)
    ensures site + dir + slug + slash + id == site + (dir + slug + slash + id)
  {
  }

  /** Both fallbacks give the slug "india". */
  lemma FallbackSlugs()
    ensures CitySlug(FallbackLocation) == DefaultLocation
    ensures LocationSlug(DefaultLocation) == DefaultLocation
  {
    FallbackIsPlain();
    PlainWordSlugs(FallbackLocation);
  }

  lemma FallbackIsPlain()
    ensures FallbackLocation != [] && forall i :: 0 <= i < |FallbackLocation| ==> !IsSpace(FallbackLocation[i]) && FallbackLocation[i] != ','
    ensures Lower(FallbackLocation) == DefaultLocation
  {
    var w := FallbackLocation;
    assert w[0] == 'I' && w[1] == 'n' && w[2] == 'd' && w[3] == 'i' && w[4] == 'a';
  }

  /** A single word without comma or whitespace is its own city segment, and its slug is its lowercase. */
  lemma PlainWordSlugs(w: string)
    requires w != [] && forall i :: 0 <= i < |w| ==> !IsSpace(w[i]) && w[i] != ','
    ensures CitySlug(w) == Lower(w)
    ensures LocationSlug(Lower(w)) == Lower(w)
  {
    PlainSegment(w);
    CitySlugOfSegment(w);
    var l := Lower(w);
    PlainWordLower(w);
    DashSpacesSpec(l);
    assert Slugify(w) == DashSpaces(l);
    PlainSegment(l);
    LowerOfNoUpper(l);
    assert CityPageSlug(l) == ReplaceChar(l, ' ', "-");
  }

  /** Lowercasing such a word keeps it free of comma and whitespace, and leaves nothing to lowercase. */
  lemma PlainWordLower(w: string)
    requires forall i :: 0 <= i < |w| ==> !IsSpace(w[i]) && w[i] != ','
    ensures var l := Lower(w);
      && (forall i :: 0 <= i < |l| ==> !IsSpace(l[i]) && l[i] != ',')
      && NoUpper(l) && ' ' !in l
  {
    var l := Lower(w);
    forall i | 0 <= i < |l| ensures !IsSpace(l[i]) && l[i] != ',' && !IsUpper(l[i]) {
      assert l[i] == LowerChar(w[i]);
    }
  }

  lemma PlainSegment(w: string)
    requires w != [] && forall i :: 0 <= i < |w| ==> !IsSpace(w[i]) && w[i] != ','
    ensures CitySegment(w) == w
  {
    var a := AfterLast(w, ',');
    AfterLastSpec(w, ',');
    assert a == w;
    assert "" + w + "" == w;
    TrimAround("", w, "", IsSpace);
  }

  /**
   * An empty location: the sitemap falls back to "India" and lists
   * `/clubs/india/<id>`, while the prerender script keeps the empty string
   * and builds the route `/clubs//<id>`, whose file is `clubs/<id>/index.html`
   * (`EmptyLocationClubFile`).
   */
  lemma EmptyLocationDiverges(c: Club, today: string)
    requires c.location == Some("")
    ensures ClubEntry(c, today).loc == SiteUrl + "/clubs/" + DefaultLocation + "/" + c.id
    ensures ClubUrl(c) == SiteUrl + "/clubs//" + c.id
  {
    FallbackSlugs();
    EmptySegmentSlug();
    UrlJoin(SiteUrl, "/clubs/", "", "/", c.id);
    assert "/clubs/" + "" + "/" == "/clubs//";
    ConcatAssoc(SiteUrl, "/clubs//", c.id);
  }

  /** The event entries list the pages the prerender script writes for the events. */
  lemma EventLocMatchesPrerender(e: Event, today: string)
    ensures EventEntry(e, today).loc == EventUrl(e)
  {
  }

  // ---------------------------------------------------------------- collecting promoter ids

  /** `promoterIds.add(id)` on a JavaScript `Set` kept as its insertion order. */
  lemma DedupIdsSnoc(seen: seq<Promoter>, p: Promoter)
    ensures Dedup(Ids(seen + [p])) ==
      if p.id in Dedup(Ids(seen)) then Dedup(Ids(seen)) else Dedup(Ids(seen)) + [p.id]
  {
    assert (seen + [p])[..|seen|] == seen;
    assert Ids(seen + [p]) == Ids(seen) + [p.id];
    assert (Ids(seen) + [p.id])[..|Ids(seen)|] == Ids(seen);
  }

  method AddId(ghost seen: seq<Promoter>, ids: seq<string>, p: Promoter) returns (ids': seq<string>)
    requires ids == Dedup(Ids(seen))
    ensures ids' == Dedup(Ids(seen + [p]))
  {
    DedupIdsSnoc(seen, p);
    if p.id in ids {
      ids' := ids;
    } else {
      ids' := ids + [p.id];
    }
  }

  /** The first loop: each event's `promoterRef` id, when it has one. */
  method AddEventIds(events: seq<Event>) returns (ids: seq<string>)
    ensures ids == Dedup(Ids(EventPromoters(events)))
  {
    ids := [];
    var i := 0;
    NoEventsYet(events);
    while i < |events|
      invariant i <= |events|
      invariant ids == Dedup(Ids(EventPromoters(events[..i])))
    {
      ids := AddEventIdAt(events, i, ids);
      i := i + 1;
    }
    assert events[..i] == events;
  }

  lemma NoEventsYet(events: seq<Event>)
    ensures [] == Dedup(Ids(EventPromoters(events[..0])))
  {
    assert events[..0] == [];
  }

  /** One step of the first loop: event `i`'s promoter id is added when it has one. */
  method AddEventIdAt(events: seq<Event>, i: nat, ids: seq<string>) returns (ids': seq<string>)
    requires i < |events| && ids == Dedup(Ids(EventPromoters(events[..i])))
    ensures ids' == Dedup(Ids(EventPromoters(events[..i + 1])))
  {
    EventPromotersStep(events, i);
    var e := events[i];
    if e.promoterRef.Some? && e.promoterRef.value.id != "" {
      ids' := AddId(EventPromoters(events[..i]), ids, e.promoterRef.value);
    } else {
      assert EventPromoters(events[..i]) + EventPromoter(e) == EventPromoters(events[..i]);
      ids' := ids;
    }
  }

  /** One step of the inner loop: the element's promoter id is added when it has one. */
  method AddPromoterClub(ghost seen: seq<Promoter>, ids: seq<string>, pc: Option<Promoter>) returns (ids': seq<string>)
    requires ids == Dedup(Ids(seen))
    ensures ids' == Dedup(Ids(seen + PromoterClubEntry(pc)))
  {
    if pc.Some? && pc.value.id != "" {
      ids' := AddId(seen, ids, pc.value);
    } else {
      assert seen + PromoterClubEntry(pc) == seen;
      ids' := ids;
    }
  }

  /** The inner loop over one club's `promoterClubs`. */
  method AddEntryIds(ghost seen: seq<Promoter>, pcs: seq<Option<Promoter>>, ids: seq<string>) returns (ids': seq<string>)
    requires ids == Dedup(Ids(seen))
    ensures ids' == Dedup(Ids(seen + PromoterClubsEntries(pcs)))
  {
    ids' := ids;
    var k := 0;
    assert seen + PromoterClubsEntries(pcs[..0]) == seen by {
      assert pcs[..0] == [];
    }
    while k < |pcs|
      invariant k <= |pcs|
      invariant ids' == Dedup(Ids(seen + PromoterClubsEntries(pcs[..k])))
    {
      PromoterClubsEntriesStep(pcs, k);
      ConcatAssoc(seen, PromoterClubsEntries(pcs[..k]), PromoterClubEntry(pcs[k]));
      ids' := AddPromoterClub(seen + PromoterClubsEntries(pcs[..k]), ids', pcs[k]);
      k := k + 1;
    }
    assert pcs[..k] == pcs;
  }

  /** The second loop: the promoters of each club's `promoterClubs`. */
  method AddClubIds(ghost seen: seq<Promoter>, clubs: seq<Club>, ids: seq<string>) returns (ids': seq<string>)
    requires ids == Dedup(Ids(seen))
    ensures ids' == Dedup(Ids(seen + ClubPromoters(clubs)))
  {
    ids' := ids;
    var j := 0;
    NoClubsYet(seen, clubs);
    while j < |clubs|
      invariant j <= |clubs|
      invariant ids' == Dedup(Ids(seen + ClubPromoters(clubs[..j])))
    {
      ids' := AddClubEntryIds(seen, clubs, j, ids');
      j := j + 1;
    }
    assert clubs[..j] == clubs;
  }

  lemma NoClubsYet(seen: seq<Promoter>, clubs: seq<Club>)
    ensures seen + ClubPromoters(clubs[..0]) == seen
  {
    assert clubs[..0] == [];
  }

  /** One step of the second loop: club `j`'s promoters are added. */
  method AddClubEntryIds(ghost seen: seq<Promoter>, clubs: seq<Club>, j: nat, ids: seq<string>) returns (ids': seq<string>)
    requires j < |clubs|
    requires ids == Dedup(Ids(seen + ClubPromoters(clubs[..j])))
    ensures ids' == Dedup(Ids(seen + ClubPromoters(clubs[..j + 1])))
  {
    ClubPromotersStep(clubs, j);
    ConcatAssoc(seen, ClubPromoters(clubs[..j]), PromoterClubsEntries(clubs[j].promoterClubs));
    ids' := AddEntryIds(seen + ClubPromoters(clubs[..j]), clubs[j].promoterClubs, ids);
  }

  method CollectPromoterIds(events: seq<Event>, clubs: seq<Club>) returns (ids: seq<string>)
    ensures ids == SitemapPromoterIds(events, clubs)
  {
    ids := AddEventIds(events);
    ids := AddClubIds(EventPromoters(events), clubs, ids);
  }

  // ---------------------------------------------------------------- building the URL list

  lemma CityUrlsStep(cities: seq<string>, i: nat, today: string)
    requires i < |cities|
    ensures CityUrls(cities[..i + 1], today) == CityUrls(cities[..i], today) + [CityEntry(cities[i], today)]
  {
    assert cities[..i + 1][..i] == cities[..i];
  }

  lemma ClubUrlsStep(clubs: seq<Club>, i: nat, today: string)
    requires i < |clubs|
    ensures ClubUrls(clubs[..i + 1], today) == ClubUrls(clubs[..i], today) + [ClubEntry(clubs[i], today)]
  {
    assert clubs[..i + 1][..i] == clubs[..i];
  }

  lemma EventUrlsStep(events: seq<Event>, i: nat, today: string)
    requires i < |events|
    ensures EventUrls(events[..i + 1], today) == EventUrls(events[..i], today) + [EventEntry(events[i], today)]
  {
    assert events[..i + 1][..i] == events[..i];
  }

  lemma PromoterUrlsStep(ids: seq<string>, i: nat, today: string)
    requires i < |ids|
    ensures PromoterUrls(ids[..i + 1], today) == PromoterUrls(ids[..i], today) + [PromoterEntry(ids[i], today)]
  {
    assert ids[..i + 1][..i] == ids[..i];
  }

  method PushCities(urls: seq<UrlEntry>, cities: seq<string>, today: string) returns (urls': seq<UrlEntry>)
    ensures urls' == urls + CityUrls(cities, today)
  {
    urls' := urls;
    var i := 0;
    while i < |cities|
      invariant i <= |cities|
      invariant urls' == urls + CityUrls(cities[..i], today)
    {
      CityUrlsStep(cities, i, today);
      ConcatAssoc(urls, CityUrls(cities[..i], today), [CityEntry(cities[i], today)]);
      urls' := urls' + [CityEntry(cities[i], today)];
      i := i + 1;
    }
    assert cities[..i] == cities;
  }

  method PushClubs(urls: seq<UrlEntry>, clubs: seq<Club>, today: string) returns (urls': seq<UrlEntry>)
    ensures urls' == urls + ClubUrls(clubs, today)
  {
    urls' := urls;
    var i := 0;
    while i < |clubs|
      invariant i <= |clubs|
      invariant urls' == urls + ClubUrls(clubs[..i], today)
    {
      ClubUrlsStep(clubs, i, today);
      ConcatAssoc(urls, ClubUrls(clubs[..i], today), [ClubEntry(clubs[i], today)]);
      urls' := urls' + [ClubEntry(clubs[i], today)];
      i := i + 1;
    }
    assert clubs[..i] == clubs;
  }

  method PushEvents(urls: seq<UrlEntry>, events: seq<Event>, today: string) returns (urls': seq<UrlEntry>)
    ensures urls' == urls + EventUrls(events, today)
  {
    urls' := urls;
    var i := 0;
    while i < |events|
      invariant i <= |events|
      invariant urls' == urls + EventUrls(events[..i], today)
    {
      EventUrlsStep(events, i, today);
      ConcatAssoc(urls, EventUrls(events[..i], today), [EventEntry(events[i], today)]);
      urls' := urls' + [EventEntry(events[i], today)];
      i := i + 1;
    }
    assert events[..i] == events;
  }

  method PushPromoters(urls: seq<UrlEntry>, ids: seq<string>, today: string) returns (urls': seq<UrlEntry>)
    ensures urls' == urls + PromoterUrls(ids, today)
  {
    urls' := urls;
    var i := 0;
    while i < |ids|
      invariant i <= |ids|
      invariant urls' == urls + PromoterUrls(ids[..i], today)
    {
      PromoterUrlsStep(ids, i, today);
      ConcatAssoc(urls, PromoterUrls(ids[..i], today), [PromoterEntry(ids[i], today)]);
      urls' := urls' + [PromoterEntry(ids[i], today)];
      i := i + 1;
    }
    assert ids[..i] == ids;
  }

  /** The five phases that fill `urls`. */
  method BuildUrls(clubs: seq<Club>, events: seq<Event>, today: string, ids: seq<string>) returns (urls: seq<UrlEntry>)
    requires ids == SitemapPromoterIds(events, clubs)
    ensures urls == SitemapUrls(clubs, events, today)
  {
    urls := StaticUrls(today);
    urls := PushCities(urls, Cities(), today);
    urls := PushClubs(urls, clubs, today);
    urls := PushEvents(urls, events, today);
    urls := PushPromoters(urls, ids, today);
  }

  // ---------------------------------------------------------------- the XML

  const XmlHeader := "<?xml version=\"1.0\" encoding=\"UTF-8\"?>\n"
    + "<urlset xmlns=\"http://www.sitemaps.org/schemas/sitemap/0.9\"\n"
    + "        xmlns:xsi=\"http://www.w3.org/2001/XMLSchema-instance\"\n"
    + "        xsi:schemaLocation=\"http://www.sitemaps.org/schemas/sitemap/0.9\n"
    + "        http://www.sitemaps.org/schemas/sitemap/0.9/sitemap.xsd\">\n\n"

  const XmlFooter := "\n</urlset>\n"

  /** What precedes the escaped location in a `<url>` block. */
  const UrlOpen := "  <url>\n    <loc>"

  /** A `<url>` block: the opening, the escaped location, and the rest of the entry. */
  function UrlBlock(u: UrlEntry): string {
    UrlOpen + EscapeXml(u.loc) + UrlRest(u)
  }

  function UrlRest(u: UrlEntry): string {
    "</loc>\n"
      + "    <lastmod>" + u.lastmod + "</lastmod>\n"
      + "    <changefreq>" + u.changefreq + "</changefreq>\n"
      + "    <priority>" + u.priority + "</priority>\n"
      + "  </url>\n"
  }

  function UrlBlocks(urls: seq<UrlEntry>): string {
    ConcatMap(urls, UrlBlock)
  }

  function SitemapXml(urls: seq<UrlEntry>): string {
    XmlHeader + UrlBlocks(urls) + XmlFooter
  }

  /**
   * Reading a `<url>` block's location back: the text from after `<loc>` up
   * to the next `<`, decoded, is the entry's location.
   */
  lemma LocRoundTrip(u: UrlEntry)
    ensures |UrlBlock(u)| >= |UrlOpen| && UrlBlock(u)[..|UrlOpen|] == UrlOpen
    ensures Decode(BeforeFirst(UrlBlock(u)[|UrlOpen|..], '<'), XmlTable) == u.loc
  {
    var e := EscapeXml(u.loc);
    var rest := UrlRest(u);
    EscapeXmlSpec(u.loc);
    ConcatAssoc(UrlOpen, e, rest);
    assert UrlBlock(u)[|UrlOpen|..] == e + rest;
    assert rest[0] == '<';
    BeforeFirstAt(e, rest, '<');
  }

  /** The blocks of a concatenation are the concatenated blocks, so entry `i`'s block follows those of entries `0..i`. */
  lemma UrlBlocksAppend(a: seq<UrlEntry>, b: seq<UrlEntry>)
    ensures UrlBlocks(a + b) == UrlBlocks(a) + UrlBlocks(b)
  {
    ConcatMapAppend(a, b, UrlBlock);
  }

  lemma UrlBlocksStep(urls: seq<UrlEntry>, i: nat)
    requires i < |urls|
    ensures UrlBlocks(urls[..i + 1]) == UrlBlocks(urls[..i]) + UrlBlock(urls[i])
  {
    assert urls[..i + 1][..i] == urls[..i];
  }

  /** `xml += ...` over the entries. */
  method BuildXml(urls: seq<UrlEntry>) returns (xml: string)
    ensures xml == SitemapXml(urls)
  {
    xml := XmlHeader;
    var i := 0;
    while i < |urls|
      invariant i <= |urls|
      invariant xml == XmlHeader + UrlBlocks(urls[..i])
    {
      UrlBlocksStep(urls, i);
      ConcatAssoc(XmlHeader, UrlBlocks(urls[..i]), UrlBlock(urls[i]));
      xml := xml + UrlBlock(urls[i]);
      i := i + 1;
    }
    assert urls[..i] == urls;
    xml := xml + XmlFooter;
  }

  // ---------------------------------------------------------------- robots.txt

  /** `today.replace(/-/g, '')`. */
  function RobotsVersion(today: string): (r: string)
    ensures '-' !in r
  {
    RemoveChar(today, '-')
  }

  /** A "YYYY-MM-DD" date becomes "YYYYMMDD". */
  lemma RobotsVersionOfDate(y: string, m: string, d: string)
    requires '-' !in y && '-' !in m && '-' !in d
    ensures RobotsVersion(y + "-" + m + "-" + d) == y + m + d
  {
    var md := m + "-" + d;
    assert y + "-" + m + "-" + d == y + "-" + md;
    RemoveAfterDash(y, md);
    RemoveAfterDash(m, d);
    assert y + (m + d) == y + m + d;
  }

  lemma RemoveAfterDash(a: string, b: string)
    requires '-' !in a
    ensures RemoveChar(a + "-" + b, '-') == a + RemoveChar(b, '-')
  {
    ReplaceCharConcat(a + "-", b, '-', "");
    ReplaceCharConcat(a, "-", '-', "");
    ReplaceCharSingle('-', '-', "");
  }

  const SitemapKey := "Sitemap:"
  const SitemapLocation := "https://clubin.co.in/sitemap.xml"

  /** The replacement line `Sitemap: https://clubin.co.in/sitemap.xml?v=<version>`. */
  function SitemapDirective(version: string): string {
    SitemapKey + " " + SitemapLocation + "?v=" + version
  }

  predicate NotSpace(c: char) {
    !IsSpace(c)
  }

  /** The end of the longest run of `p`-characters from `i`: a greedy `p*`. */
  function SkipWhile(s: string, i: nat, p: char -> bool): (r: nat)
    requires i <= |s|
    ensures i <= r <= |s|
    ensures r < |s| ==> !p(s[r])
    decreases |s| - i
  {
    if i < |s| && p(s[i]) then SkipWhile(s, i + 1, p) else i
  }

  /** Every character skipped satisfies `p`. */
  lemma {:induction false} SkipWhileSpec(s: string, i: nat, p: char -> bool)
    requires i <= |s|
    ensures forall k :: i <= k < SkipWhile(s, i, p) ==> p(s[k])
    decreases |s| - i
  {
    if i < |s| && p(s[i]) {
      SkipWhileSpec(s, i + 1, p);
    }
  }

  lemma {:induction false} SkipWhileExact(s: string, i: nat, k: nat, p: char -> bool)
    requires i <= k <= |s|
    requires forall t :: i <= t < k ==> p(s[t])
    requires k < |s| ==> !p(s[k])
    ensures SkipWhile(s, i, p) == k
    decreases k - i
  {
    if i < k {
      SkipWhileExact(s, i + 1, k, p);
    }
  }

  /**
   * The end of a match of `Sitemap:\s*https://clubin.co.in/sitemap.xml\S*`
   * starting at `i`, if there is one. Both repetitions are greedy, and
   * neither needs to give characters back: `\s*` is followed by `h`, and
   * `\S*` comes last.
   */
  function MatchAt(s: string, i: nat): (r: Option<nat>)
    requires i <= |s|
    ensures r.Some? ==> i < r.value <= |s| && OccursAt(s, SitemapKey, i)
    ensures r.Some? && r.value < |s| ==> IsSpace(s[r.value])
  {
    if !OccursAt(s, SitemapKey, i) then None
    else
      var j := SkipWhile(s, i + |SitemapKey|, IsSpace);
      if !OccursAt(s, SitemapLocation, j) then None
      else Some(SkipWhile(s, j + |SitemapLocation|, NotSpace))
  }

  /** The leftmost match from `i` on, as (start, end). */
  function FirstMatch(s: string, i: nat): (r: Option<(nat, nat)>)
    requires i <= |s|
    ensures r.Some? ==> i <= r.value.0 < r.value.1 <= |s| && MatchAt(s, r.value.0) == Some(r.value.1)
    decreases |s| - i
  {
    match MatchAt(s, i)
    case Some(e) => Some((i, e))
    case None => if i == |s| then None else FirstMatch(s, i + 1)
  }

  /** The match found is the leftmost one, and none is found only when there is none. */
  lemma {:induction false} FirstMatchSpec(s: string, i: nat)
    requires i <= |s|
    ensures var r := FirstMatch(s, i);
      && (r.Some? ==> forall j :: i <= j < r.value.0 ==> MatchAt(s, j).None?)
      && (r.None? ==> forall j :: i <= j <= |s| ==> MatchAt(s, j).None?)
    decreases |s| - i
  {
    if MatchAt(s, i).None? && i < |s| {
      var r := FirstMatch(s, i + 1);
      assert FirstMatch(s, i) == r;
      FirstMatchSpec(s, i + 1);
      if r.Some? {
        forall j | i <= j < r.value.0 ensures MatchAt(s, j).None? {
          if j > i {
            assert i + 1 <= j < r.value.0;
          }
        }
      } else {
        forall j | i <= j <= |s| ensures MatchAt(s, j).None? {
          if j > i {
            assert i + 1 <= j <= |s|;
          }
        }
      }
    }
  }

  /** `robots.replace(regex, directive)`: the first match, if any, replaced. */
  function ReplaceSitemapLine(s: string, version: string): (r: string)
    ensures FirstMatch(s, 0).None? ==> r == s
    ensures FirstMatch(s, 0).Some? ==>
      r == s[..FirstMatch(s, 0).value.0] + SitemapDirective(version) + s[FirstMatch(s, 0).value.1..]
  {
    match FirstMatch(s, 0)
    case None => s
    case Some((a, b)) => s[..a] + SitemapDirective(version) + s[b..]
  }

  /** robots.txt after the run: None when it does not exist (nothing is written). */
  function UpdateRobots(robots: Option<string>, today: string): (r: Option<string>)
    ensures r.Some? <==> robots.Some?
  {
    match robots
    case None => None
    case Some(s) => Some(ReplaceSitemapLine(s, RobotsVersion(today)))
  }

  /**
   * The rewritten text is the text before the first match, the directive,
   * and the rest, which is empty or starts with whitespace (the match's
   * `\S*` stopped there). By `DirectiveShape` and `ShapedMatchesBetween`,
   * the next build therefore finds the new directive as a match and bumps
   * its version again.
   */
  lemma ReplacedAroundMatch(s: string, version: string)
    requires FirstMatch(s, 0).Some?
    ensures var (a, b) := FirstMatch(s, 0).value;
      && ReplaceSitemapLine(s, version) == s[..a] + SitemapDirective(version) + s[b..]
      && |s[..a]| == a && (s[b..] == [] || IsSpace(s[b..][0]))
  {
  }

  /** `v` has no whitespace character. */
  predicate NoSpaceIn(v: string) {
    forall k :: 0 <= k < |v| ==> NotSpace(v[k])
  }

  /**
   * Text of the directive's shape (see `DirectiveShape`) followed by nothing
   * or by whitespace is a match, whatever precedes it.
   */
  lemma ShapedMatchesBetween(p: string, d: string, q: string)
    requires ShapedAt(d, 0, |d|)
    requires q == [] || IsSpace(q[0])
    ensures MatchAt(p + d + q, |p|) == Some(|p| + |d|)
  {
    ShapedTransfers(p, d, q);
    MatchAtShaped(p + d + q, |p|, |p| + |d|);
  }

  /**
   * From `a` to `e`, `r` holds the key, one whitespace character, the
   * location, then only non-whitespace.
   */
  predicate ShapedAt(r: string, a: nat, e: nat) {
    && a + |SitemapKey| + 1 + |SitemapLocation| <= e <= |r|
    && OccursAt(r, SitemapKey, a)
    && IsSpace(r[a + |SitemapKey|]) && !IsSpace(r[a + |SitemapKey| + 1])
    && OccursAt(r, SitemapLocation, a + |SitemapKey| + 1)
    && forall t :: a + |SitemapKey| + 1 + |SitemapLocation| <= t < e ==> NotSpace(r[t])
  }

  /** Such a stretch, ending where the text ends or whitespace follows, is a match. */
  lemma MatchAtShaped(r: string, a: nat, e: nat)
    requires ShapedAt(r, a, e)
    requires e < |r| ==> IsSpace(r[e])
    ensures MatchAt(r, a) == Some(e)
  {
    var i := a + |SitemapKey|;
    SkipWhileExact(r, i, i + 1, IsSpace);
    SkipWhileExact(r, i + 1 + |SitemapLocation|, e, NotSpace);
  }

  /** A shaped text stays shaped with text around it, and is then followed by `q`. */
  lemma ShapedTransfers(p: string, d: string, q: string)
    requires ShapedAt(d, 0, |d|)
    requires q == [] || IsSpace(q[0])
    ensures ShapedAt(p + d + q, |p|, |p| + |d|)
    ensures |p| + |d| < |p + d + q| ==> IsSpace((p + d + q)[|p| + |d|])
  {
    var r := p + d + q;
    var a := |p|;
    var i := |SitemapKey|;
    var j := i + 1;
    var k := j + |SitemapLocation|;
    Within(p, d, q, 0, i);
    Within(p, d, q, j, k);
    Within(p, d, q, i, j);
    Within(p, d, q, j, j + 1);
    forall t | a + k <= t < a + |d| ensures NotSpace(r[t]) {
      Within(p, d, q, t - a, t - a + 1);
    }
    if a + |d| < |r| {
      assert r[a + |d|] == q[0];
    }
  }

  /** A directive for a version without whitespace has the shape of a match. */
  lemma DirectiveShape(version: string)
    requires NoSpaceIn(version)
    ensures ShapedAt(SitemapDirective(version), 0, |SitemapDirective(version)|)
  {
    var d := SitemapDirective(version);
    var tail := "?v=" + version;
    var i := |SitemapKey|;
    var k := i + 1 + |SitemapLocation|;
    assert d == SitemapKey + " " + SitemapLocation + tail;
    assert d[..i] == SitemapKey;
    assert d[i + 1..k] == SitemapLocation;
    assert d[i + 1] == SitemapLocation[0];
    forall t | k <= t < |d| ensures NotSpace(d[t]) {
      assert d[t] == tail[t - k];
      if t - k >= 3 {
        assert tail[t - k] == version[t - k - 3];
      }
    }
  }

  lemma Within(p: string, d: string, q: string, i: nat, j: nat)
    requires i <= j <= |d|
    ensures (p + d + q)[|p| + i..|p| + j] == d[i..j]
    ensures i < |d| ==> (p + d + q)[|p| + i] == d[i]
  {
  }

  // ---------------------------------------------------------------- the log

  function Sum(ns: seq<nat>): nat {
    if ns == [] then 0 else Sum(ns[..|ns| - 1]) + ns[|ns| - 1]
  }

  /** The per-section counts as the script logs them, with "Static: 2". */
  function ReportedBreakdown(clubs: seq<Club>, events: seq<Event>): seq<nat> {
    [2, |Cities()|, |clubs|, |events|, |SitemapPromoterIds(events, clubs)|]
  }

  /** The logged sections add up to one URL less than the logged total. */
  lemma ReportedBreakdownMissesOne(clubs: seq<Club>, events: seq<Event>, today: string)
    ensures Sum(ReportedBreakdown(clubs, events)) + 1 == |SitemapUrls(clubs, events, today)|
  {
    SitemapUrlCount(clubs, events, today);
    SumOfFive(ReportedBreakdown(clubs, events));
  }

  /** The per-section counts with the three static pages the script lists. */
  function Breakdown(clubs: seq<Club>, events: seq<Event>, today: string): seq<nat> {
    [|StaticUrls(today)|, |Cities()|, |clubs|, |events|, |SitemapPromoterIds(events, clubs)|]
  }

  /** The corrected counts differ from the logged ones only in the static line, which becomes 3. */
  lemma BreakdownCorrectsStatic(clubs: seq<Club>, events: seq<Event>, today: string)
    ensures Breakdown(clubs, events, today) == ReportedBreakdown(clubs, events)[0 := 3]
  {
    assert |StaticUrls(today)| == 3;
  }

  lemma BreakdownAddsUp(clubs: seq<Club>, events: seq<Event>, today: string)
    ensures Sum(Breakdown(clubs, events, today)) == |SitemapUrls(clubs, events, today)|
  {
    SitemapUrlCount(clubs, events, today);
    SumOfFive(Breakdown(clubs, events, today));
  }

  lemma SumOfFive(ns: seq<nat>)
    requires |ns| == 5
    ensures Sum(ns) == ns[0] + ns[1] + ns[2] + ns[3] + ns[4]
  {
    assert ns[..4][..3] == ns[..3] && ns[..3][..2] == ns[..2] && ns[..2][..1] == ns[..1] && ns[..1][..0] == [];
    assert Sum(ns[..1]) == ns[0];
    assert Sum(ns[..2]) == ns[0] + ns[1];
    assert Sum(ns[..3]) == ns[0] + ns[1] + ns[2];
    assert Sum(ns[..4]) == ns[0] + ns[1] + ns[2] + ns[3];
    assert ns[..5] == ns;
  }

  // ---------------------------------------------------------------- the run

  /**
   * `generateSitemap` after the fetches: the XML written to sitemap.xml,
   * robots.txt as rewritten (None when there is none), the URL count and
   * the per-section counts it logs, whose "Static" line says 2 and so falls
   * one short of the total.
   */
  method GenerateSitemap(clubs: seq<Club>, events: seq<Event>, today: string, robots: Option<string>)
    returns (xml: string, robots': Option<string>, total: nat, logged: seq<nat>)
    ensures xml == SitemapXml(SitemapUrls(clubs, events, today))
    ensures robots' == UpdateRobots(robots, today)
    ensures total == |SitemapUrls(clubs, events, today)| == Sum(logged) + 1
    ensures logged == ReportedBreakdown(clubs, events)
  {
    var ids := CollectPromoterIds(events, clubs);
    var urls := BuildUrls(clubs, events, today, ids);
    xml := BuildXml(urls);
    robots' := RewriteRobots(robots, today);
    total := |urls|;
    logged := Counts(clubs, events, today, ids);
  }

  /** The robots.txt step: only an existing file is rewritten. */
  method RewriteRobots(robots: Option<string>, today: string) returns (robots': Option<string>)
    ensures robots' == UpdateRobots(robots, today)
  {
    match robots {
      case None => robots' := None;
      case Some(s) =>
        var version := RemoveChar(today, '-');
        robots' := Some(ReplaceSitemapLine(s, version));
    }
  }

  /** The logged per-section counts, as the script prints them: one short of the number of URLs. */
  method Counts(clubs: seq<Club>, events: seq<Event>, today: string, ids: seq<string>) returns (logged: seq<nat>)
    requires ids == SitemapPromoterIds(events, clubs)
    ensures logged == ReportedBreakdown(clubs, events)
    ensures Sum(logged) + 1 == |SitemapUrls(clubs, events, today)|
  {
    logged := [2, |Cities()|, |clubs|, |events|, |ids|];
    ReportedBreakdownMissesOne(clubs, events, today);
  }
}
