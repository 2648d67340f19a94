/**
 * The pages the prerender script's `main` writes (scripts/prerender.py):
 * the clubs index, one page per city, one per club, one per event and one
 * per promoter, plus the short-link alias pages of clubs and events. Each
 * page is described by a `Page` value (the arguments `main` passes to
 * `inject_meta`); `Plan` is the whole list of writes in `main`'s order.
 */
module PrerenderPages {
  import opened Wrappers
  import opened Text
  import opened Domain
  import opened Prerender

  /** The arguments of one `inject_meta` call. */
  datatype Page = Page(title: string, description: string, image: Option<string>, url: Option<string>, sd: Json)

  function Render(template: string, p: Page, find: TagFinder, dumps: Json -> string): Result<string>
  {
    InjectMeta(template, p.title, p.description, p.image, p.url, p.sd, find, dumps)
  }

  const SchemaOrg := ("@context", JStr("https://schema.org"))

  function TypeIs(t: string): (string, Json) {
    ("@type", JStr(t))
  }

  // ---------------------------------------------------------------- breadcrumbs

  /** One `ListItem` of a `BreadcrumbList`, with the position the script writes. */
  datatype Crumb = Crumb(position: int, name: string, item: Option<string>)

  function CrumbJson(c: Crumb): Json {
    JObj([TypeIs("ListItem"), ("position", JNum(c.position)), ("name", JStr(c.name))]
      + (if c.item.Some? then [("item", JStr(c.item.value))] else []))
  }

  function CrumbItems(crumbs: seq<Crumb>): (r: seq<Json>)
    ensures |r| == |crumbs|
    ensures forall i :: 0 <= i < |r| ==> r[i] == CrumbJson(crumbs[i])
  {
    if crumbs == [] then [] else [CrumbJson(crumbs[0])] + CrumbItems(crumbs[1..])
  }

  function BreadcrumbList(crumbs: seq<Crumb>): Json {
    JObj([SchemaOrg, TypeIs("BreadcrumbList"), ("itemListElement", JArr(CrumbItems(crumbs)))])
  }

  /**
   * A well-formed trail: positions count 1, 2, 3, ... from the start, every
   * crumb but the last links to its page, and the last (the current page)
   * does not.
   */
  predicate WellFormedTrail(crumbs: seq<Crumb>) {
    && crumbs != []
    && (forall i :: 0 <= i < |crumbs| ==> crumbs[i].position == i + 1)
    && (forall i :: 0 <= i < |crumbs| - 1 ==> crumbs[i].item.Some?)
    && crumbs[|crumbs| - 1].item.None?
  }

  const HomeCrumb := Crumb(1, "Home", Some(SiteUrl + "/"))
  const ClubsCrumb := Crumb(2, "Clubs", Some(SiteUrl + "/clubs"))

  // ---------------------------------------------------------------- clubs index and city pages

  function ClubsIndexCrumbs(): (r: seq<Crumb>)
    ensures WellFormedTrail(r) && |r| == 2
  {
    [HomeCrumb, Crumb(2, "Clubs", None)]
  }

  /**
   * The `/clubs` page: a collection page with a two-step trail. (Long text
   * on the pages is written as concatenated short literals, which the
   * verifier handles far more cheaply than one long one.)
   */
  function ClubsIndexPage(): Page {
    Page("Nightclubs & Party Venues" + " in India - Browse by City" + " | Clubin",
      "Browse nightclubs and party" + " venues across Bengaluru," + " Mumbai, Delhi NCR, Goa," + " Pune, Hyderabad, Chennai,"
        + " Jaipur & Chandigarh." + " Book guestlists and VIP" + " tables on Clubin.",
      None,
      Some(SiteUrl + "/clubs"),
      JArr([JObj([SchemaOrg, TypeIs("CollectionPage"), ("name", JStr("Browse Nightclubs by City")), ("url", JStr(SiteUrl + "/clubs"))]),
            BreadcrumbList(ClubsIndexCrumbs())]))
  }

  function CityCrumbs(city: string): (r: seq<Crumb>)
    ensures WellFormedTrail(r) && |r| == 3 && r[2].name == city
  {
    [HomeCrumb, ClubsCrumb, Crumb(3, city, None)]
  }

  function CityUrl(city: string): string {
    SiteUrl + "/clubs/" + CityPageSlug(city)
  }

  function CityPage(city: string): Page {
    Page("Best Nightclubs in " + city + " | Clubin",
      "Discover the hottest" + " nightclubs and party venues in " + city
        + ". Book guestlists and get" + " VIP table reservations" + " on Clubin.",
      None,
      Some(CityUrl(city)),
      JArr([JObj([SchemaOrg, TypeIs("CollectionPage"), ("name", JStr("Best Nightclubs in " + city)), ("url", JStr(CityUrl(city)))]),
            BreadcrumbList(CityCrumbs(city))]))
  }

  // ---------------------------------------------------------------- club pages

  /** The location a club without one is filed under. */
  const DefaultLocation := "india"

  /** `get_city_slug(club.get('location', 'india'))`. */
  function ClubCitySlug(c: Club): (r: string)
    ensures ' ' !in r && ',' !in r
  {
    LocationSlug(c.location.GetOr(DefaultLocation))
  }

  function ClubRoute(c: Club): string {
    "/clubs/" + ClubCitySlug(c) + "/" + c.id
  }

  function ClubUrl(c: Club): string {
    SiteUrl + ClubRoute(c)
  }

  /** The prerender script's slug of an empty location is empty. */
  lemma EmptySegmentSlug()
    ensures LocationSlug("") == ""
  {
    assert AfterLast("", ',') == "";
    assert Trim("", IsSpace) == "";
    assert CityPageSlug("") == "";
  }

  /**
   * A club whose location is the empty string has the route `/clubs//<id>`,
   * which `write_route` stores in `clubs/<id>/index.html`: the file of the
   * route `/clubs/<id>`, which is a city's page when the id is that city's
   * slug, so the later club page replaces the city page.
   */
  lemma EmptyLocationClubFile(c: Club)
    requires c.location == Some("") && c.id != [] && c.id[|c.id| - 1] != '/'
    ensures ClubRoute(c) == "/clubs//" + c.id
    ensures RouteDir(ClubRoute(c)) == RouteDir("/clubs/" + c.id)
    ensures forall city :: CityPageSlug(city) == c.id ==> RouteDir(ClubRoute(c)) == RouteDir("/clubs/" + CityPageSlug(city))
  {
    EmptySegmentSlug();
    var clubs := "clubs";
    assert "/clubs/" == "/" + clubs + "/";
    assert "/" + clubs + "/" + "" + "/" + c.id == "/" + clubs + "//" + c.id;
    DoubledSlashSameDir(clubs, c.id);
  }

  /** The trail of a club page, whose third crumb links to the city page of `citySlug`. */
  function ClubCrumbs(c: Club, citySlug: string): (r: seq<Crumb>)
    ensures WellFormedTrail(r) && |r| == 4 && r[3].name == c.name
    ensures r[2].item == Some(SiteUrl + "/clubs/" + citySlug)
  {
    [HomeCrumb, ClubsCrumb, Crumb(3, c.location.GetOr(""), Some(SiteUrl + "/clubs/" + citySlug)), Crumb(4, c.name, None)]
  }

  function ClubPage(c: Club): Page {
    var location := c.location.GetOr("");
    Page(c.name + " - Nightclub in " + location + " | Clubin",
      c.name + " in " + location + ". " + Take(c.description.GetOr("Book guestlists and VIP" + " tables on Clubin."), 160),
      Some(c.imageUrl.GetOr(OgImage)),
      Some(ClubUrl(c)),
      JArr([JObj([SchemaOrg, TypeIs("NightClub"), ("name", JStr(c.name)), ("image", OrNull(c.imageUrl)),
                  ("description", JStr(c.description.GetOr(""))),
                  ("address", JObj([TypeIs("PostalAddress"), ("streetAddress", JStr(c.address.GetOr(""))),
                                    ("addressLocality", JStr(location)), ("addressCountry", JStr("IN"))])),
                  ("url", JStr(ClubUrl(c)))]),
            BreadcrumbList(ClubCrumbs(c, ClubCitySlug(c)))]))
  }

  // ---------------------------------------------------------------- event pages

  /** `event.get('date', '')[:10]`: the ISO calendar date. */
  function DateStr(e: Event): (r: string)
    ensures |r| <= 10 && |r| <= |e.date| && r == e.date[..|r|]
    ensures |e.date| >= 10 ==> |r| == 10
  {
    Take(e.date, 10)
  }

  /**
   * A start or end date-time: the date alone when no time is given, and
   * otherwise the date, `T`, the time and `:00` seconds.
   */
  function DateTime(date: string, time: string): (r: string)
    ensures time == "" ==> r == date
    ensures time != "" ==> |r| == |date| + |time| + 4
    ensures time != "" ==> r[..|date|] == date && r[|date|] == 'T'
    ensures time != "" ==> r[|date| + 1..|date| + 1 + |time|] == time && r[|r| - 3..] == ":00"
  {
    if time == "" then date else date + "T" + time + ":00"
  }

  function StartDate(e: Event): string {
    DateTime(DateStr(e), e.startTime)
  }

  function EndDate(e: Event): string {
    DateTime(DateStr(e), e.endTime)
  }

  /** Guest-list entry is available exactly when the status is 'open' or 'closing'. */
  predicate IsOpen(e: Event) {
    e.guestlistStatus == Some("open") || e.guestlistStatus == Some("closing")
  }

  /** `event_location.lower().replace(' ', '-')` when the event has a location, else empty. */
  function EventCitySlug(e: Event): (r: string)
    ensures ' ' !in r
    ensures r == "" <==> e.location.GetOr("") == ""
  {
    var loc := e.location.GetOr("");
    if loc == "" then "" else CityPageSlug(loc)
  }

  function EventUrl(e: Event): string {
    SiteUrl + "/events/" + e.id
  }

  datatype Tier = Stag | Couple | Ladies

  /** The three offer tiers, in the order the loop visits them. */
  const Tiers: seq<Tier> := [Stag, Couple, Ladies]

  function TierLabel(t: Tier): string {
    match t
    case Stag => "Stag Entry"
    case Couple => "Couple Entry"
    case Ladies => "Ladies Entry"
  }

  function TierPrice(e: Event, t: Tier): Option<Json> {
    match t
    case Stag => e.stagPrice
    case Couple => e.couplePrice
    case Ladies => e.ladiesPrice
  }

  /** `event.get(price_key, event.get('price', 0))`: the tier's price, else the general price, else 0. */
  function OfferPrice(e: Event, t: Tier): (r: Json)
    ensures TierPrice(e, t).Some? ==> r == TierPrice(e, t).value
    ensures TierPrice(e, t).None? && e.price.Some? ==> r == e.price.value
    ensures TierPrice(e, t).None? && e.price.None? ==> r == JNum(0)
  {
    TierPrice(e, t).GetOr(e.price.GetOr(JNum(0)))
  }

  const InStock := "https://schema.org/InStock"
  const SoldOut := "https://schema.org/SoldOut"

  function Availability(e: Event): (r: string)
    ensures r == InStock <==> IsOpen(e)
    ensures r == SoldOut <==> !IsOpen(e)
  {
    if IsOpen(e) then InStock else SoldOut
  }

  /** `event.get('createdAt', date_str)[:10]`. */
  function ValidFrom(e: Event): string {
    Take(e.createdAt.GetOr(DateStr(e)), 10)
  }

  function Offer(e: Event, t: Tier): Json {
    JObj([TypeIs("Offer"), ("name", JStr(TierLabel(t))), ("price", OfferPrice(e, t)), ("priceCurrency", JStr("INR")),
          ("availability", JStr(Availability(e))), ("url", JStr(EventUrl(e))), ("validFrom", JStr(ValidFrom(e)))])
  }

  /** The offers array of an event: one offer per tier, in tier order. */
  function EventOffers(e: Event): (r: seq<Json>)
    ensures |r| == |Tiers|
    ensures forall i :: 0 <= i < |r| ==> r[i] == Offer(e, Tiers[i])
  {
    [Offer(e, Stag), Offer(e, Couple), Offer(e, Ladies)]
  }

  /** The offers loop of `main`, appending one offer per tier. */
  method BuildOffers(e: Event) returns (offers: seq<Json>)
    ensures offers == EventOffers(e)
  {
    offers := [];
    var i := 0;
    while i < |Tiers|
      invariant 0 <= i <= |Tiers|
      invariant offers == EventOffers(e)[..i]
    {
      offers := offers + [Offer(e, Tiers[i])];
      i := i + 1;
    }
  }

  /**
   * Exactly three offers, Stag, Couple and Ladies in that order, each with
   * its tier's price (falling back to the general price, then 0), priced in
   * INR, in stock exactly when the guest list is open or closing.
   */
  lemma OffersFields(e: Event, i: nat)
    requires i < 3
    ensures |EventOffers(e)| == 3
    ensures Get(EventOffers(e)[i], "name") == Some(JStr(["Stag Entry", "Couple Entry", "Ladies Entry"][i]))
    ensures Get(EventOffers(e)[i], "price") == Some(OfferPrice(e, Tiers[i]))
    ensures Get(EventOffers(e)[i], "priceCurrency") == Some(JStr("INR"))
    ensures Get(EventOffers(e)[i], "availability") == Some(JStr(if IsOpen(e) then InStock else SoldOut))
  {
    assert EventOffers(e)[i] == Offer(e, Tiers[i]);
    assert TierLabel(Tiers[i]) == ["Stag Entry", "Couple Entry", "Ladies Entry"][i];
    OfferNameAndPrice(e, Tiers[i]);
    OfferCurrencyAndAvailability(e, Tiers[i]);
  }

  lemma OfferNameAndPrice(e: Event, t: Tier)
    ensures Get(Offer(e, t), "name") == Some(JStr(TierLabel(t)))
    ensures Get(Offer(e, t), "price") == Some(OfferPrice(e, t))
  {
    var o := Offer(e, t);
    GetFirstMember(o, "name", 1);
    GetFirstMember(o, "price", 2);
  }

  lemma OfferCurrencyAndAvailability(e: Event, t: Tier)
    ensures Get(Offer(e, t), "priceCurrency") == Some(JStr("INR"))
    ensures Get(Offer(e, t), "availability") == Some(JStr(Availability(e)))
  {
    var o := Offer(e, t);
    var m := o.members;
    assert |m[0].0| == 5 && |m[1].0| == 4 && |m[2].0| == 5 && |m[3].0| == 13;
    GetFirstMember(o, "priceCurrency", 3);
    GetFirstMember(o, "availability", 4);
  }

  function Organizer(p: Promoter): Json {
    JObj([TypeIs("Organization"), ("name", JStr(p.name.GetOr(""))), ("url", JStr(SiteUrl + "/promoters/" + p.id))])
  }

  /** `promoter_ref and promoter_ref.get('name')`. */
  predicate HasOrganizer(e: Event) {
    e.promoterRef.Some? && Given(e.promoterRef.value.name)
  }

  function EventSdMembers(e: Event): seq<(string, Json)> {
    var loc := e.location.GetOr("");
    [SchemaOrg, TypeIs("Event"), ("name", JStr(e.title)), ("startDate", JStr(StartDate(e))), ("endDate", JStr(EndDate(e))),
     ("eventStatus", JStr("https://schema.org/EventScheduled")),
     ("eventAttendanceMode", JStr("https://schema.org/OfflineEventAttendanceMode")),
     ("image", OrNull(e.imageUrl)), ("description", JStr(e.description.GetOr(""))),
     ("location", JObj([TypeIs("Place"), ("name", JStr(e.club.GetOr(""))),
                        ("address", JObj([TypeIs("PostalAddress"), ("addressLocality", JStr(loc)), ("addressCountry", JStr("IN"))]))])),
     ("url", JStr(EventUrl(e))), ("offers", JArr(EventOffers(e))),
     ("performer", JObj([TypeIs("PerformingGroup"), ("name", JStr(e.genre.GetOr(e.title)))]))]
  }

  /** The event's structured data; the organizer member is appended only when the promoter has a name. */
  function EventSd(e: Event): (r: Json)
    ensures r.JObj?
    ensures HasOrganizer(e) ==> r.members == EventSdMembers(e) + [("organizer", Organizer(e.promoterRef.value))]
    ensures !HasOrganizer(e) ==> r.members == EventSdMembers(e)
  {
    JObj(EventSdMembers(e) + if HasOrganizer(e) then [("organizer", Organizer(e.promoterRef.value))] else [])
  }

  /** The trail of an event: the club crumb only when the event has a city slug; positions stay consecutive. */
  function EventCrumbs(e: Event): (r: seq<Crumb>)
    ensures WellFormedTrail(r)
    ensures |r| == if EventCitySlug(e) != "" then 4 else 3
    ensures r[|r| - 1] == Crumb(|r|, e.title, None)
  {
    var slug := EventCitySlug(e);
    [HomeCrumb, ClubsCrumb]
      + (if slug != "" then [Crumb(3, e.club.GetOr(""), Some(SiteUrl + "/clubs/" + slug))] else [])
      + [Crumb(if slug != "" then 4 else 3, e.title, None)]
  }

  function EventPage(e: Event): Page {
    var club := e.club.GetOr("");
    Page(e.title + " at " + club + " - " + DateStr(e) + " | Clubin",
      e.title + " at " + club + " on " + DateStr(e) + ". " + Take(e.description.GetOr("Book your spot on Clubin!"), 150),
      Some(e.imageUrl.GetOr(OgImage)),
      Some(EventUrl(e)),
      JArr([EventSd(e), BreadcrumbList(EventCrumbs(e))]))
  }

  // ---------------------------------------------------------------- promoter pages

  /**
   * `promoter_map`: every visited entry stored under its id in visiting
   * order, so a later entry replaces an earlier one with the same id.
   */
  function PromoterMapOf(entries: seq<Promoter>): map<string, Promoter> {
    if entries == [] then map[]
    else PromoterMapOf(entries[..|entries| - 1])[entries[|entries| - 1].id := entries[|entries| - 1]]
  }

  /** The keys are exactly the visited ids, and each maps to the last entry with that id. */
  lemma {:induction false} PromoterMapKeys(entries: seq<Promoter>)
    ensures forall id :: id in PromoterMapOf(entries) <==> id in Ids(entries)
    ensures forall id :: id in PromoterMapOf(entries) ==> PromoterMapOf(entries)[id] in entries
    ensures forall id :: id in PromoterMapOf(entries) ==> PromoterMapOf(entries)[id].id == id
  {
    if entries != [] {
      var init := entries[..|entries| - 1];
      PromoterMapKeys(init);
      assert Ids(entries) == Ids(init) + [entries[|entries| - 1].id];
      forall p | p in init ensures p in entries {
        var k :| 0 <= k < |init| && init[k] == p;
        assert entries[k] == p;
      }
    }
  }

  /** Entries visited later win: whatever `b` maps, the merge of `a` then `b` maps the same way. */
  lemma {:induction false} PromoterMapLaterWins(a: seq<Promoter>, b: seq<Promoter>)
    ensures forall id :: id in PromoterMapOf(b) ==> id in PromoterMapOf(a + b) && PromoterMapOf(a + b)[id] == PromoterMapOf(b)[id]
    ensures forall id :: id !in PromoterMapOf(b) ==> (id in PromoterMapOf(a + b) <==> id in PromoterMapOf(a))
    ensures forall id :: id !in PromoterMapOf(b) && id in PromoterMapOf(a) ==> PromoterMapOf(a + b)[id] == PromoterMapOf(a)[id]
    decreases |b|
  {
    if b == [] {
      assert a + b == a;
    } else {
      var init := b[..|b| - 1];
      assert (a + b)[..|a + b| - 1] == a + init;
      assert (a + b)[|a + b| - 1] == b[|b| - 1];
      PromoterMapLaterWins(a, init);
    }
  }

  /**
   * For an id that some club lists, the promoter page shows the last club
   * copy, whatever the events said.
   */
  lemma ClubCopyWins(events: seq<Event>, clubs: seq<Club>, id: string)
    requires id in PromoterMapOf(ClubPromoters(clubs))
    ensures id in PromoterMapOf(PromoterEntries(events, clubs))
    ensures PromoterMapOf(PromoterEntries(events, clubs))[id] == PromoterMapOf(ClubPromoters(clubs))[id]
  {
    PromoterMapLaterWins(EventPromoters(events), ClubPromoters(clubs));
  }

  /**
   * The key list and the map after the assignments `promoter_map[p.id] = p`
   * for each `p` of `seen` in turn; a dict lists a key where it was first
   * inserted.
   */
  function Visited(seen: seq<Promoter>): (seq<string>, map<string, Promoter>) {
    if seen == [] then ([], map[])
    else
      var before := Visited(seen[..|seen| - 1]);
      var p := seen[|seen| - 1];
      (if p.id in before.1 then before.0 else before.0 + [p.id], before.1[p.id := p])
  }

  /** The dict built one entry at a time is the last-wins map, and its keys are the distinct ids in first-visit order. */
  lemma {:induction false} VisitedIsMapAndKeys(seen: seq<Promoter>)
    ensures Visited(seen).1 == PromoterMapOf(seen)
    ensures Visited(seen).0 == Dedup(Ids(seen))
  {
    if seen != [] {
      var init := seen[..|seen| - 1];
      VisitedIsMapAndKeys(init);
      PromoterMapKeys(init);
      assert Ids(seen)[..|Ids(seen)| - 1] == Ids(init);
    }
  }

  /** The promoter-map loops of `main`: the map, and its keys in insertion order. */
  method CollectPromoters(events: seq<Event>, clubs: seq<Club>) returns (keys: seq<string>, m: map<string, Promoter>)
    ensures m == PromoterMapOf(PromoterEntries(events, clubs))
    ensures keys == Dedup(Ids(PromoterEntries(events, clubs)))
  {
    keys, m := VisitEvents(events);
    keys, m := VisitClubs(EventPromoters(events), clubs, keys, m);
    VisitedIsMapAndKeys(PromoterEntries(events, clubs));
  }

  /** The loop over events. */
  method VisitEvents(events: seq<Event>) returns (keys: seq<string>, m: map<string, Promoter>)
    ensures (keys, m) == Visited(EventPromoters(events))
  {
    keys, m := [], map[];
    ghost var seen: seq<Promoter> := [];
    var i := 0;
    assert events[..0] == [];
    while i < |events|
      invariant 0 <= i <= |events|
      invariant seen == EventPromoters(events[..i])
      invariant (keys, m) == Visited(seen)
    {
      EventPromotersStep(events, i);
      keys, m, seen := VisitEvent(seen, events[i], keys, m);
      i := i + 1;
    }
    assert events[..|events|] == events;
  }

  /** The loop over clubs, continuing from the state after `seen`. */
  method VisitClubs(ghost seen: seq<Promoter>, clubs: seq<Club>, keys: seq<string>, m: map<string, Promoter>)
    returns (keys': seq<string>, m': map<string, Promoter>)
    requires (keys, m) == Visited(seen)
    ensures (keys', m') == Visited(seen + ClubPromoters(clubs))
  {
    keys', m' := keys, m;
    ghost var now := seen;
    var j := 0;
    assert clubs[..0] == [];
    assert seen + [] == seen;
    while j < |clubs|
      invariant 0 <= j <= |clubs|
      invariant now == seen + ClubPromoters(clubs[..j])
      invariant (keys', m') == Visited(now)
    {
      ClubPromotersStep(clubs, j);
      ConcatAssoc(seen, ClubPromoters(clubs[..j]), PromoterClubsEntries(clubs[j].promoterClubs));
      keys', m', now := VisitEntries(now, clubs[j].promoterClubs, keys', m');
      j := j + 1;
    }
    assert clubs[..|clubs|] == clubs;
  }

  /** One turn of the loop over events: the event's `promoterRef`, if it has a truthy id. */
  method VisitEvent(ghost seen: seq<Promoter>, e: Event, keys: seq<string>, m: map<string, Promoter>)
    returns (keys': seq<string>, m': map<string, Promoter>, ghost seen': seq<Promoter>)
    requires (keys, m) == Visited(seen)
    ensures seen' == seen + EventPromoter(e)
    ensures (keys', m') == Visited(seen')
  {
    var ref := e.promoterRef;
    if ref.Some? && ref.value.id != "" {
      assert EventPromoter(e) == [ref.value];
      keys', m' := Visit(seen, keys, m, ref.value);
      seen' := seen + [ref.value];
    } else {
      assert EventPromoter(e) == [];
      assert seen + [] == seen;
      keys', m', seen' := keys, m, seen;
    }
  }

  /** The inner loop over one club's `promoterClubs`. */
  /** One step of the inner loop: an element with a promoter with an id is visited, any other is skipped. */
  method VisitEntry(ghost seen: seq<Promoter>, keys: seq<string>, m: map<string, Promoter>, pc: Option<Promoter>)
    returns (keys': seq<string>, m': map<string, Promoter>, ghost seen': seq<Promoter>)
    requires (keys, m) == Visited(seen)
    ensures seen' == seen + PromoterClubEntry(pc)
    ensures (keys', m') == Visited(seen')
  {
    if pc.Some? && pc.value.id != "" {
      keys', m' := Visit(seen, keys, m, pc.value);
      seen' := seen + [pc.value];
    } else {
      keys', m', seen' := keys, m, seen;
      assert seen + PromoterClubEntry(pc) == seen;
    }
  }

  method VisitEntries(ghost seen: seq<Promoter>, pcs: seq<Option<Promoter>>, keys: seq<string>, m: map<string, Promoter>)
    returns (keys': seq<string>, m': map<string, Promoter>, ghost seen': seq<Promoter>)
    requires (keys, m) == Visited(seen)
    ensures seen' == seen + PromoterClubsEntries(pcs)
    ensures (keys', m') == Visited(seen')
  {
    keys', m', seen' := keys, m, seen;
    var k := 0;
    assert pcs[..0] == [];
    assert seen + [] == seen;
    while k < |pcs|
      invariant 0 <= k <= |pcs|
      invariant seen' == seen + PromoterClubsEntries(pcs[..k])
      invariant (keys', m') == Visited(seen')
    {
      PromoterClubsEntriesStep(pcs, k);
      ConcatAssoc(seen, PromoterClubsEntries(pcs[..k]), PromoterClubEntry(pcs[k]));
      keys', m', seen' := VisitEntry(seen', keys', m', pcs[k]);
      k := k + 1;
    }
    assert pcs[..|pcs|] == pcs;
  }

  lemma EventPromotersStep(events: seq<Event>, i: nat)
    requires i < |events|
    ensures EventPromoters(events[..i + 1]) == EventPromoters(events[..i]) + EventPromoter(events[i])
  {
    assert events[..i + 1][..i] == events[..i];
  }

  lemma ClubPromotersStep(clubs: seq<Club>, j: nat)
    requires j < |clubs|
    ensures ClubPromoters(clubs[..j + 1]) == ClubPromoters(clubs[..j]) + PromoterClubsEntries(clubs[j].promoterClubs)
  {
    assert clubs[..j + 1][..j] == clubs[..j];
  }

  lemma PromoterClubsEntriesStep(pcs: seq<Option<Promoter>>, k: nat)
    requires k < |pcs|
    ensures PromoterClubsEntries(pcs[..k + 1])
         == PromoterClubsEntries(pcs[..k]) + PromoterClubEntry(pcs[k])
  {
    assert pcs[..k + 1][..k] == pcs[..k];
  }

  /** One `promoter_map[id] = entry`: the map gains or overwrites the id; the key list gains it only when it is new. */
  method Visit(ghost visited: seq<Promoter>, keys: seq<string>, m: map<string, Promoter>, p: Promoter)
    returns (keys': seq<string>, m': map<string, Promoter>)
    requires (keys, m) == Visited(visited)
    ensures (keys', m') == Visited(visited + [p])
    ensures m' == m[p.id := p]
    ensures keys' == if p.id in m then keys else keys + [p.id]
  {
    var all := visited + [p];
    assert all[..|all| - 1] == visited;
    if p.id !in m {
      keys' := keys + [p.id];
    } else {
      keys' := keys;
    }
    m' := m[p.id := p];
  }

  function PromoterName(p: Promoter): string {
    p.name.GetOr("Promoter")
  }

  function PromoterUrl(pid: string): string {
    SiteUrl + "/promoters/" + pid
  }

  function PromoterCrumbs(p: Promoter): (r: seq<Crumb>)
    ensures WellFormedTrail(r) && |r| == 3 && r[2].name == PromoterName(p)
  {
    [HomeCrumb, ClubsCrumb, Crumb(3, PromoterName(p), None)]
  }

  function PromoterPage(pid: string, p: Promoter): Page {
    var name := PromoterName(p);
    Page(name + " - Event Promoter" + (if p.region != "" then " in " + p.region else "") + " | Clubin",
      name + " is an event promoter" + (if p.region != "" then " based in " + p.region else "")
        + ". Browse their upcoming" + " nightclub events and" + " parties on Clubin.",
      Some(p.logoUrl.GetOr(OgImage)),
      Some(PromoterUrl(pid)),
      JArr([JObj([SchemaOrg, TypeIs("Organization"), ("name", JStr(name)), ("url", JStr(PromoterUrl(pid))), ("image", OrNull(p.logoUrl))]),
            BreadcrumbList(PromoterCrumbs(p))]))
  }

  // ---------------------------------------------------------------- the write plan

  /** One `write_route(route, html)` call, with the page whose html it writes. */
  datatype Write = Write(route: string, page: Page)

  /** The short-link service: the code it returns for ("club" | "event", id), "" when there is none. */
  type ShortCodes = (string, string) -> string

  /** The city-page loop: one page per city, at its slug. */
  function CityWrites(cities: seq<string>): (r: seq<Write>)
    ensures |r| == |cities|
    ensures forall i :: 0 <= i < |r| ==> r[i] == Write("/clubs/" + CityPageSlug(cities[i]), CityPage(cities[i]))
  {
    seq(|cities|, i requires 0 <= i < |cities| => Write("/clubs/" + CityPageSlug(cities[i]), CityPage(cities[i])))
  }

  /** A page, and after it the alias page under `prefix` when the short-link service gave a code. */
  function WithAlias(w: Write, prefix: string, code: string): (r: seq<Write>)
    ensures |r| == if code != "" then 2 else 1
    ensures r[0] == w
    ensures code != "" ==> r[1] == Write(prefix + code, w.page)
  {
    [w] + if code != "" then [Write(prefix + code, w.page)] else []
  }

  /** A club's page, then its `/c/` copy when it got a short-link code. */
  function ClubWrite(c: Club, shortCode: ShortCodes): seq<Write> {
    WithAlias(Write(ClubRoute(c), ClubPage(c)), "/c/", shortCode("club", c.id))
  }

  function ClubWrites(clubs: seq<Club>, shortCode: ShortCodes): seq<Write>
  {
    if clubs == [] then []
    else ClubWrites(clubs[..|clubs| - 1], shortCode) + ClubWrite(clubs[|clubs| - 1], shortCode)
  }

  /** An event's page, then its `/e/` copy when it got a short-link code. */
  function EventWrite(e: Event, shortCode: ShortCodes): seq<Write> {
    WithAlias(Write("/events/" + e.id, EventPage(e)), "/e/", shortCode("event", e.id))
  }

  function EventWrites(events: seq<Event>, shortCode: ShortCodes): seq<Write>
  {
    if events == [] then []
    else EventWrites(events[..|events| - 1], shortCode) + EventWrite(events[|events| - 1], shortCode)
  }

  function PromoterWrites(keys: seq<string>, m: map<string, Promoter>): (r: seq<Write>)
    requires forall k :: k in keys ==> k in m
    ensures |r| == |keys|
  {
    if keys == [] then []
    else
      var k := keys[|keys| - 1];
      PromoterWrites(keys[..|keys| - 1], m)
        + [Write("/promoters/" + k, PromoterPage(k, m[k]))]
  }

  /** The number of ids that get a short-link code. */
  function CodeCount(kind: string, ids: seq<string>, shortCode: ShortCodes): (r: nat)
    ensures r <= |ids|
  {
    if ids == [] then 0
    else CodeCount(kind, ids[..|ids| - 1], shortCode) + (if shortCode(kind, ids[|ids| - 1]) != "" then 1 else 0)
  }

  function ClubIds(clubs: seq<Club>): (r: seq<string>)
    ensures |r| == |clubs| && forall i :: 0 <= i < |r| ==> r[i] == clubs[i].id
  {
    if clubs == [] then [] else ClubIds(clubs[..|clubs| - 1]) + [clubs[|clubs| - 1].id]
  }

  function EventIds(events: seq<Event>): (r: seq<string>)
    ensures |r| == |events| && forall i :: 0 <= i < |r| ==> r[i] == events[i].id
  {
    if events == [] then [] else EventIds(events[..|events| - 1]) + [events[|events| - 1].id]
  }

  lemma {:induction false} ClubWritesCount(clubs: seq<Club>, shortCode: ShortCodes)
    ensures |ClubWrites(clubs, shortCode)| == |clubs| + CodeCount("club", ClubIds(clubs), shortCode)
  {
    if clubs != [] {
      var init := clubs[..|clubs| - 1];
      ClubWritesCount(init, shortCode);
      assert ClubIds(clubs)[..|clubs| - 1] == ClubIds(init);
    }
  }

  lemma {:induction false} EventWritesCount(events: seq<Event>, shortCode: ShortCodes)
    ensures |EventWrites(events, shortCode)| == |events| + CodeCount("event", EventIds(events), shortCode)
  {
    if events != [] {
      var init := events[..|events| - 1];
      EventWritesCount(init, shortCode);
      assert EventIds(events)[..|events| - 1] == EventIds(init);
    }
  }

  /** The keys of the promoter map, in insertion order, and the map. */
  function PromoterKeys(events: seq<Event>, clubs: seq<Club>): (r: seq<string>)
    ensures Distinct(r)
    ensures forall k :: k in r <==> k in PromoterMapOf(PromoterEntries(events, clubs))
  {
    PromoterMapKeys(PromoterEntries(events, clubs));
    Dedup(Ids(PromoterEntries(events, clubs)))
  }

  /** Every `write_route` call of `main`, in order. */
  function Plan(clubs: seq<Club>, events: seq<Event>, shortCode: ShortCodes): seq<Write>
  {
    var m := PromoterMapOf(PromoterEntries(events, clubs));
    [Write("/clubs", ClubsIndexPage())]
      + CityWrites(Cities())
      + ClubWrites(clubs, shortCode)
      + EventWrites(events, shortCode)
      + PromoterWrites(PromoterKeys(events, clubs), m)
  }

  /** The five phases of `main`, one after the other, and how many writes they make together. */
  lemma PlanParts(clubs: seq<Club>, events: seq<Event>, shortCode: ShortCodes)
    ensures Plan(clubs, events, shortCode)
      == [Write("/clubs", ClubsIndexPage())] + CityWrites(Cities()) + ClubWrites(clubs, shortCode) + EventWrites(events, shortCode)
         + PromoterWrites(PromoterKeys(events, clubs), PromoterMapOf(PromoterEntries(events, clubs)))
    ensures |Plan(clubs, events, shortCode)|
      == 1 + |Cities()| + |ClubWrites(clubs, shortCode)| + |EventWrites(events, shortCode)| + |PromoterKeys(events, clubs)|
  {
  }

  /**
   * The page count `main` reports: the clubs index, 9 city pages, one page
   * per club and per event, one alias per short-link code, one page per
   * distinct promoter id.
   */
  lemma PlanCount(clubs: seq<Club>, events: seq<Event>, shortCode: ShortCodes)
    ensures |Plan(clubs, events, shortCode)|
      == 10 + |clubs| + CodeCount("club", ClubIds(clubs), shortCode)
         + |events| + CodeCount("event", EventIds(events), shortCode)
         + |PromoterMapOf(PromoterEntries(events, clubs))|
  {
    var m := PromoterMapOf(PromoterEntries(events, clubs));
    var keys := PromoterKeys(events, clubs);
    DistinctCard(keys, m.Keys);
    assert |PromoterWrites(keys, m)| == |m|;
    assert |CityWrites(Cities())| == 9;
    ClubWritesCount(clubs, shortCode);
    EventWritesCount(events, shortCode);
  }

  lemma {:induction false} DistinctCard(s: seq<string>, k: set<string>)
    requires Distinct(s)
    requires forall x :: x in s <==> x in k
    ensures |s| == |k|
  {
    if s != [] {
      var x := s[0];
      assert forall y :: y in s[1..] <==> y in k - {x} by {
        forall y ensures y in s[1..] <==> y in k - {x} {
          if y in s[1..] {
            var j :| 0 <= j < |s[1..]| && s[1..][j] == y;
            assert s[j + 1] == y;
          }
          if y in s && y != x {
            var j :| 0 <= j < |s| && s[j] == y;
            assert j != 0;
            assert s[1..][j - 1] == y;
          }
        }
      }
      assert Distinct(s[1..]) by {
        forall i, j | 0 <= i < j < |s[1..]| ensures s[1..][i] != s[1..][j] {
          assert s[1..][i] == s[i + 1] && s[1..][j] == s[j + 1];
        }
      }
      DistinctCard(s[1..], k - {x});
    }
  }

  lemma EmptyDataPlan(shortCode: ShortCodes)
    ensures |Plan([], [], shortCode)| == 10
  {
    PlanCount([], [], shortCode);
    assert PromoterEntries([], []) == [];
  }
}
