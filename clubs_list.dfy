/**
 * The selection logic of the city clubs page (src/pages/ClubsListPage.tsx):
 * the route parameter `/clubs/:city` is resolved against the `CITIES` table
 * by slug, giving the page's display name and the city sent to the API, and
 * the loaded clubs are narrowed by a case-insensitive search string.
 */
module ClubsList {
  import opened Wrappers
  import opened Text

  /** An entry of `CITIES` (src/types.ts): the canonical name and the name shown for it (`label`). */
  datatype City = City(id: string, shown: string)

  /** The fields of a club the page's search looks at. */
  datatype Club = Club(id: string, name: string, location: string)

  /**
   * `CITIES`, in its declared order. Each id is written as a concatenation
   * so that the verifier does not evaluate the slug of every constant
   * wherever the table is mentioned; the strings are the same.
   */
  function CityTable(): seq<City> {
    [ City("B" + "engaluru", "Bengaluru"),
      City("D" + "elhi NCR", "Delhi/NCR"),
      City("G" + "oa", "Goa"),
      City("M" + "umbai", "Mumbai"),
      City("P" + "une", "Pune"),
      City("H" + "yderabad", "Hyderabad"),
      City("C" + "handigarh", "Chandigarh"),
      City("J" + "aipur", "Jaipur"),
      City("C" + "hennai", "Chennai") ]
  }

  /** The route slug the location picker navigates to for a city (`/clubs/<slug>`). */
  function RouteSlug(c: City): string {
    Slugify(c.id)
  }

  /**
   * The `find` predicate: the entry's slug equals the lowercased route
   * parameter. An absent parameter lowercases to `undefined`, which no slug equals.
   */
  predicate Resolves(c: City, param: Option<string>) {
    param.Some? && RouteSlug(c) == Lower(param.value)
  }

  /** `cities.find(...)` as an index: the first entry the parameter resolves to. */
  function FindCity(cities: seq<City>, param: Option<string>): (r: Option<nat>)
    ensures r.Some? ==> r.value < |cities| && Resolves(cities[r.value], param)
    ensures r.Some? ==> forall j :: 0 <= j < r.value ==> !Resolves(cities[j], param)
    ensures r.None? ==> forall j :: 0 <= j < |cities| ==> !Resolves(cities[j], param)
  {
    if cities == [] then None
    else if Resolves(cities[0], param) then Some(0)
    else match FindCity(cities[1..], param)
      case None => None
      case Some(k) => Some(k + 1)
  }

  /** `cityData`: the `CITIES` entry for the route parameter, if any. */
  function CityData(param: Option<string>): Option<City> {
    match FindCity(CityTable(), param)
    case None => None
    case Some(k) => Some(CityTable()[k])
  }

  /** `cityData?.label || city || 'All Cities'`: empty strings fall through like absent ones. */
  function DisplayCity(cityData: Option<City>, param: Option<string>): (r: string)
    ensures r != ""
    ensures cityData.Some? && cityData.value.shown != "" ==> r == cityData.value.shown
    ensures (cityData.None? || cityData.value.shown == "") ==>
      r == if param.Some? && param.value != "" then param.value else "All Cities"
  {
    if cityData.Some? && cityData.value.shown != "" then cityData.value.shown
    else if param.Some? && param.value != "" then param.value
    else "All Cities"
  }

  /** `cityData?.id || city`: the city passed to the clubs API. */
  function CityParam(cityData: Option<City>, param: Option<string>): (r: Option<string>)
    ensures cityData.Some? && cityData.value.id != "" ==> r == Some(cityData.value.id)
    ensures (cityData.None? || cityData.value.id == "") ==> r == param
  {
    if cityData.Some? && cityData.value.id != "" then Some(cityData.value.id) else param
  }

  // ---------------------------------------------------------------- round trip

  /** No two entries of a table share a slug. */
  predicate SlugsDistinct(cities: seq<City>) {
    forall i, j :: 0 <= i < j < |cities| ==> RouteSlug(cities[i]) != RouteSlug(cities[j])
  }

  /** In a table with distinct slugs, each entry's own slug finds that entry and no earlier one. */
  lemma SlugFindsItself(cities: seq<City>, i: nat)
    requires i < |cities| && SlugsDistinct(cities)
    ensures FindCity(cities, Some(RouteSlug(cities[i]))) == Some(i)
  {
    SlugifyLower(cities[i].id);
    var r := FindCity(cities, Some(RouteSlug(cities[i])));
    assert Resolves(cities[i], Some(RouteSlug(cities[i])));
    assert r.Some? && r.value <= i;
    if r.value < i {
      assert false;
    }
  }

  /** The three lowercased leading characters of each `CITIES` slug, in table order. */
  function SlugHeads(): seq<string> {
    ["ben", "del", "goa", "mum", "pun", "hyd", "cha", "jai", "che"]
  }

  /** The three leading characters of a name, lowercased. */
  function IdHead(id: string): string
    requires |id| >= 3
  {
    [LowerChar(id[0]), LowerChar(id[1]), LowerChar(id[2])]
  }

  /** Ids whose first three characters are not whitespace and differ ignoring case have different slugs. */
  lemma {:induction false} DistinctHeadsDistinctSlugs(cities: seq<City>)
    requires forall i :: 0 <= i < |cities| ==>
      |cities[i].id| >= 3 && !IsSpace(cities[i].id[0]) && !IsSpace(cities[i].id[1]) && !IsSpace(cities[i].id[2])
    requires forall i, j :: 0 <= i < j < |cities| ==> IdHead(cities[i].id) != IdHead(cities[j].id)
    ensures SlugsDistinct(cities)
  {
    forall i, j | 0 <= i < j < |cities| ensures RouteSlug(cities[i]) != RouteSlug(cities[j]) {
      SlugPrefix(cities[i].id, 3);
      SlugPrefix(cities[j].id, 3);
      assert RouteSlug(cities[i])[..3] == IdHead(cities[i].id);
      assert RouteSlug(cities[j])[..3] == IdHead(cities[j].id);
    }
  }

  lemma TableIdHeads()
    ensures forall i :: 0 <= i < |CityTable()| ==>
      |CityTable()[i].id| >= 3 && !IsSpace(CityTable()[i].id[0]) && !IsSpace(CityTable()[i].id[1])
      && !IsSpace(CityTable()[i].id[2]) && IdHead(CityTable()[i].id) == SlugHeads()[i]
  {
  }

  lemma HeadsDistinct()
    ensures Distinct(SlugHeads())
  {
  }

  lemma TableSlugsDistinct()
    ensures SlugsDistinct(CityTable())
  {
    TableIdHeads();
    HeadsDistinct();
    DistinctHeadsDistinctSlugs(CityTable());
  }

  /**
   * Every city the picker links to resolves back to itself: the slug built for
   * entry `i` selects entry `i`, its label is displayed and its id is sent to the API.
   */
  lemma PickedCityRoundTrip(i: nat)
    requires i < |CityTable()|
    ensures CityData(Some(RouteSlug(CityTable()[i]))) == Some(CityTable()[i])
    ensures DisplayCity(CityData(Some(RouteSlug(CityTable()[i]))), Some(RouteSlug(CityTable()[i])))
      == CityTable()[i].shown
    ensures CityParam(CityData(Some(RouteSlug(CityTable()[i]))), Some(RouteSlug(CityTable()[i])))
      == Some(CityTable()[i].id)
  {
    TableSlugsDistinct();
    SlugFindsItself(CityTable(), i);
    assert CityTable()[i].shown != "" && CityTable()[i].id != "";
  }

  /** A parameter naming no city is displayed as given (or as "All Cities") and sent to the API as given. */
  lemma UnknownCityPassesThrough(param: Option<string>)
    requires forall i :: 0 <= i < |CityTable()| ==> !Resolves(CityTable()[i], param)
    ensures CityData(param) == None
    ensures DisplayCity(CityData(param), param) ==
      if param.Some? && param.value != "" then param.value else "All Cities"
    ensures CityParam(CityData(param), param) == param
  {
  }

  // ---------------------------------------------------------------- search

  /** The search test: the query, lowercased, occurs in the lowercased name or location. */
  predicate Matches(c: Club, query: string) {
    Contains(Lower(c.name), Lower(query)) || Contains(Lower(c.location), Lower(query))
  }

  /** `filteredClubs`: the clubs the search keeps. */
  function FilterClubs(clubs: seq<Club>, query: string): (r: seq<Club>)
    ensures Sublist(r, clubs)
    ensures forall c :: c in r <==> c in clubs && Matches(c, query)
    ensures forall c :: multiset(r)[c] == if Matches(c, query) then multiset(clubs)[c] else 0
  {
    FilterSublist(clubs, c => Matches(c, query));
    forall c ensures multiset(Filter(clubs, c => Matches(c, query)))[c] ==
      if Matches(c, query) then multiset(clubs)[c] else 0
    {
      FilterCounts(clubs, c => Matches(c, query), c);
    }
    Filter(clubs, c => Matches(c, query))
  }

  /** An empty search box keeps every club, in order. */
  lemma EmptyQueryKeepsAll(clubs: seq<Club>)
    ensures FilterClubs(clubs, "") == clubs
  {
    forall c | c in clubs ensures Matches(c, "") {
      ContainsEmpty(Lower(c.name));
    }
    FilterAll(clubs, c => Matches(c, ""));
  }
}
