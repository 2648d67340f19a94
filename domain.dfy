/**
 * The records the API returns (clubs, events, the promoters they reference)
 * as both build scripts and the pages read them, and the JSON values the
 * prerender script builds for structured data.
 *
 * Conventions: a field the scripts read with a default (`d.get(k, default)`,
 * a presence test) is an `Option`; a field they only test for truthiness is a
 * `string` in which "" stands for both "absent" and "empty".
 */
module Domain {
  import opened Wrappers
  import opened Text

  /** A JSON value; object members keep their insertion order. */
  datatype Json =
    | JNull
    | JBool(b: bool)
    | JNum(n: int)
    | JStr(s: string)
    | JArr(items: seq<Json>)
    | JObj(members: seq<(string, Json)>)

  /** Python truthiness of a decoded JSON value. */
  predicate Truthy(j: Json) {
    match j
    case JNull => false
    case JBool(b) => b
    case JNum(n) => n != 0
    case JStr(s) => s != ""
    case JArr(a) => a != []
    case JObj(m) => m != []
  }

  /** The value of the first member of an object named `key`. */
  function Get(j: Json, key: string): (r: Option<Json>)
    ensures r.Some? ==> j.JObj? && exists i :: 0 <= i < |j.members| && j.members[i] == (key, r.value)
    decreases if j.JObj? then |j.members| else 0
  {
    match j
    case JObj(m) =>
      if m == [] then None
      else if m[0].0 == key then Some(m[0].1)
      else
        var r := Get(JObj(m[1..]), key);
        assert r.Some? ==> exists i :: 0 <= i < |m| && m[i] == (key, r.value) by {
          if r.Some? {
            var i :| 0 <= i < |m[1..]| && m[1..][i] == (key, r.value);
            assert m[i + 1] == (key, r.value);
          }
        }
        r
    case _ => None
  }

  /** The member found is the first one with the key. */
  lemma {:induction false} GetFirstMember(j: Json, key: string, i: nat)
    requires j.JObj? && i < |j.members| && j.members[i].0 == key
    requires forall k :: 0 <= k < i ==> j.members[k].0 != key
    ensures Get(j, key) == Some(j.members[i].1)
    decreases i
  {
    if i > 0 {
      var m := j.members;
      forall k | 0 <= k < i - 1 ensures m[1..][k].0 != key {
        assert m[1..][k] == m[k + 1];
      }
      GetFirstMember(JObj(m[1..]), key, i - 1);
    }
  }

  /** A string field that may be absent: JSON null when absent (`d.get(k)`). */
  function OrNull(o: Option<string>): Json {
    match o
    case Some(s) => JStr(s)
    case None => JNull
  }

  /**
   * A promoter as embedded in an event (`promoterRef`) or in a club's
   * `promoterClubs[].promoter`. `id` and `region` are "" when absent.
   */
  datatype Promoter = Promoter(id: string, name: Option<string>, region: string, logoUrl: Option<string>)

  datatype Club = Club(
    id: string,
    name: string,
    location: Option<string>,
    address: Option<string>,
    description: Option<string>,
    imageUrl: Option<string>,
    /** One entry per `promoterClubs` element; None when the element has no `promoter`. */
    promoterClubs: seq<Option<Promoter>>,
    updatedAt: string)

  datatype Event = Event(
    id: string,
    title: string,
    date: string,
    location: Option<string>,
    club: Option<string>,
    description: Option<string>,
    imageUrl: Option<string>,
    genre: Option<string>,
    guestlistStatus: Option<string>,
    stagPrice: Option<Json>,
    couplePrice: Option<Json>,
    ladiesPrice: Option<Json>,
    price: Option<Json>,
    startTime: string,
    endTime: string,
    createdAt: Option<string>,
    promoterRef: Option<Promoter>,
    updatedAt: string)

  /** The promoter an event contributes: its `promoterRef`, when that has a truthy id. */
  function EventPromoter(e: Event): (r: seq<Promoter>)
    ensures |r| <= 1
    ensures r != [] <==> e.promoterRef.Some? && e.promoterRef.value.id != ""
    ensures r != [] ==> r[0] == e.promoterRef.value
  {
    match e.promoterRef
    case Some(p) => if p.id != "" then [p] else []
    case None => []
  }

  /** What one element of `promoterClubs` contributes: its promoter, unless missing or with an empty id. */
  function PromoterClubEntry(pc: Option<Promoter>): seq<Promoter> {
    if pc.Some? && pc.value.id != "" then [pc.value] else []
  }

  /** The promoters with a truthy id among `promoterClubs` entries, in order. */
  function PromoterClubsEntries(pcs: seq<Option<Promoter>>): (r: seq<Promoter>)
    ensures forall p :: p in r <==> Some(p) in pcs && p.id != ""
  {
    if pcs == [] then []
    else
      var last := pcs[|pcs| - 1];
      assert pcs == pcs[..|pcs| - 1] + [last];
      PromoterClubsEntries(pcs[..|pcs| - 1]) + PromoterClubEntry(last)
  }

  function EventPromoters(events: seq<Event>): seq<Promoter> {
    if events == [] then []
    else EventPromoters(events[..|events| - 1]) + EventPromoter(events[|events| - 1])
  }

  function ClubPromoters(clubs: seq<Club>): seq<Promoter> {
    if clubs == [] then []
    else ClubPromoters(clubs[..|clubs| - 1]) + PromoterClubsEntries(clubs[|clubs| - 1].promoterClubs)
  }

  /**
   * Every promoter reference both scripts visit, in visiting order: each
   * event's `promoterRef`, then each club's `promoterClubs` promoters, keeping
   * only those with a truthy id.
   */
  function PromoterEntries(events: seq<Event>, clubs: seq<Club>): seq<Promoter> {
    EventPromoters(events) + ClubPromoters(clubs)
  }

  function Ids(ps: seq<Promoter>): (r: seq<string>)
    ensures |r| == |ps|
    ensures forall i :: 0 <= i < |ps| ==> r[i] == ps[i].id
  {
    if ps == [] then [] else Ids(ps[..|ps| - 1]) + [ps[|ps| - 1].id]
  }

  lemma {:induction false} EventPromotersMembers(events: seq<Event>)
    ensures forall p :: p in EventPromoters(events) <==>
      p.id != "" && exists i :: 0 <= i < |events| && events[i].promoterRef == Some(p)
  {
    if events != [] {
      var init := events[..|events| - 1];
      EventPromotersMembers(init);
      forall p ensures p in EventPromoters(events) <==>
        p.id != "" && exists i :: 0 <= i < |events| && events[i].promoterRef == Some(p)
      {
        if p.id != "" && exists i :: 0 <= i < |events| && events[i].promoterRef == Some(p) {
          var i :| 0 <= i < |events| && events[i].promoterRef == Some(p);
          if i < |events| - 1 {
            assert init[i] == events[i];
          }
        }
        if p in EventPromoters(init) {
          var i :| 0 <= i < |init| && init[i].promoterRef == Some(p);
          assert events[i] == init[i];
        }
      }
    }
  }

  lemma {:induction false} ClubPromotersMembers(clubs: seq<Club>)
    ensures forall p :: p in ClubPromoters(clubs) <==>
      p.id != "" && exists i :: 0 <= i < |clubs| && Some(p) in clubs[i].promoterClubs
  {
    if clubs != [] {
      ClubPromotersMembers(clubs[..|clubs| - 1]);
      forall p ensures p in ClubPromoters(clubs) <==>
        p.id != "" && exists i :: 0 <= i < |clubs| && Some(p) in clubs[i].promoterClubs
      {
        ClubPromoterMemberStep(clubs, p);
      }
    }
  }

  /** The step of `ClubPromotersMembers` for one promoter: the last club is added. */
  lemma ClubPromoterMemberStep(clubs: seq<Club>, p: Promoter)
    requires clubs != []
    requires var init := clubs[..|clubs| - 1];
      p in ClubPromoters(init) <==> p.id != "" && exists i :: 0 <= i < |init| && Some(p) in init[i].promoterClubs
    ensures p in ClubPromoters(clubs) <==>
      p.id != "" && exists i :: 0 <= i < |clubs| && Some(p) in clubs[i].promoterClubs
  {
    var init := clubs[..|clubs| - 1];
    var n := |clubs| - 1;
    var last := PromoterClubsEntries(clubs[n].promoterClubs);
    assert ClubPromoters(clubs) == ClubPromoters(init) + last;
    if p.id != "" && exists i :: 0 <= i < |clubs| && Some(p) in clubs[i].promoterClubs {
      var i :| 0 <= i < |clubs| && Some(p) in clubs[i].promoterClubs;
      if i < n {
        assert init[i] == clubs[i];
        assert p in ClubPromoters(init);
      } else {
        assert p in last;
      }
    }
    if p in ClubPromoters(init) {
      var i :| 0 <= i < |init| && Some(p) in init[i].promoterClubs;
      assert clubs[i] == init[i];
    } else if p in last {
      assert Some(p) in clubs[n].promoterClubs;
    }
  }

  /**
   * A promoter is visited exactly when it has a truthy id and is some event's
   * `promoterRef` or some club's `promoterClubs` promoter.
   */
  lemma PromoterEntriesMembers(events: seq<Event>, clubs: seq<Club>)
    ensures forall p :: p in PromoterEntries(events, clubs) <==>
      p.id != "" &&
      ((exists i :: 0 <= i < |events| && events[i].promoterRef == Some(p)) ||
       (exists i :: 0 <= i < |clubs| && Some(p) in clubs[i].promoterClubs))
  {
    EventPromotersMembers(events);
    ClubPromotersMembers(clubs);
  }
}
