/**
 * The `main` of the prerender script as a sequence of phases that write
 * rendered pages into the output tree: the clubs index, the city pages, the
 * club pages (each followed by its `/c/` short-link copy), the event pages
 * (each followed by its `/e/` copy) and the promoter pages. Each phase is a
 * loop proved to perform exactly its part of `Plan`, and the page count it
 * reports is the number of writes.
 */
module PrerenderDriver {
  import opened Wrappers
  import opened Text
  import opened Domain
  import opened Prerender
  import opened PrerenderPages

  /**
   * The output tree: for each directory (relative to `dist/`) the html of the
   * `index.html` written in it (`IndexFile` of the directory).
   */
  type Files = map<string, string>

  /** The tree after `write_route(route, html)`: the route's `index.html` now holds `html`; a route of slashes only is skipped. */
  function Stored(files: Files, route: string, html: string): Files {
    match RouteDir(route)
    case None => files
    case Some(path) => files[path := html]
  }

  /** After `write_route`, `f` exists iff it existed or is the route's directory, and holds `html` exactly when it is the route's directory. */
  lemma StoredContents(files: Files, route: string, html: string, f: string)
    ensures f in Stored(files, route, html) <==> f in files || RouteDir(route) == Some(f)
    ensures f in Stored(files, route, html) ==>
      Stored(files, route, html)[f] == if RouteDir(route) == Some(f) then html else files[f]
  {
  }

  /**
   * Where the script stands after some writes: the tree so far, and whether
   * a page's rendering raised, which ends the script with the tree as it was.
   */
  datatype Run = Run(files: Files, aborted: bool)

  /** One more write: render the page and store it, unless the script has already stopped. */
  function WriteOne(before: Run, w: Write, render: Page -> Result<string>): Run {
    if before.aborted then before
    else
      match render(w.page)
      case Failure(_) => Run(before.files, true)
      case Success(html) => Run(Stored(before.files, w.route, html), false)
  }

  /** Where the script stands after rendering and writing every page of `writes` in order. */
  function ApplyWrites(start: Run, writes: seq<Write>, render: Page -> Result<string>): Run
  {
    if writes == [] then start
    else WriteOne(ApplyWrites(start, writes[..|writes| - 1], render), writes[|writes| - 1], render)
  }

  /** Writing two lists of pages is writing the first list, then the second. */
  lemma {:induction false} ApplyWritesAppend(start: Run, a: seq<Write>, b: seq<Write>, render: Page -> Result<string>)
    ensures ApplyWrites(start, a + b, render)
         == ApplyWrites(ApplyWrites(start, a, render), b, render)
    decreases |b|
  {
    if b == [] {
      assert a + b == a;
    } else {
      var init := b[..|b| - 1];
      assert (a + b)[..|a + b| - 1] == a + init;
      assert (a + b)[|a + b| - 1] == b[|b| - 1];
      ApplyWritesAppend(start, a, init, render);
    }
  }

  /** Once stopped, the script writes nothing more. */
  lemma {:induction false} AbortedStays(start: Run, writes: seq<Write>, render: Page -> Result<string>)
    requires start.aborted
    ensures ApplyWrites(start, writes, render) == start
  {
    if writes != [] {
      AbortedStays(start, writes[..|writes| - 1], render);
    }
  }

  /** A run that stops within `a` ends there, whatever follows. */
  lemma AbortedExtends(start: Run, a: seq<Write>, b: seq<Write>, render: Page -> Result<string>)
    requires ApplyWrites(start, a, render).aborted
    ensures ApplyWrites(start, a + b, render) == ApplyWrites(start, a, render)
  {
    ApplyWritesAppend(start, a, b, render);
    AbortedStays(ApplyWrites(start, a, render), b, render);
  }

  /** A run that stops at the writes `w` following `pre` ends there, whatever follows. */
  lemma AbortAt(start: Run, pre: seq<Write>, w: seq<Write>, rest: seq<Write>, render: Page -> Result<string>)
    requires ApplyWrites(ApplyWrites(start, pre, render), w, render).aborted
    ensures ApplyWrites(start, pre + w + rest, render) == ApplyWrites(ApplyWrites(start, pre, render), w, render)
  {
    ApplyWritesAppend(start, pre, w, render);
    AbortedExtends(start, pre + w, rest, render);
  }

  /** The script stops exactly when the rendering of one of the pages raises. */
  lemma {:induction false} AbortIff(files: Files, writes: seq<Write>, render: Page -> Result<string>)
    ensures ApplyWrites(Run(files, false), writes, render).aborted
        <==> exists i :: 0 <= i < |writes| && render(writes[i].page).Failure?
  {
    if writes != [] {
      var n := |writes| - 1;
      AbortIff(files, writes[..n], render);
      AbortStep(Run(files, false), writes, render);
      SomeFailureStep(writes, render);
    }
  }

  /** A run stops at its last write exactly when it had stopped before or that page raises. */
  lemma AbortStep(start: Run, writes: seq<Write>, render: Page -> Result<string>)
    requires writes != []
    ensures ApplyWrites(start, writes, render).aborted
        <==> ApplyWrites(start, writes[..|writes| - 1], render).aborted || render(writes[|writes| - 1].page).Failure?
  {
  }

  /** The rendering of some page of `writes` raises. */
  predicate SomeFails(writes: seq<Write>, render: Page -> Result<string>) {
    exists i :: 0 <= i < |writes| && render(writes[i].page).Failure?
  }

  /** Some page of a list raises exactly when one before the last or the last one does. */
  lemma SomeFailureStep(writes: seq<Write>, render: Page -> Result<string>)
    requires writes != []
    ensures SomeFails(writes, render)
        <==> SomeFails(writes[..|writes| - 1], render) || render(writes[|writes| - 1].page).Failure?
  {
    var n := |writes| - 1;
    var init := writes[..n];
    if SomeFails(writes, render) {
      var i :| 0 <= i < |writes| && render(writes[i].page).Failure?;
      if i < n {
        assert init[i] == writes[i];
      }
    }
    if SomeFails(init, render) {
      var i :| 0 <= i < n && render(init[i].page).Failure?;
      assert writes[i] == init[i];
    }
  }

  /** Pages that all render leave the script running. */
  lemma NoFailureRuns(files: Files, writes: seq<Write>, render: Page -> Result<string>)
    requires forall j :: 0 <= j < |writes| ==> render(writes[j].page).Success?
    ensures !ApplyWrites(Run(files, false), writes, render).aborted
  {
    AbortIff(files, writes, render);
  }

  /**
   * The first page whose rendering raises stops the script: the tree is
   * the one the writes before it left, and none of those stopped it.
   */
  lemma FirstFailure(files: Files, writes: seq<Write>, render: Page -> Result<string>, k: nat)
    requires k < |writes| && render(writes[k].page).Failure?
    requires forall j :: 0 <= j < k ==> render(writes[j].page).Success?
    ensures !ApplyWrites(Run(files, false), writes[..k], render).aborted
    ensures ApplyWrites(Run(files, false), writes, render)
         == Run(ApplyWrites(Run(files, false), writes[..k], render).files, true)
  {
    var pre := writes[..k];
    assert forall j :: 0 <= j < |pre| ==> pre[j] == writes[j];
    NoFailureRuns(files, pre, render);
    var before := ApplyWrites(Run(files, false), pre, render);
    var w := [writes[k]];
    assert w[..0] == [];
    assert ApplyWrites(before, w, render) == WriteOne(before, writes[k], render);
    SplitAt(writes, k);
    AbortAt(Run(files, false), pre, w, writes[k + 1..], render);
  }

  /** The script's renderer: `inject_meta` into the built template. */
  function Renderer(template: string, find: TagFinder, dumps: Json -> string): (render: Page -> Result<string>)
    ensures forall p :: render(p) == Render(template, p, find, dumps)
  {
    p => Render(template, p, find, dumps)
  }

  /** With `inject_meta` as the renderer, the script stops exactly when a page's replacement is malformed. */
  lemma RenderAbortIff(files: Files, writes: seq<Write>, template: string, find: TagFinder, dumps: Json -> string)
    ensures ApplyWrites(Run(files, false), writes, Renderer(template, find, dumps)).aborted
        <==> exists i :: 0 <= i < |writes| && Render(template, writes[i].page, find, dumps).Failure?
  {
    AbortIff(files, writes, Renderer(template, find, dumps));
  }

  /** The page of the last write to the file `f`, if any write targets it. */
  function LastPage(writes: seq<Write>, f: string): Option<Page> {
    if writes == [] then None
    else if RouteDir(writes[|writes| - 1].route) == Some(f) then Some(writes[|writes| - 1].page)
    else LastPage(writes[..|writes| - 1], f)
  }

  /** The write at index `i` is the last one to `f`. */
  predicate LastWriteTo(writes: seq<Write>, f: string, i: int) {
    0 <= i < |writes| && RouteDir(writes[i].route) == Some(f)
    && forall j :: i < j < |writes| ==> RouteDir(writes[j].route) != Some(f)
  }

  /** `LastPage` finds the last write to `f`. */
  lemma {:induction false} LastPageIsLastWrite(writes: seq<Write>, f: string, i: int)
    requires LastWriteTo(writes, f, i)
    ensures LastPage(writes, f) == Some(writes[i].page)
  {
    var n := |writes| - 1;
    LastPageStep(writes, f);
    if i < n {
      var init := writes[..n];
      assert RouteDir(writes[n].route) != Some(f);
      assert init[i] == writes[i];
      assert LastWriteTo(init, f, i) by {
        forall j | i < j < |init| ensures RouteDir(init[j].route) != Some(f) {
          assert init[j] == writes[j];
        }
      }
      LastPageIsLastWrite(init, f, i);
    }
  }

  /** `LastPage` finds nothing only when no write targets `f`. */
  lemma {:induction false} LastPageNone(writes: seq<Write>, f: string, i: int)
    requires LastPage(writes, f).None? && 0 <= i < |writes|
    ensures RouteDir(writes[i].route) != Some(f)
  {
    var n := |writes| - 1;
    var init := writes[..n];
    LastPageStep(writes, f);
    if i < n {
      assert init[i] == writes[i];
      LastPageNone(init, f, i);
    }
  }

  /** One step of `LastPage`: the last write decides, or the writes before it do. */
  lemma LastPageStep(writes: seq<Write>, f: string)
    requires writes != []
    ensures var last := writes[|writes| - 1];
      LastPage(writes, f) == if RouteDir(last.route) == Some(f) then Some(last.page) else LastPage(writes[..|writes| - 1], f)
  {
  }

  /**
   * The final tree of a run that did not stop: a file written at least once
   * holds the rendering of the page of its last write; every other file is
   * left as it was, and no other file appears.
   */
  lemma {:induction false} ApplyWritesContents(files: Files, writes: seq<Write>, render: Page -> Result<string>, f: string)
    requires !ApplyWrites(Run(files, false), writes, render).aborted
    ensures var r := ApplyWrites(Run(files, false), writes, render).files;
      && (f in r <==> f in files || LastPage(writes, f).Some?)
      && (LastPage(writes, f).Some? ==> f in r && render(LastPage(writes, f).value) == Success(r[f]))
      && (LastPage(writes, f).None? && f in files ==> r[f] == files[f])
  {
    if writes != [] {
      var n := |writes| - 1;
      var init := writes[..n];
      var before := ApplyWrites(Run(files, false), init, render);
      assert !before.aborted;
      ApplyWritesContents(files, init, render, f);
      var html := render(writes[n].page).value;
      StoredContents(before.files, writes[n].route, html, f);
    }
  }

  /** The output directory `dist/`, as the `index.html` pages written under it. */
  class OutputDir {
    var files: Files

    constructor (initial: Files)
      ensures files == initial
    {
      files := initial;
    }

    /** `write_route`: store `html` as the route's `index.html`, unless the route is the root. */
    method WriteRoute(route: string, html: string)
      modifies this
      ensures files == Stored(old(files), route, html)
    {
      var path := RouteDir(route);
      if path.Some? {
        files := files[path.value := html];
      }
    }

    /** Render one page and write it, unless the rendering raises: one iteration of a phase. */
    method WritePage(w: Write, render: Page -> Result<string>) returns (html: Result<string>)
      modifies this
      ensures html == render(w.page)
      ensures Run(files, html.Failure?) == ApplyWrites(Run(old(files), false), [w], render)
    {
      html := render(w.page);
      if html.Success? {
        WriteRoute(w.route, html.value);
      }
      assert [w][..0] == [];
    }

    /** Write a page again under its short-link route, reusing the html already rendered for it. */
    method WriteAlias(ghost before: Files, w: Write, prefix: string, code: string, html: string,
                      render: Page -> Result<string>)
      modifies this
      requires render(w.page) == Success(html)
      requires Run(files, false) == ApplyWrites(Run(before, false), [w], render)
      ensures Run(files, false) == ApplyWrites(Run(before, false), WithAlias(w, prefix, code), render)
    {
      if code != "" {
        WriteRoute(prefix + code, html);
        var ws := WithAlias(w, prefix, code);
        assert ws[..1] == [w];
      } else {
        assert WithAlias(w, prefix, code) == [w];
      }
    }

    /**
     * Render and write a page, then its short-link copy when there is a
     * code; `ok` is false when the rendering raised, and `n` counts the
     * files written.
     */
    method WriteWithAlias(w: Write, prefix: string, code: string, render: Page -> Result<string>)
      returns (ok: bool, n: nat)
      modifies this
      ensures Run(files, !ok) == ApplyWrites(Run(old(files), false), WithAlias(w, prefix, code), render)
      ensures ok <==> render(w.page).Success?
      ensures ok ==> n == |WithAlias(w, prefix, code)| && (n == 2 <==> code != "")
    {
      ghost var before := files;
      var html := WritePage(w, render);
      if html.Failure? {
        var ws := WithAlias(w, prefix, code);
        assert [] + [w] + ws[1..] == ws;
        AbortAt(Run(before, false), [], [w], ws[1..], render);
        return false, 0;
      }
      WriteAlias(before, w, prefix, code, html.value, render);
      ok := true;
      n := if code != "" then 2 else 1;
    }

    /** Phase 1: the clubs index page. */
    method WriteIndex(render: Page -> Result<string>, count: nat) returns (ok: bool, count': nat)
      modifies this
      ensures Run(files, !ok) == ApplyWrites(Run(old(files), false), [Write("/clubs", ClubsIndexPage())], render)
      ensures ok ==> count' == count + 1
    {
      var html := WritePage(Write("/clubs", ClubsIndexPage()), render);
      ok := html.Success?;
      count' := count + 1;
    }

    /** Phase 2: one page per city. */
    method WriteCities(cities: seq<string>, render: Page -> Result<string>, count: nat)
      returns (ok: bool, count': nat)
      modifies this
      ensures Run(files, !ok) == ApplyWrites(Run(old(files), false), CityWrites(cities), render)
      ensures ok ==> count' == count + |cities|
    {
      ghost var start := Run(files, false);
      ghost var all := CityWrites(cities);
      count' := count;
      for i := 0 to |cities|
        invariant Run(files, false) == ApplyWrites(start, all[..i], render)
        invariant count' == count + i
      {
        var w := Write("/clubs/" + CityPageSlug(cities[i]), CityPage(cities[i]));
        var html := WritePage(w, render);
        CityWritesStep(cities, i);
        ApplyWritesAppend(start, all[..i], [w], render);
        if html.Failure? {
          assert all[..i] + [w] + all[i + 1..] == all;
          AbortAt(start, all[..i], [w], all[i + 1..], render);
          return false, count';
        }
        count' := count' + 1;
      }
      SliceAll(all);
      ok := true;
    }

    /** One iteration of phase 3. */
    method WriteClub(c: Club, shortCode: ShortCodes, render: Page -> Result<string>) returns (ok: bool, n: nat)
      modifies this
      ensures Run(files, !ok) == ApplyWrites(Run(old(files), false), ClubWrite(c, shortCode), render)
      ensures ok ==> n == |ClubWrite(c, shortCode)|
    {
      var citySlug := GetCitySlug(c.location.GetOr(DefaultLocation));
      var w := Write("/clubs/" + citySlug + "/" + c.id, ClubPage(c));
      var code := shortCode("club", c.id);
      ok, n := WriteWithAlias(w, "/c/", code, render);
    }

    /** Phase 3: one page per club, each followed by its `/c/` copy when the club got a short-link code. */
    method WriteClubs(clubs: seq<Club>, shortCode: ShortCodes, render: Page -> Result<string>,
                      count: nat) returns (ok: bool, count': nat)
      modifies this
      ensures Run(files, !ok) == ApplyWrites(Run(old(files), false), ClubWrites(clubs, shortCode), render)
      ensures ok ==> count' == count + |ClubWrites(clubs, shortCode)|
    {
      ghost var start := Run(files, false);
      count' := count;
      assert clubs[..0] == [];
      for i := 0 to |clubs|
        invariant Run(files, false) == ApplyWrites(start, ClubWrites(clubs[..i], shortCode), render)
        invariant count' == count + |ClubWrites(clubs[..i], shortCode)|
      {
        var written, n := WriteClub(clubs[i], shortCode, render);
        ClubWritesStep(clubs, shortCode, i);
        ApplyWritesAppend(start, ClubWrites(clubs[..i], shortCode), ClubWrite(clubs[i], shortCode), render);
        if !written {
          var rest := ClubWritesSplit(clubs, shortCode, i + 1);
          AbortAt(start, ClubWrites(clubs[..i], shortCode), ClubWrite(clubs[i], shortCode), rest, render);
          return false, count';
        }
        count' := count' + n;
      }
      assert clubs[..|clubs|] == clubs;
      ok := true;
    }

    /**
     * Phase 4: one page per event, each followed by its `/e/` copy when the
     * event got a short-link code; `shortlinkCount` counts those copies.
     */
    method WriteEvents(events: seq<Event>, shortCode: ShortCodes, render: Page -> Result<string>,
                       count: nat) returns (ok: bool, count': nat, shortlinkCount: nat)
      modifies this
      ensures Run(files, !ok) == ApplyWrites(Run(old(files), false), EventWrites(events, shortCode), render)
      ensures ok ==> count' == count + |EventWrites(events, shortCode)|
      ensures ok ==> shortlinkCount == CodeCount("event", EventIds(events), shortCode)
    {
      ghost var start := Run(files, false);
      count', shortlinkCount := count, 0;
      assert events[..0] == [];
      for i := 0 to |events|
        invariant Run(files, false) == ApplyWrites(start, EventWrites(events[..i], shortCode), render)
        invariant count' == count + |EventWrites(events[..i], shortCode)|
        invariant shortlinkCount == CodeCount("event", EventIds(events[..i]), shortCode)
      {
        var written;
        written, count', shortlinkCount := WriteEventAt(start, count, events, i, shortCode, render, count', shortlinkCount);
        if !written {
          return false, count', shortlinkCount;
        }
      }
      assert events[..|events|] == events;
      ok := true;
    }

    /** The body of the event loop: event `i` is written and counted, or its rendering raises and the phase ends. */
    method WriteEventAt(ghost start: Run, ghost count: nat, events: seq<Event>, i: nat, shortCode: ShortCodes,
                        render: Page -> Result<string>, written: nat, coded: nat)
      returns (ok: bool, written': nat, coded': nat)
      modifies this
      requires i < |events|
      requires Run(files, false) == ApplyWrites(start, EventWrites(events[..i], shortCode), render)
      requires written == count + |EventWrites(events[..i], shortCode)|
      requires coded == CodeCount("event", EventIds(events[..i]), shortCode)
      ensures !ok ==> Run(files, true) == ApplyWrites(start, EventWrites(events, shortCode), render)
      ensures ok ==> Run(files, false) == ApplyWrites(start, EventWrites(events[..i + 1], shortCode), render)
      ensures ok ==> written' == count + |EventWrites(events[..i + 1], shortCode)|
      ensures ok ==> coded' == CodeCount("event", EventIds(events[..i + 1]), shortCode)
    {
      var n, hasCode;
      ok, n, hasCode := WriteEvent(events[i], shortCode, render);
      written' := written + n;
      coded' := if hasCode then coded + 1 else coded;
      EventWritesStep(events, shortCode, i);
      ApplyWritesAppend(start, EventWrites(events[..i], shortCode), EventWrite(events[i], shortCode), render);
      if !ok {
        var rest := EventWritesSplit(events, shortCode, i + 1);
        AbortAt(start, EventWrites(events[..i], shortCode), EventWrite(events[i], shortCode), rest, render);
      }
    }

    /** One event's page and, when it got a short-link code, its `/e/` copy. */
    method WriteEvent(e: Event, shortCode: ShortCodes, render: Page -> Result<string>)
      returns (ok: bool, n: nat, coded: bool)
      modifies this
      ensures Run(files, !ok) == ApplyWrites(Run(old(files), false), EventWrite(e, shortCode), render)
      ensures ok ==> n == |EventWrite(e, shortCode)|
      ensures coded <==> shortCode("event", e.id) != ""
    {
      var w := Write("/events/" + e.id, EventPage(e));
      var code := shortCode("event", e.id);
      ok, n := WriteWithAlias(w, "/e/", code, render);
      coded := code != "";
    }

    /** Phase 5: one page per key of the promoter map, in its insertion order. */
    method WritePromoters(keys: seq<string>, m: map<string, Promoter>, render: Page -> Result<string>, count: nat)
      returns (ok: bool, count': nat)
      modifies this
      requires forall k :: k in keys ==> k in m
      ensures Run(files, !ok) == ApplyWrites(Run(old(files), false), PromoterWrites(keys, m), render)
      ensures ok ==> count' == count + |keys|
    {
      ghost var start := Run(files, false);
      count' := count;
      for i := 0 to |keys|
        invariant Run(files, false) == ApplyWrites(start, PromoterWrites(keys[..i], m), render)
        invariant count' == count + i
      {
        var pid := keys[i];
        var w := Write("/promoters/" + pid, PromoterPage(pid, m[pid]));
        var html := WritePage(w, render);
        PromoterWritesStep(keys, m, i);
        ApplyWritesAppend(start, PromoterWrites(keys[..i], m), [w], render);
        if html.Failure? {
          var rest := PromoterWritesSplit(keys, m, i + 1);
          AbortAt(start, PromoterWrites(keys[..i], m), [w], rest, render);
          return false, count';
        }
        count' := count' + 1;
      }
      SliceAll(keys);
      ok := true;
    }
  }

  lemma SplitAt<T>(s: seq<T>, k: nat)
    requires k < |s|
    ensures s[..k] + [s[k]] + s[k + 1..] == s
  {
  }

  lemma SliceAll<T>(s: seq<T>)
    ensures s[..|s|] == s
  {
  }

  lemma CityWritesStep(cities: seq<string>, i: nat)
    requires i < |cities|
    ensures CityWrites(cities)[..i + 1]
         == CityWrites(cities)[..i] + [Write("/clubs/" + CityPageSlug(cities[i]), CityPage(cities[i]))]
  {
  }

  lemma ClubWritesStep(clubs: seq<Club>, shortCode: ShortCodes, i: nat)
    requires i < |clubs|
    ensures ClubWrites(clubs[..i + 1], shortCode)
         == ClubWrites(clubs[..i], shortCode) + ClubWrite(clubs[i], shortCode)
  {
    assert clubs[..i + 1][..i] == clubs[..i];
  }

  /** The writes for the first `j` clubs come first among the writes for all of them. */
  lemma ClubWritesSplit(clubs: seq<Club>, shortCode: ShortCodes, j: nat) returns (rest: seq<Write>)
    requires j <= |clubs|
    ensures ClubWrites(clubs, shortCode) == ClubWrites(clubs[..j], shortCode) + rest
  {
    forall i | j <= i < |clubs|
      ensures ClubWrites(clubs[..i], shortCode) <= ClubWrites(clubs[..i + 1], shortCode)
    {
      ClubWritesStep(clubs, shortCode, i);
    }
    rest := GrowingSplit(clubs, j, cs => ClubWrites(cs, shortCode));
    SliceAll(clubs);
  }

  /**
   * When a list function only grows from each prefix of `xs` to the next,
   * its value on the first `j` elements starts its value on all of them.
   */
  lemma {:induction false} GrowingSplit<T>(xs: seq<T>, j: nat, g: seq<T> --> seq<Write>) returns (rest: seq<Write>)
    requires j <= |xs|
    requires forall i :: 0 <= i <= |xs| ==> g.requires(xs[..i])
    requires forall i :: j <= i < |xs| ==> g(xs[..i]) <= g(xs[..i + 1])
    ensures g(xs[..|xs|]) == g(xs[..j]) + rest
    decreases |xs| - j
  {
    if j == |xs| {
      rest := [];
    } else {
      var more := GrowingSplit(xs, j + 1, g);
      var a := g(xs[..j]);
      var b := g(xs[..j + 1]);
      assert b == a + b[|a|..];
      ConcatAssoc(a, b[|a|..], more);
      rest := b[|a|..] + more;
    }
  }

  lemma EventWritesStep(events: seq<Event>, shortCode: ShortCodes, i: nat)
    requires i < |events|
    ensures EventWrites(events[..i + 1], shortCode)
         == EventWrites(events[..i], shortCode) + EventWrite(events[i], shortCode)
    ensures CodeCount("event", EventIds(events[..i + 1]), shortCode)
         == CodeCount("event", EventIds(events[..i]), shortCode) + (if shortCode("event", events[i].id) != "" then 1 else 0)
  {
    assert events[..i + 1][..i] == events[..i];
    assert EventIds(events[..i + 1])[..i] == EventIds(events[..i]);
  }

  /** The writes for the first `j` events come first among the writes for all of them. */
  lemma EventWritesSplit(events: seq<Event>, shortCode: ShortCodes, j: nat) returns (rest: seq<Write>)
    requires j <= |events|
    ensures EventWrites(events, shortCode) == EventWrites(events[..j], shortCode) + rest
  {
    forall i | j <= i < |events|
      ensures EventWrites(events[..i], shortCode) <= EventWrites(events[..i + 1], shortCode)
    {
      EventWritesStep(events, shortCode, i);
    }
    rest := GrowingSplit(events, j, es => EventWrites(es, shortCode));
    SliceAll(events);
  }

  lemma PromoterWritesStep(keys: seq<string>, m: map<string, Promoter>, i: nat)
    requires forall k :: k in keys ==> k in m
    requires i < |keys|
    ensures PromoterWrites(keys[..i + 1], m)
         == PromoterWrites(keys[..i], m) + [Write("/promoters/" + keys[i], PromoterPage(keys[i], m[keys[i]]))]
  {
    assert keys[..i + 1][..i] == keys[..i];
  }

  /** The writes for the first `j` promoters come first among the writes for all of them. */
  lemma PromoterWritesSplit(keys: seq<string>, m: map<string, Promoter>, j: nat) returns (rest: seq<Write>)
    requires forall k :: k in keys ==> k in m
    requires j <= |keys|
    ensures PromoterWrites(keys, m) == PromoterWrites(keys[..j], m) + rest
  {
    var g := ks requires forall k :: k in ks ==> k in m => PromoterWrites(ks, m);
    forall i | 0 <= i <= |keys| ensures g.requires(keys[..i]) {
      assert forall k :: k in keys[..i] ==> k in keys;
    }
    forall i | j <= i < |keys| ensures g(keys[..i]) <= g(keys[..i + 1]) {
      PromoterWritesStep(keys, m, i);
    }
    rest := GrowingSplit(keys, j, g);
    SliceAll(keys);
  }

  /**
   * `main`, after the data is fetched: each page of `Plan` is rendered by
   * `inject_meta` into the built template and written, until a rendering
   * raises, which ends the script with the pages written so far; it raises
   * exactly when one of the plan's pages has a malformed replacement.
   * `count` is the number of pages written and `shortlinkCount` the number of
   * event short-link copies, both reported when the script completes.
   */
  method RunPrerender(out: OutputDir, template: string, clubs: seq<Club>, events: seq<Event>, shortCode: ShortCodes,
                      find: TagFinder, dumps: Json -> string)
    returns (ok: bool, count: nat, shortlinkCount: nat)
    modifies out
    ensures Run(out.files, !ok)
         == ApplyWrites(Run(old(out.files), false), Plan(clubs, events, shortCode), Renderer(template, find, dumps))
    ensures !ok <==> exists i :: 0 <= i < |Plan(clubs, events, shortCode)|
                              && Render(template, Plan(clubs, events, shortCode)[i].page, find, dumps).Failure?
    ensures ok ==> count == |Plan(clubs, events, shortCode)|
    ensures ok ==> shortlinkCount == CodeCount("event", EventIds(events), shortCode)
  {
    ghost var initial := out.files;
    var render := Renderer(template, find, dumps);
    ok, count, shortlinkCount := RunPhases(out, clubs, events, shortCode, render);
    RenderAbortIff(initial, Plan(clubs, events, shortCode), template, find, dumps);
  }

  /** The five phases of `main` with any page renderer, stopping at the first rendering that raises. */
  method RunPhases(out: OutputDir, clubs: seq<Club>, events: seq<Event>, shortCode: ShortCodes,
                   render: Page -> Result<string>)
    returns (ok: bool, count: nat, shortlinkCount: nat)
    modifies out
    ensures Run(out.files, !ok) == ApplyWrites(Run(old(out.files), false), Plan(clubs, events, shortCode), render)
    ensures ok ==> count == |Plan(clubs, events, shortCode)|
    ensures ok ==> shortlinkCount == CodeCount("event", EventIds(events), shortCode)
  {
    var keys, m := CollectPromoters(events, clubs);
    PromoterMapKeys(PromoterEntries(events, clubs));
    PlanParts(clubs, events, shortCode);
    ghost var s := Run(out.files, false);
    ghost var a := [Write("/clubs", ClubsIndexPage())];
    ghost var b := CityWrites(Cities());
    ghost var c := ClubWrites(clubs, shortCode);
    ghost var d := EventWrites(events, shortCode);
    ghost var e := PromoterWrites(keys, m);
    Regroup(a, b, c, d, e);
    shortlinkCount := 0;
    ghost var mid := out.files;
    ok, count := out.WriteIndex(render, 0);
    assert [] + a == a;
    if !ok {
      StopsIn(s, [], a, b + c + d + e, out.files, render);
      return;
    }
    mid := out.files;
    ok, count := out.WriteCities(Cities(), render, count);
    Continues(s, a, b, mid, out.files, !ok, render);
    if !ok {
      StopsIn(s, a, b, c + d + e, out.files, render);
      return;
    }
    mid := out.files;
    ok, count := out.WriteClubs(clubs, shortCode, render, count);
    Continues(s, a + b, c, mid, out.files, !ok, render);
    if !ok {
      StopsIn(s, a + b, c, d + e, out.files, render);
      return;
    }
    mid := out.files;
    ok, count, shortlinkCount := out.WriteEvents(events, shortCode, render, count);
    Continues(s, a + b + c, d, mid, out.files, !ok, render);
    if !ok {
      StopsIn(s, a + b + c, d, e, out.files, render);
      return;
    }
    mid := out.files;
    ok, count := out.WritePromoters(keys, m, render, count);
    Continues(s, a + b + c + d, e, mid, out.files, !ok, render);
  }

  /** Five lists of writes, grouped as the phases of `main` meet them. */
  lemma Regroup<T>(a: seq<T>, b: seq<T>, c: seq<T>, d: seq<T>, e: seq<T>)
    ensures a + b + c + d + e == [] + a + (b + c + d + e)
    ensures a + b + c + d + e == a + b + (c + d + e)
    ensures a + b + c + d + e == a + b + c + (d + e)
  {
  }

  /** A phase that runs the writes `x` after those of `pre`: together they are the writes of `pre + x`. */
  lemma Continues(s: Run, pre: seq<Write>, x: seq<Write>, mid: Files, after: Files, stopped: bool,
                  render: Page -> Result<string>)
    requires Run(mid, false) == ApplyWrites(s, pre, render)
    requires Run(after, stopped) == ApplyWrites(Run(mid, false), x, render)
    ensures Run(after, stopped) == ApplyWrites(s, pre + x, render)
  {
    ApplyWritesAppend(s, pre, x, render);
  }

  /** A phase that stops the script: the writes after it, `post`, do not happen. */
  lemma StopsIn(s: Run, pre: seq<Write>, x: seq<Write>, post: seq<Write>, after: Files, render: Page -> Result<string>)
    requires Run(after, true) == ApplyWrites(s, pre + x, render)
    ensures Run(after, true) == ApplyWrites(s, pre + x + post, render)
  {
    AbortedExtends(s, pre + x, post, render);
  }
}
