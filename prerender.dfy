/**
 * The pure helpers of the prerender script (scripts/prerender.py): the HTML
 * attribute escaper, the city-slug deriver, the route-path normaliser of
 * `write_route`, and the metadata injector `inject_meta`.
 *
 * `inject_meta` replaces the first match of a fixed regular expression per
 * tag. The regular-expression engine is not modelled: a `TagFinder` gives the
 * span of the first match of a tag's pattern in a string, and `json.dumps`
 * is a serialiser `dumps` passed in. The replacement strings are parsed as
 * `re.sub` parses them, escapes and errors included.
 */
module Prerender {
  import opened Wrappers
  import opened Text
  import opened Entities
  import opened Domain

  const SiteUrl := "https://clubin.co.in"
  const OgImage := "https://clubin.co.in/clubin-logo-og.png"
  /** The `i`-th of the nine cities with a listing page. */
  function CityName(i: int): string {
    match i
    case 0 => "Bengaluru"
    case 1 => "Delhi NCR"
    case 2 => "Goa"
    case 3 => "Mumbai"
    case 4 => "Pune"
    case 5 => "Hyderabad"
    case 6 => "Chandigarh"
    case 7 => "Jaipur"
    case _ => "Chennai"
  }

  /**
   * `CITIES`, in order. Written as a comprehension rather than a display so
   * that the verifier looks up a city only where one is asked for.
   */
  function Cities(): seq<string> { seq(9, i => CityName(i)) }

  // ---------------------------------------------------------------- esc

  /** The four replacements of `esc`, as (character, entity) pairs. */
  const HtmlTable: Table := [('&', "&amp;"), ('"', "&quot;"), ('<', "&lt;"), ('>', "&gt;")]

  lemma HtmlTableGood()
    ensures GoodTable(HtmlTable)
  {
    assert HtmlTable[0].0 == '&';
    HtmlEntitiesSpelled();
    HtmlEntriesDistinct();
    NoKeyInsideEntities(HtmlTable);
  }

  lemma HtmlEntitiesSpelled()
    ensures forall i :: 0 <= i < |HtmlTable| ==> EntityShaped(HtmlTable[i].1)
    ensures forall i, k :: 0 <= i < |HtmlTable| && 0 < k < |HtmlTable[i].1| ==> EntityNameChar(HtmlTable[i].1[k])
  {
    LetterEntity("&amp;");
    LetterEntity("&quot;");
    LetterEntity("&lt;");
    LetterEntity("&gt;");
  }

  lemma HtmlEntriesDistinct()
    ensures forall i, j :: 0 <= i < j < |HtmlTable| ==> HtmlTable[i].0 != HtmlTable[j].0 && HtmlTable[i].1 != HtmlTable[j].1
  {
  }

  /** `esc`: `&` is replaced first, then `"`, `<` and `>`. */
  function Esc(s: string): string {
    ReplaceChar(ReplaceChar(ReplaceChar(ReplaceChar(s, '&', "&amp;"), '"', "&quot;"), '<', "&lt;"), '>', "&gt;")
  }

  /**
   * The escaped text has no raw `"`, `<` or `>`, every `&` in it starts one
   * of the four entities, and decoding the entities gives the input back.
   */
  lemma EscSpec(s: string)
    ensures '"' !in Esc(s) && '<' !in Esc(s) && '>' !in Esc(s)
    ensures AmpsStartEntities(Esc(s), HtmlTable)
    ensures Decode(Esc(s), HtmlTable) == s
  {
    EscIsEntityEscape(s);
    HtmlTableGood();
    EscapeCharsSafe(s, HtmlTable);
    DecodeEscapeChars(s, HtmlTable);
    NoRawSpecials(Esc(s));
  }

  lemma NoRawSpecials(r: string)
    requires OnlyAmpRaw(r, HtmlTable)
    ensures '"' !in r && '<' !in r && '>' !in r
  {
    assert IsKey('"', HtmlTable) && IsKey('<', HtmlTable) && IsKey('>', HtmlTable) by {
      assert HtmlTable[1].0 == '"' && HtmlTable[2].0 == '<' && HtmlTable[3].0 == '>';
    }
  }

  /** The chain of four `str.replace` calls escapes character by character. */
  lemma {:induction false} EscIsEntityEscape(s: string)
    ensures ReplaceChar(ReplaceChar(ReplaceChar(ReplaceChar(s, '&', "&amp;"), '"', "&quot;"), '<', "&lt;"), '>', "&gt;")
         == EscapeChars(s, HtmlTable)
  {
    if s != [] {
      var c, rest := s[0], s[1..];
      assert s == [c] + rest;
      var a1 := ReplaceChar([c], '&', "&amp;");
      var b1 := ReplaceChar(rest, '&', "&amp;");
      ReplaceCharConcat([c], rest, '&', "&amp;");
      var a2 := ReplaceChar(a1, '"', "&quot;");
      var b2 := ReplaceChar(b1, '"', "&quot;");
      ReplaceCharConcat(a1, b1, '"', "&quot;");
      var a3 := ReplaceChar(a2, '<', "&lt;");
      var b3 := ReplaceChar(b2, '<', "&lt;");
      ReplaceCharConcat(a2, b2, '<', "&lt;");
      ReplaceCharConcat(a3, b3, '>', "&gt;");
      EscIsEntityEscape(rest);
      SingleCharEsc(c);
    }
  }

  lemma ReplaceCharSingle(c: char, x: char, rep: string)
    ensures ReplaceChar([c], x, rep) == if c == x then rep else [c]
  {
    assert [c][1..] == [];
  }

  lemma EntityOfHtml(c: char)
    ensures EntityOf(c, HtmlTable) ==
      if c == '&' then "&amp;" else if c == '"' then "&quot;" else if c == '<' then "&lt;"
      else if c == '>' then "&gt;" else [c]
  {
    var t0 := HtmlTable;
    var t1 := [('"', "&quot;"), ('<', "&lt;"), ('>', "&gt;")];
    var t2 := [('<', "&lt;"), ('>', "&gt;")];
    var t3 := [('>', "&gt;")];
    assert t0[1..] == t1 && t1[1..] == t2 && t2[1..] == t3 && t3[1..] == [];
    assert EntityOf(c, t3) == if c == '>' then "&gt;" else EntityOf(c, []);
    assert EntityOf(c, t2) == if c == '<' then "&lt;" else EntityOf(c, t3);
    assert EntityOf(c, t1) == if c == '"' then "&quot;" else EntityOf(c, t2);
    assert EntityOf(c, t0) == if c == '&' then "&amp;" else EntityOf(c, t1);
  }

  lemma SingleCharEsc(c: char)
    ensures ReplaceChar(ReplaceChar(ReplaceChar(ReplaceChar([c], '&', "&amp;"), '"', "&quot;"), '<', "&lt;"), '>', "&gt;")
         == EntityOf(c, HtmlTable)
  {
    EntityOfHtml(c);
    ReplaceCharSingle(c, '&', "&amp;");
    if c == '&' {
      assert '"' !in "&amp;" && '<' !in "&amp;" && '>' !in "&amp;";
    } else {
      ReplaceCharSingle(c, '"', "&quot;");
      if c == '"' {
        assert '<' !in "&quot;" && '>' !in "&quot;";
      } else {
        ReplaceCharSingle(c, '<', "&lt;");
        if c == '<' {
          assert '>' !in "&lt;";
        } else {
          ReplaceCharSingle(c, '>', "&gt;");
        }
      }
    }
  }

  // ---------------------------------------------------------------- get_city_slug

  /** `location.split(',')[-1].strip()`: the trimmed last comma-separated segment. */
  function CitySegment(location: string): (r: string)
    ensures ',' !in r
    ensures r != [] ==> !IsSpace(r[0]) && !IsSpace(r[|r| - 1])
  {
    AfterLastSpec(location, ',');
    TrimSpec(AfterLast(location, ','), IsSpace);
    Trim(AfterLast(location, ','), IsSpace)
  }

  /** The slug of a city page: `city.lower().replace(' ', '-')`. */
  function CityPageSlug(city: string): string {
    ReplaceChar(Lower(city), ' ', "-")
  }

  /**
   * The slug `get_city_slug` returns for `location`: its city segment,
   * lowercased, with spaces turned into `-`; it has no space and no comma.
   */
  function LocationSlug(location: string): (r: string)
    ensures ' ' !in r && ',' !in r
  {
    SlugHasNoComma(CitySegment(location));
    CityPageSlug(CitySegment(location))
  }

  /**
   * `get_city_slug`: the search over `CITIES`. Its result is `LocationSlug`
   * whatever the table holds (`SlugAmong`).
   */
  method GetCitySlug(location: string) returns (slug: string)
    ensures slug == LocationSlug(location)
  {
    slug := SlugAmong(Cities(), location);
  }

  /**
   * The loop of `get_city_slug` over a table of known cities: it returns the
   * slug of the first city equal to the segment ignoring case; after the loop
   * the segment's own slug is returned with commas removed. Both give
   * `LocationSlug`, because the match ignores case and the segment has no
   * comma.
   */
  method SlugAmong(cities: seq<string>, location: string) returns (slug: string)
    ensures slug == LocationSlug(location)
  {
    var city := CitySegment(location);
    var i := 0;
    while i < |cities|
      invariant i <= |cities|
      invariant forall k :: 0 <= k < i ==> !SameIgnoringCase(cities[k], city)
    {
      var known := cities[i];
      if Lower(known) == Lower(city) {
        SameSlugWhenSameLower(known, city);
        return CityPageSlug(known);
      }
      i := i + 1;
    }
    SlugHasNoComma(city);
    slug := ReplaceChar(CityPageSlug(city), ',', "");
  }

  /** The test `get_city_slug` makes against each known city. */
  predicate SameIgnoringCase(a: string, b: string) {
    Lower(a) == Lower(b)
  }

  lemma SlugHasNoComma(city: string)
    requires ',' !in city
    ensures ',' !in CityPageSlug(city) && ' ' !in CityPageSlug(city)
  {
    LowerKeepsNonLetter(city, ',');
  }

  lemma SameSlugWhenSameLower(a: string, b: string)
    requires Lower(a) == Lower(b)
    ensures CityPageSlug(a) == CityPageSlug(b)
  {
  }

  lemma TrimOneSpace(c: string)
    requires c != [] && !IsSpace(c[0]) && !IsSpace(c[|c| - 1])
    ensures Trim(" " + c, IsSpace) == c
  {
    assert (" " + c)[1..] == c;
    assert TrimLeft(" " + c, IsSpace) == TrimLeft(c, IsSpace);
  }

  /** A location "area, City" with a known City links to that city's page. */
  lemma CitySlugOfKnownCity(area: string, i: nat)
    requires i < |Cities()|
    ensures LocationSlug(area + ", " + Cities()[i]) == CityPageSlug(Cities()[i])
  {
    var c := Cities()[i];
    assert ',' !in c && c != [] && !IsSpace(c[0]) && !IsSpace(c[|c| - 1]) by {
      assert c == CityName(i);
      if i == 0 {} else if i == 1 {} else if i == 2 {} else if i == 3 {} else if i == 4 {}
      else if i == 5 {} else if i == 6 {} else if i == 7 {} else {}
    }
    assert area + ", " + c == area + [','] + (" " + c);
    AfterLastSplit(area, ',', " " + c);
    TrimOneSpace(c);
  }

  lemma BengaluruPageSlug()
    ensures CityPageSlug("Bengaluru") == "bengaluru"
  {
    LowerBengaluru();
    NoSpaceInBengaluru();
  }

  lemma LowerBengaluru()
    ensures Lower("Bengaluru") == "bengaluru"
  {
  }

  lemma NoSpaceInBengaluru()
    ensures ' ' !in "bengaluru"
  {
  }

  /** For instance "Malleshwaram, Bengaluru" gives "bengaluru". */
  lemma BengaluruSlug(area: string)
    ensures LocationSlug(area + ", " + Cities()[0]) == "bengaluru"
  {
    CitySlugOfKnownCity(area, 0);
    assert Cities()[0] == "Bengaluru";
    BengaluruPageSlug();
  }

  // ---------------------------------------------------------------- write_route

  predicate IsSlash(c: char) {
    c == '/'
  }

  /** The parts of `s` between its slashes, as `s.split('/')` gives them: one more than there are slashes. */
  function SplitSlash(s: string): (r: seq<string>)
    ensures |r| >= 1
  {
    if s == [] then [""]
    else
      var rest := SplitSlash(s[1..]);
      if s[0] == '/' then [""] + rest else [[s[0]] + rest[0]] + rest[1..]
  }

  /** The parts joined by single slashes, as `'/'.join(parts)`. */
  function JoinSlash(parts: seq<string>): string {
    if parts == [] then ""
    else if |parts| == 1 then parts[0]
    else parts[0] + "/" + JoinSlash(parts[1..])
  }

  /** A part `pathlib` keeps: it drops empty parts (doubled slashes) and `.`. */
  predicate KeptPart(p: string) {
    p != "" && p != "."
  }

  /**
   * The relative path `pathlib` makes of `s`: its kept parts joined by single
   * slashes. A `..` part is kept, as `pathlib` keeps it.
   */
  function NormalPath(s: string): string {
    JoinSlash(Filter(SplitSlash(s), KeptPart))
  }

  /** A path `pathlib` leaves as it is: empty, or parts that are all kept. */
  predicate Normal(d: string) {
    d == "" || forall p :: p in SplitSlash(d) ==> KeptPart(p)
  }

  /**
   * The directory `write_route` writes into, relative to the output
   * directory: nothing for a route of slashes only (the site root, whose
   * `index.html` the build already made); otherwise the route with every
   * leading and trailing `/` stripped, as `pathlib` spells it once joined to
   * the output directory. A route such as `/./` passes the test and names the
   * output directory itself.
   */
  function RouteDir(routePath: string): Option<string> {
    var clean := Trim(routePath, IsSlash);
    if clean == [] then None else Some(NormalPath(clean))
  }

  /** The file written in a route's directory. */
  function IndexFile(dir: string): string {
    if dir == "" then "index.html" else dir + "/index.html"
  }

  /**
   * Only a route made of slashes writes nothing; any other route writes the
   * `index.html` of a directory that `pathlib` would not change further: no
   * empty part, so no leading, trailing or doubled slash, and no `.` part.
   */
  lemma RouteDirShape(routePath: string)
    ensures RouteDir(routePath).None? <==> forall i :: 0 <= i < |routePath| ==> routePath[i] == '/'
    ensures RouteDir(routePath).Some? ==> Normal(RouteDir(routePath).value)
    ensures RouteDir(routePath).Some? ==>
      var f := IndexFile(RouteDir(routePath).value);
      |f| >= 10 && f[|f| - 10..] == "index.html"
  {
    var clean := Trim(routePath, IsSlash);
    RouteDirNone(routePath);
    if clean != [] {
      assert RouteDir(routePath) == Some(NormalPath(clean));
      NormalPathIsNormal(clean);
      IndexFileEnds(NormalPath(clean));
    }
  }

  /** `write_route` skips exactly the routes made of slashes. */
  lemma RouteDirNone(routePath: string)
    ensures RouteDir(routePath).None? <==> forall i :: 0 <= i < |routePath| ==> routePath[i] == '/'
  {
    TrimSpec(routePath, IsSlash);
    assert forall i :: 0 <= i < |routePath| ==> (IsSlash(routePath[i]) <==> routePath[i] == '/');
  }

  /** Every written file is an `index.html`. */
  lemma IndexFileEnds(dir: string)
    ensures var f := IndexFile(dir); |f| >= 10 && f[|f| - 10..] == "index.html"
  {
    var f := IndexFile(dir);
    if dir != "" {
      assert f == dir + "/index.html";
      assert f[|f| - 10..] == "index.html";
    }
  }

  /** No part of a split contains a slash. */
  lemma {:induction false} SplitSlashParts(s: string)
    ensures forall p :: p in SplitSlash(s) ==> '/' !in p
  {
    if s != [] {
      SplitSlashParts(s[1..]);
      var rest := SplitSlash(s[1..]);
      if s[0] != '/' {
        assert forall p :: p in rest[1..] ==> p in rest;
        assert '/' !in [s[0]] + rest[0] by {
          assert rest[0] in rest;
        }
      }
    }
  }

  /** The split of a part without slashes is that part. */
  lemma {:induction false} SplitSlashOfPart(p: string)
    requires '/' !in p
    ensures SplitSlash(p) == [p]
  {
    if p != [] {
      assert p[1..] == [] || p[1..][0] in p;
      if p[1..] != [] {
        assert forall c :: c in p[1..] ==> c in p;
      }
      SplitSlashOfPart(p[1..]);
      assert [p[0]] + p[1..] == p;
    }
  }

  /** Splitting at a slash splits both sides: `(a + '/' + b).split('/') == a.split('/') + b.split('/')`. */
  lemma {:induction false} SplitSlashAround(a: string, b: string)
    ensures SplitSlash(a + "/" + b) == SplitSlash(a) + SplitSlash(b)
  {
    if a == [] {
      assert a + "/" + b == "/" + b;
      assert ("/" + b)[1..] == b;
    } else {
      assert (a + "/" + b)[1..] == a[1..] + "/" + b;
      SplitSlashAround(a[1..], b);
    }
  }

  /** Joining parts without slashes and splitting again gives the parts back. */
  lemma {:induction false} SplitJoin(parts: seq<string>)
    requires parts != []
    requires forall p :: p in parts ==> '/' !in p
    ensures SplitSlash(JoinSlash(parts)) == parts
    decreases |parts|
  {
    SplitSlashOfPart(parts[0]);
    if |parts| > 1 {
      assert forall p :: p in parts[1..] ==> p in parts;
      SplitJoin(parts[1..]);
      SplitSlashAround(parts[0], JoinSlash(parts[1..]));
      assert parts == [parts[0]] + parts[1..];
    }
  }

  /** `pathlib`'s spelling is already normal. */
  lemma NormalPathIsNormal(s: string)
    ensures Normal(NormalPath(s))
  {
    var kept := Filter(SplitSlash(s), KeptPart);
    if kept != [] {
      SplitSlashParts(s);
      SplitJoin(kept);
    }
  }

  /** A normal path is its own spelling. */
  lemma NormalPathOfNormal(d: string)
    requires Normal(d)
    ensures NormalPath(d) == d
  {
    if d == "" {
      assert SplitSlash(d) == [""];
    } else {
      var parts := SplitSlash(d);
      FilterAll(parts, KeptPart);
      SplitSlashParts(d);
      JoinSplit(d);
    }
  }

  /** Splitting and joining again gives the string back. */
  lemma {:induction false} JoinSplit(s: string)
    ensures JoinSlash(SplitSlash(s)) == s
  {
    if s != [] {
      JoinSplit(s[1..]);
      var rest := SplitSlash(s[1..]);
      if s[0] == '/' {
        assert ([""] + rest)[1..] == rest;
        assert s == "" + "/" + s[1..];
      } else if |rest| == 1 {
        assert s == [s[0]] + rest[0];
      } else {
        var r := [[s[0]] + rest[0]] + rest[1..];
        assert r[1..] == rest[1..];
        assert JoinSlash(rest) == rest[0] + "/" + JoinSlash(rest[1..]);
        assert s == [s[0]] + s[1..];
      }
    }
  }

  /**
   * Any number of leading and trailing slashes is ignored, and a normal path
   * is written where it says: "/clubs/goa", "clubs/goa" and "/clubs/goa/" all
   * write "clubs/goa/index.html".
   */
  lemma RouteDirStripsSlashes(lead: string, path: string, trail: string)
    requires forall i :: 0 <= i < |lead| ==> lead[i] == '/'
    requires forall i :: 0 <= i < |trail| ==> trail[i] == '/'
    requires path != [] && path[0] != '/' && path[|path| - 1] != '/' && Normal(path)
    ensures RouteDir(lead + path + trail) == Some(path)
  {
    TrimAround(lead, path, trail, IsSlash);
    NormalPathOfNormal(path);
  }

  /**
   * A doubled slash inside a route names the same directory as a single one:
   * `pathlib` drops the empty part between them, so "/clubs//goa" writes
   * "clubs/goa/index.html", as "/clubs/goa" does.
   */
  lemma DoubledSlashSameDir(a: string, b: string)
    requires a != [] && a[0] != '/' && b != [] && b[|b| - 1] != '/'
    ensures RouteDir("/" + a + "//" + b) == RouteDir("/" + a + "/" + b)
  {
    assert "/" + a + "//" + b == "/" + (a + "//" + b) + "";
    assert "/" + a + "/" + b == "/" + (a + "/" + b) + "";
    TrimAround("/", a + "//" + b, "", IsSlash);
    TrimAround("/", a + "/" + b, "", IsSlash);
    assert a + "//" + b == a + "/" + ("/" + b);
    SplitSlashAround(a, "/" + b);
    SplitSlashAround(a, b);
    SplitSlashAround("", b);
    assert "" + "/" + b == "/" + b;
    FilterAppend(SplitSlash(a), SplitSlash("/" + b), KeptPart);
    FilterAppend([""], SplitSlash(b), KeptPart);
    FilterAppend(SplitSlash(a), SplitSlash(b), KeptPart);
    assert SplitSlash("") == [""];
    assert Filter([""], KeptPart) == [];
    assert Filter(SplitSlash("/" + b), KeptPart) == Filter(SplitSlash(b), KeptPart);
  }

  // ---------------------------------------------------------------- inject_meta

  /** The tags `inject_meta` rewrites, one regular expression each. */
  datatype Tag =
    | TitleTag | DescriptionTag
    | OgTitleTag | OgDescriptionTag | OgUrlTag | OgImageTag | OgImageWidthTag | OgImageHeightTag
    | TwitterTitleTag | TwitterDescriptionTag | TwitterUrlTag | TwitterImageTag
    | CanonicalTag

  datatype Span = Span(start: nat, end: nat)

  predicate InBounds(m: Option<Span>, html: string) {
    m.Some? ==> m.value.start <= m.value.end <= |html|
  }

  /**
   * The first match of a tag's pattern in a string (what `re.sub(..., count=1)`
   * replaces), as a span of that string.
   */
  type TagFinder = f: (Tag, string) -> Option<Span> | forall t, html :: InBounds(f(t, html), html)
    witness (t: Tag, html: string) => None

  // ---------------------------------------------------------------- re.sub replacement strings

  /**
   * A piece of a parsed `re.sub` replacement string: literal text, or the
   * whole match (`\g<0>`). None of the tag patterns has a group, so no other
   * group reference is valid.
   */
  datatype Piece = Chars(s: string) | WholeMatch

  predicate IsOctDigit(c: char) {
    '0' <= c <= '7'
  }

  predicate IsAsciiLetter(c: char) {
    'a' <= c <= 'z' || 'A' <= c <= 'Z'
  }

  /** The escapes of one character a replacement may use: `\a \b \f \n \r \t \v \\`. */
  predicate IsCharEscape(c: char) {
    c == 'a' || c == 'b' || c == 'f' || c == 'n' || c == 'r' || c == 't' || c == 'v' || c == '\\'
  }

  function EscapedChar(c: char): char
    requires IsCharEscape(c)
  {
    match c
    case 'a' => 7 as char
    case 'b' => 8 as char
    case 'f' => 12 as char
    case 'n' => '\n'
    case 'r' => '\r'
    case 't' => '\t'
    case 'v' => 11 as char
    case _ => '\\'
  }

  function OctDigitValue(c: char): nat
    requires IsOctDigit(c)
  {
    c as int - '0' as int
  }

  /** The character of the octal number written by the first `n` characters of `s`, which start with 0 to 3. */
  function OctalChar(s: string, n: nat): char
    requires 1 <= n <= 3 && n <= |s|
    requires forall i :: 0 <= i < n ==> IsOctDigit(s[i])
    requires s[0] <= '3'
  {
    var v := if n == 1 then OctDigitValue(s[0])
      else if n == 2 then 8 * OctDigitValue(s[0]) + OctDigitValue(s[1])
      else 64 * OctDigitValue(s[0]) + 8 * OctDigitValue(s[1]) + OctDigitValue(s[2]);
    v as char
  }

  /** A group name standing for group 0: decimal digits, all zero. */
  predicate NamesGroupZero(name: string) {
    name != [] && forall i :: 0 <= i < |name| ==> name[i] == '0'
  }

  /**
   * `\g<...>`, given the text after the `g`: the whole match for a name that
   * is the number 0; every other name or number refers to a group the
   * pattern does not have, and an unclosed or empty name is malformed. The
   * number of characters taken comes with the piece.
   */
  function GroupEscape(s: string): (r: Result<(Piece, int)>)
    ensures r.Success? ==> 2 <= r.value.1 <= |s|
  {
    if s == [] || s[0] != '<' then Failure("missing <")
    else
      match BeforeGt(s[1..])
      case None => Failure("missing >, unterminated name")
      case Some(name) =>
        if name == [] then Failure("missing group name")
        else if NamesGroupZero(name) then Success((WholeMatch, |name| + 2))
        else Failure("invalid group reference")
  }

  /** The text before the first `>` of `s`, when there is one. */
  function BeforeGt(s: string): (r: Option<string>)
    ensures r.Some? ==> |r.value| < |s|
  {
    if s == [] then None
    else if s[0] == '>' then Some("")
    else
      match BeforeGt(s[1..])
      case None => None
      case Some(name) => Some([s[0]] + name)
  }

  /**
   * The escape that follows a backslash in a replacement string, given the
   * text after the backslash: the piece it stands for and how many
   * characters it takes, or the error `re` raises for it. Octal escapes are
   * `\0` with up to two more octal digits, and three octal digits up to
   * `\377`; any other digit escape is a reference to a group the pattern
   * does not have. An escape of an ASCII letter that is not one of the
   * character escapes is an error; any other character keeps its backslash.
   */
  function Escape(s: string): (r: Result<(Piece, int)>)
    requires s != []
    ensures r.Success? ==> 1 <= r.value.1 <= |s|
  {
    var c := s[0];
    if c == 'g' then
      match GroupEscape(s[1..])
      case Failure(e) => Failure(e)
      case Success((p, n)) => Success((p, n + 1))
    else if c == '0' then
      var n := if |s| >= 2 && IsOctDigit(s[1]) then (if |s| >= 3 && IsOctDigit(s[2]) then 3 else 2) else 1;
      Success((Chars([OctalChar(s, n)]), n))
    else if '1' <= c <= '9' then
      if c <= '3' && |s| >= 3 && IsOctDigit(s[1]) && IsOctDigit(s[2]) then Success((Chars([OctalChar(s, 3)]), 3))
      else Failure("invalid group reference or octal escape out of range")
    else if IsCharEscape(c) then Success((Chars([EscapedChar(c)]), 1))
    else if IsAsciiLetter(c) then Failure("bad escape")
    else Success((Chars(['\\', c]), 1))
  }

  function Then(p: Piece, rest: Result<seq<Piece>>): Result<seq<Piece>> {
    match rest
    case Failure(e) => Failure(e)
    case Success(ps) => Success([p] + ps)
  }

  /**
   * The first piece of a non-empty replacement string and how many
   * characters it takes: one literal character, or an escape with its
   * backslash; a trailing lone backslash is an error.
   */
  function Step(repl: string): (r: Result<(Piece, int)>)
    requires repl != []
    ensures r.Success? ==> 1 <= r.value.1 <= |repl|
  {
    if repl[0] != '\\' then Success((Chars([repl[0]]), 1))
    else if |repl| == 1 then Failure("bad escape (end of pattern)")
    else
      match Escape(repl[1..])
      case Failure(e) => Failure(e)
      case Success((p, n)) => Success((p, n + 1))
  }

  /**
   * How `re.sub` parses a replacement string, before it searches: its
   * pieces in order, or the error it raises, which ends the script.
   */
  function Template(repl: string): Result<seq<Piece>>
    decreases |repl|
  {
    if repl == [] then Success([])
    else
      match Step(repl)
      case Failure(e) => Failure(e)
      case Success((p, n)) => Then(p, Template(repl[n..]))
  }

  /** The text a parsed replacement stands for, given the text it replaces. */
  function Expand(pieces: seq<Piece>, matched: string): string {
    if pieces == [] then ""
    else (match pieces[0] case Chars(s) => s case WholeMatch => matched) + Expand(pieces[1..], matched)
  }

  /** A replacement starting with any character but a backslash parses it as itself, ahead of the rest. */
  lemma TemplateLiteralHead(repl: string)
    requires repl != [] && repl[0] != '\\'
    ensures Template(repl) == Then(Chars([repl[0]]), Template(repl[1..]))
  {
    assert Step(repl) == Success((Chars([repl[0]]), 1));
  }

  /** Expanding a literal piece ahead of more pieces puts its text first. */
  lemma ExpandLiteralHead(c: char, ps: seq<Piece>, matched: string)
    ensures Expand([Chars([c])] + ps, matched) == [c] + Expand(ps, matched)
  {
    assert ([Chars([c])] + ps)[1..] == ps;
  }

  /** A replacement without a backslash is parsed into itself, whatever it replaces. */
  lemma {:induction false} TemplateLiteral(repl: string, matched: string)
    requires '\\' !in repl
    ensures Template(repl).Success? && Expand(Template(repl).value, matched) == repl
    decreases |repl|
  {
    if repl != [] {
      assert forall c :: c in repl[1..] ==> c in repl;
      TemplateLiteral(repl[1..], matched);
      TemplateLiteralHead(repl);
      ExpandLiteralHead(repl[0], Template(repl[1..]).value, matched);
      assert repl == [repl[0]] + repl[1..];
    }
  }

  /** A piece put ahead of a parse: the parse succeeds as before, with the piece first. */
  lemma ThenSpec(p: Piece, rest: Result<seq<Piece>>)
    ensures Then(p, rest).Success? <==> rest.Success?
    ensures rest.Success? ==> Then(p, rest).value == [p] + rest.value
  {
  }

  /** A literal prefix parses into itself, ahead of the rest. */
  lemma {:induction false} TemplatePrefix(pre: string, rest: string, matched: string)
    requires '\\' !in pre
    ensures Template(pre + rest).Success? <==> Template(rest).Success?
    ensures Template(rest).Success? ==> Expand(Template(pre + rest).value, matched) == pre + Expand(Template(rest).value, matched)
    decreases |pre|
  {
    if pre == [] {
      assert pre + rest == rest;
    } else {
      var s := pre + rest;
      var t := pre[1..] + rest;
      assert s[0] == pre[0] && s[1..] == t;
      assert forall c :: c in pre[1..] ==> c in pre;
      TemplatePrefix(pre[1..], rest, matched);
      TemplateLiteralHead(s);
      ThenSpec(Chars([pre[0]]), Template(t));
      if Template(rest).Success? {
        ExpandLiteralHead(pre[0], Template(t).value, matched);
        ConcatAssoc([pre[0]], pre[1..], Expand(Template(rest).value, matched));
        assert pre == [pre[0]] + pre[1..];
      }
    }
  }

  /**
   * What the escapes stand for: `\n` is a line feed, `\\` one backslash,
   * `\g<0>` the matched text, `\<` stays as written; `\d` (as in `C:\dev`),
   * a group reference and a trailing backslash raise.
   */
  lemma TemplateNewline(matched: string)
    ensures Template("a\\nb").Success? && Expand(Template("a\\nb").value, matched) == "a\nb"
  {
    assert "a\\nb"[1..] == "\\nb";
    assert "\\nb"[2..] == "b";
    assert Escape("nb") == Success((Chars("\n"), 1));
    assert "b"[1..] == "";
    assert Template("") == Success([]);
    assert [Chars("b")] + [] == [Chars("b")];
    assert Step("b") == Success((Chars("b"), 1));
    assert Template("b") == Success([Chars("b")]);
    assert Step("\\nb") == Success((Chars("\n"), 2));
    assert [Chars("\n")] + [Chars("b")] == [Chars("\n"), Chars("b")];
    assert Template("\\nb") == Success([Chars("\n"), Chars("b")]);
    assert [Chars("a")] + [Chars("\n"), Chars("b")] == [Chars("a"), Chars("\n"), Chars("b")];
    assert Template("a\\nb") == Success([Chars("a"), Chars("\n"), Chars("b")]);
    assert [Chars("a"), Chars("\n"), Chars("b")][1..] == [Chars("\n"), Chars("b")];
    assert [Chars("\n"), Chars("b")][1..] == [Chars("b")];
    assert Expand([Chars("b")], matched) == "b";
    assert Expand([Chars("\n"), Chars("b")], matched) == "\nb";
  }

  lemma TemplateBackslash(matched: string)
    ensures Template("\\\\").Success? && Expand(Template("\\\\").value, matched) == "\\"
  {
  }

  lemma TemplateWholeMatch(matched: string)
    ensures Template("\\g<0>").Success? && Expand(Template("\\g<0>").value, matched) == matched
  {
    assert Find(">", ">") == Some(0) by {
      assert OccursAt(">", ">", 0);
    }
  }

  lemma TemplateKeepsOtherEscape(matched: string)
    ensures Template("\\<").Success? && Expand(Template("\\<").value, matched) == "\\<"
  {
  }

  lemma TemplateBadLetterEscape()
    ensures Template("C:\\dev").Failure?
  {
    assert "C:\\dev"[1..] == ":\\dev";
    assert ":\\dev"[1..] == "\\dev";
    assert Escape("dev").Failure?;
    assert Template("\\dev").Failure?;
    assert Template(":\\dev").Failure?;
  }

  lemma TemplateGroupReference()
    ensures Template("\\1").Failure?
  {
  }

  lemma TemplateTrailingBackslash()
    ensures Template("a\\").Failure?
  {
    assert "a\\"[1..] == "\\";
  }

  /**
   * One `re.sub(..., count=1)`: the replacement string is parsed first, and
   * a malformed one raises whether or not the pattern matches; otherwise the
   * first match, if any, is replaced by the replacement's expansion for the
   * matched text, and all text before and after it is kept.
   */
  function SubFirst(html: string, m: Option<Span>, replacement: string): (r: Result<string>)
    requires InBounds(m, html)
    ensures r.Success? <==> Template(replacement).Success?
    ensures r.Success? && m.None? ==> r.value == html
    ensures r.Success? && m.Some? ==>
      var Span(a, b) := m.value;
      var e := Expand(Template(replacement).value, html[a..b]);
      && |r.value| == a + |e| + (|html| - b)
      && r.value[..a] == html[..a]
      && r.value[a..a + |e|] == e
      && r.value[a + |e|..] == html[b..]
  {
    match Template(replacement)
    case Failure(err) => Failure(err)
    case Success(pieces) =>
      match m
      case None => Success(html)
      case Some(Span(a, b)) => Success(html[..a] + Expand(pieces, html[a..b]) + html[b..])
  }

  /** A replacement without a backslash never raises and goes in as it is written. */
  lemma SubFirstLiteral(html: string, m: Option<Span>, replacement: string)
    requires InBounds(m, html) && '\\' !in replacement
    ensures SubFirst(html, m, replacement).Success?
    ensures m.Some? ==>
      SubFirst(html, m, replacement).value == html[..m.value.start] + replacement + html[m.value.end..]
  {
    if m.Some? {
      TemplateLiteral(replacement, html[m.value.start..m.value.end]);
    } else {
      TemplateLiteral(replacement, "");
    }
  }

  /** Python truthiness of an optional string argument. */
  predicate Given(o: Option<string>) {
    o.Some? && o.value != ""
  }

  /** What `inject_meta` writes before a tag's escaped value. */
  function TagOpen(tag: Tag): string {
    match tag
    case TitleTag => "<title>"
    case CanonicalTag => "<link rel=\"canonical\" href=\""
    case _ => "<meta " + MetaAttribute(tag) + "=\"" + MetaName(tag) + "\" content=\""
  }

  /** Whether a meta tag is named by `property` (Open Graph) or by `name`. */
  function MetaAttribute(tag: Tag): string {
    match tag
    case OgTitleTag | OgDescriptionTag | OgUrlTag | OgImageTag | OgImageWidthTag | OgImageHeightTag => "property"
    case _ => "name"
  }

  function MetaName(tag: Tag): string {
    match tag
    case DescriptionTag => "description"
    case OgTitleTag => "og:title"
    case OgDescriptionTag => "og:description"
    case OgUrlTag => "og:url"
    case OgImageTag => "og:image"
    case OgImageWidthTag => "og:image:width"
    case OgImageHeightTag => "og:image:height"
    case TwitterTitleTag => "twitter:title"
    case TwitterDescriptionTag => "twitter:description"
    case TwitterUrlTag => "twitter:url"
    case TwitterImageTag => "twitter:image"
    case _ => ""
  }

  /** What `inject_meta` writes after a tag's escaped value. */
  function TagClose(tag: Tag): string {
    match tag
    case TitleTag => "</title>"
    case _ => "\" />"
  }

  /**
   * The element text or attribute `inject_meta` writes for a tag carrying the
   * value `v`: the value escaped between the tag's opening and closing text;
   * nothing for the og:image dimension tags, which it removes.
   */
  function TagText(tag: Tag, v: string): string {
    if IsDimensionTag(tag) then "" else TagOpen(tag) + Esc(v) + TagClose(tag)
  }

  /** The fixed text around each value holds no backslash, so only the value can make a replacement malformed. */
  lemma TagFrameLiteral(tag: Tag)
    ensures '\\' !in TagOpen(tag) && '\\' !in TagClose(tag)
  {
    TagClosePlain(tag);
    if tag != TitleTag && tag != CanonicalTag {
      var attribute, name := MetaAttribute(tag), MetaName(tag);
      MetaAttributePlain(tag);
      MetaNamePlain(tag);
      assert TagOpen(tag) == "<meta " + attribute + "=\"" + name + "\" content=\"";
    } else {
      assert TagOpen(tag) == "<title>" || TagOpen(tag) == "<link rel=\"canonical\" href=\"";
    }
  }

  /** The closing text of a tag holds no backslash. */
  lemma TagClosePlain(tag: Tag)
    ensures '\\' !in TagClose(tag)
  {
    if tag == TitleTag {
      assert TagClose(tag) == "</title>";
    } else {
      assert TagClose(tag) == "\" />";
    }
  }

  /** The attribute naming a meta tag holds no backslash. */
  lemma MetaAttributePlain(tag: Tag)
    ensures '\\' !in MetaAttribute(tag)
  {
    assert MetaAttribute(tag) == "property" || MetaAttribute(tag) == "name";
  }

  /** The name of a meta tag holds no backslash. */
  lemma MetaNamePlain(tag: Tag)
    ensures '\\' !in MetaName(tag)
  {
    match tag
    case DescriptionTag =>
    case OgTitleTag =>
    case OgDescriptionTag =>
    case OgUrlTag =>
    case OgImageTag =>
    case OgImageWidthTag =>
    case OgImageHeightTag =>
    case TwitterTitleTag =>
    case TwitterDescriptionTag =>
    case TwitterUrlTag =>
    case TwitterImageTag =>
    case TitleTag =>
    case CanonicalTag =>
  }

  /** Which of the four arguments a tag carries. */
  function TagValue(tag: Tag, title: string, description: string, image: Option<string>, url: Option<string>): string {
    match tag
    case TitleTag | OgTitleTag | TwitterTitleTag => title
    case DescriptionTag | OgDescriptionTag | TwitterDescriptionTag => description
    case OgUrlTag | TwitterUrlTag | CanonicalTag => url.GetOr("")
    case OgImageTag | OgImageWidthTag | OgImageHeightTag | TwitterImageTag => image.GetOr("")
  }

  datatype Edit = Edit(tag: Tag, replacement: string)

  /** Every tag, in the order `inject_meta` considers them. */
  const AllTags: seq<Tag> := [TitleTag, DescriptionTag, OgTitleTag, OgDescriptionTag, OgUrlTag,
    OgImageTag, OgImageWidthTag, OgImageHeightTag, TwitterTitleTag, TwitterDescriptionTag,
    TwitterUrlTag, TwitterImageTag, CanonicalTag]

  function TagRank(t: Tag): nat {
    match t
    case TitleTag => 0 case DescriptionTag => 1 case OgTitleTag => 2 case OgDescriptionTag => 3
    case OgUrlTag => 4 case OgImageTag => 5 case OgImageWidthTag => 6 case OgImageHeightTag => 7
    case TwitterTitleTag => 8 case TwitterDescriptionTag => 9 case TwitterUrlTag => 10
    case TwitterImageTag => 11 case CanonicalTag => 12
  }

  lemma AllTagsDistinct()
    ensures Distinct(AllTags)
    ensures forall t :: t in AllTags
  {
    forall i | 0 <= i < |AllTags| ensures TagRank(AllTags[i]) == i {
    }
    forall t ensures t in AllTags {
      assert AllTags[TagRank(t)] == t;
    }
  }

  /** A given image other than the default one: its dimensions are left for crawlers to detect. */
  predicate CustomImage(image: Option<string>) {
    Given(image) && image.value != OgImage
  }

  /** Whether `inject_meta` substitutes a tag, given its optional image and url arguments. */
  predicate Substituted(t: Tag, image: Option<string>, url: Option<string>) {
    match t
    case OgUrlTag | TwitterUrlTag | CanonicalTag => Given(url)
    case OgImageTag | TwitterImageTag => Given(image)
    case OgImageWidthTag | OgImageHeightTag => CustomImage(image)
    case _ => true
  }

  /**
   * The tags `inject_meta` substitutes, in its order: each tag at most
   * once, and exactly the tags `Substituted` selects.
   */
  function MetaTags(image: Option<string>, url: Option<string>): (r: seq<Tag>)
    ensures Distinct(r)
    ensures forall t :: t in r <==> Substituted(t, image, url)
  {
    AllTagsDistinct();
    Filter(AllTags, t => Substituted(t, image, url))
  }

  /** What `inject_meta` writes in place of a tag: its text carrying the matching argument. */
  function Replacement(t: Tag, title: string, description: string, image: Option<string>, url: Option<string>): string {
    TagText(t, TagValue(t, title, description, image, url))
  }

  /** One substitution per tag, in the order of `tags`, each writing the text `rep` gives for its tag. */
  function EditsFor(tags: seq<Tag>, rep: Tag -> string): (r: seq<Edit>)
    ensures |r| == |tags|
    ensures forall i :: 0 <= i < |r| ==> r[i] == Edit(tags[i], rep(tags[i]))
  {
    if tags == [] then []
    else [Edit(tags[0], rep(tags[0]))] + EditsFor(tags[1..], rep)
  }

  /**
   * The substitutions of `inject_meta`, in the order it performs them: one
   * per tag of `MetaTags`, each writing its tag with its value escaped (and
   * the og:image dimension tags removed).
   */
  function MetaEdits(title: string, description: string, image: Option<string>, url: Option<string>): seq<Edit> {
    EditsFor(MetaTags(image, url), t => Replacement(t, title, description, image, url))
  }

  /** The substitutions applied one after the other to the threaded html string, until one raises. */
  function ApplyEdits(html: string, edits: seq<Edit>, find: TagFinder): Result<string>
    decreases |edits|
  {
    if edits == [] then Success(html)
    else
      match SubFirst(html, find(edits[0].tag, html), edits[0].replacement)
      case Failure(e) => Failure(e)
      case Success(next) => ApplyEdits(next, edits[1..], find)
  }

  /** The substitutions raise exactly when one of their replacement strings is malformed, whatever the html and the matches. */
  lemma {:induction false} ApplyEditsFails(html: string, edits: seq<Edit>, find: TagFinder)
    ensures ApplyEdits(html, edits, find).Failure?
        <==> exists i :: 0 <= i < |edits| && Template(edits[i].replacement).Failure?
    decreases |edits|
  {
    if edits != [] {
      var r := SubFirst(html, find(edits[0].tag, html), edits[0].replacement);
      if r.Success? {
        ApplyEditsFails(r.value, edits[1..], find);
        if exists i :: 0 <= i < |edits| && Template(edits[i].replacement).Failure? {
          var i :| 0 <= i < |edits| && Template(edits[i].replacement).Failure?;
          assert edits[1..][i - 1] == edits[i];
        }
        if exists i :: 0 <= i < |edits[1..]| && Template(edits[1..][i].replacement).Failure? {
          var i :| 0 <= i < |edits[1..]| && Template(edits[1..][i].replacement).Failure?;
          assert edits[1..][i] == edits[i + 1];
        }
      }
    }
  }

  /** The result depends on the finder only at the tags that are substituted. */
  lemma {:induction false} ApplyEditsConsultsOnlyItsTags(html: string, edits: seq<Edit>, f: TagFinder, g: TagFinder)
    requires forall i, s :: 0 <= i < |edits| ==> f(edits[i].tag, s) == g(edits[i].tag, s)
    ensures ApplyEdits(html, edits, f) == ApplyEdits(html, edits, g)
    decreases |edits|
  {
    if edits != [] {
      var next := SubFirst(html, f(edits[0].tag, html), edits[0].replacement);
      assert f(edits[0].tag, html) == g(edits[0].tag, html);
      forall i, s | 0 <= i < |edits[1..]| ensures f(edits[1..][i].tag, s) == g(edits[1..][i].tag, s) {
        assert edits[1..][i] == edits[i + 1];
      }
      if SubFirst(html, f(edits[0].tag, html), edits[0].replacement).Success? {
        ApplyEditsConsultsOnlyItsTags(next.value, edits[1..], f, g);
      }
    }
  }

  /** `structured_data` as a list: nothing when falsy, a list as is, anything else as a one-element list. */
  function LdItems(sd: Json): (r: seq<Json>)
    ensures !Truthy(sd) ==> r == []
    ensures Truthy(sd) && sd.JArr? ==> r == sd.items && r != []
    ensures Truthy(sd) && !sd.JArr? ==> r == [sd]
  {
    if !Truthy(sd) then [] else if sd.JArr? then sd.items else [sd]
  }

  const LdOpen := "<script type=\"application/ld+json\">"

  function LdBlock(item: Json, dumps: Json -> string): string {
    LdOpen + dumps(item) + "</script>\n"
  }

  /** One script block per item, in list order. */
  function LdTags(items: seq<Json>, dumps: Json -> string): string {
    if items == [] then "" else LdTags(items[..|items| - 1], dumps) + LdBlock(items[|items| - 1], dumps)
  }

  /**
   * The JSON-LD splice: when there are items and the html has a `</head>`,
   * all blocks go immediately before the first `</head>` and nothing else
   * changes; otherwise the html is returned as it is.
   */
  function InsertLd(html: string, items: seq<Json>, dumps: Json -> string): (r: string)
    ensures items == [] || Find(html, "</head>").None? ==> r == html
    ensures items != [] && Find(html, "</head>").Some? ==>
      var k := Find(html, "</head>").value;
      k <= |html| && r == html[..k] + LdTags(items, dumps) + html[k..]
  {
    if items == [] then html
    else
      ReplaceFirstInserts(html, "</head>", LdTags(items, dumps));
      ReplaceFirst(html, "</head>", LdTags(items, dumps) + "</head>")
  }

  /** The JSON-LD splice after the substitutions, unless they raised. */
  function WithLd(tagged: Result<string>, items: seq<Json>, dumps: Json -> string): Result<string> {
    match tagged
    case Failure(e) => Failure(e)
    case Success(h) => Success(InsertLd(h, items, dumps))
  }

  /** `inject_meta`: the tag substitutions in order, then the JSON-LD splice; it raises when a substitution does. */
  function InjectMeta(html: string, title: string, description: string, image: Option<string>, url: Option<string>,
                      sd: Json, find: TagFinder, dumps: Json -> string): Result<string>
  {
    WithLd(ApplyEdits(html, MetaEdits(title, description, image, url), find), LdItems(sd), dumps)
  }

  /** The substitutions for `tags` hold a malformed replacement exactly when the text of one of the tags is malformed. */
  lemma EditsForFails(tags: seq<Tag>, rep: Tag -> string)
    ensures (exists i :: 0 <= i < |EditsFor(tags, rep)| && Template(EditsFor(tags, rep)[i].replacement).Failure?)
        ==> exists t :: t in tags && Template(rep(t)).Failure?
    ensures (exists t :: t in tags && Template(rep(t)).Failure?)
        ==> exists i :: 0 <= i < |EditsFor(tags, rep)| && Template(EditsFor(tags, rep)[i].replacement).Failure?
  {
    var edits := EditsFor(tags, rep);
    if exists i :: 0 <= i < |edits| && Template(edits[i].replacement).Failure? {
      var i :| 0 <= i < |edits| && Template(edits[i].replacement).Failure?;
      assert edits[i] == Edit(tags[i], rep(tags[i]));
      assert tags[i] in tags;
    }
    if exists t :: t in tags && Template(rep(t)).Failure? {
      var t :| t in tags && Template(rep(t)).Failure?;
      var i :| 0 <= i < |tags| && tags[i] == t;
      assert edits[i] == Edit(tags[i], rep(tags[i]));
    }
  }

  /** `inject_meta` raises exactly when the text it writes for one of the tags it substitutes is a malformed replacement. */
  lemma InjectMetaFails(html: string, title: string, description: string, image: Option<string>, url: Option<string>,
                        sd: Json, find: TagFinder, dumps: Json -> string)
    ensures InjectMeta(html, title, description, image, url, sd, find, dumps).Failure?
        <==> exists t :: Substituted(t, image, url) && Template(Replacement(t, title, description, image, url)).Failure?
  {
    var rep := t => Replacement(t, title, description, image, url);
    ApplyEditsFails(html, MetaEdits(title, description, image, url), find);
    EditsForFails(MetaTags(image, url), rep);
  }

  /** One substituted tag whose text is malformed is enough to make `inject_meta` raise. */
  lemma InjectMetaFailsAt(t: Tag, html: string, title: string, description: string, image: Option<string>,
                          url: Option<string>, sd: Json, find: TagFinder, dumps: Json -> string)
    requires Substituted(t, image, url) && Template(Replacement(t, title, description, image, url)).Failure?
    ensures InjectMeta(html, title, description, image, url, sd, find, dumps).Failure?
  {
    InjectMetaFails(html, title, description, image, url, sd, find, dumps);
  }

  /** Escaping adds no backslash. */
  lemma EscNoBackslash(s: string)
    requires '\\' !in s
    ensures '\\' !in Esc(s)
  {
    var a := ReplaceChar(s, '&', "&amp;");
    assert '\\' !in a;
    var b := ReplaceChar(a, '"', "&quot;");
    assert '\\' !in b;
    var c := ReplaceChar(b, '<', "&lt;");
    assert '\\' !in c;
    assert '\\' !in ReplaceChar(c, '>', "&gt;");
  }

  /** Values without a backslash never make `inject_meta` raise. */
  lemma InjectMetaWithoutBackslash(html: string, title: string, description: string, image: Option<string>,
                                   url: Option<string>, sd: Json, find: TagFinder, dumps: Json -> string)
    requires '\\' !in title && '\\' !in description && '\\' !in image.GetOr("") && '\\' !in url.GetOr("")
    ensures InjectMeta(html, title, description, image, url, sd, find, dumps).Success?
  {
    NoMalformedReplacement(title, description, image, url);
    InjectMetaFails(html, title, description, image, url, sd, find, dumps);
  }

  lemma NoMalformedReplacement(title: string, description: string, image: Option<string>, url: Option<string>)
    requires '\\' !in title && '\\' !in description && '\\' !in image.GetOr("") && '\\' !in url.GetOr("")
    ensures forall t :: Template(Replacement(t, title, description, image, url)).Success?
  {
    forall t ensures Template(Replacement(t, title, description, image, url)).Success? {
      ReplacementWithoutBackslash(t, title, description, image, url);
    }
  }

  lemma ReplacementWithoutBackslash(t: Tag, title: string, description: string, image: Option<string>, url: Option<string>)
    requires '\\' !in title && '\\' !in description && '\\' !in image.GetOr("") && '\\' !in url.GetOr("")
    ensures Template(Replacement(t, title, description, image, url)).Success?
  {
    var v := TagValue(t, title, description, image, url);
    if !IsDimensionTag(t) {
      EscNoBackslash(v);
      TagFrameLiteral(t);
      PlainTemplate(TagOpen(t), Esc(v), TagClose(t));
    } else {
      TemplateLiteral("", "");
    }
  }

  lemma PlainTemplate(a: string, b: string, c: string)
    requires '\\' !in a && '\\' !in b && '\\' !in c
    ensures Template(a + b + c).Success?
  {
    TemplateLiteral(a + b + c, "");
  }

  /** Text without the four special characters is not changed by escaping. */
  lemma EscPlain(s: string)
    requires '&' !in s && '"' !in s && '<' !in s && '>' !in s
    ensures Esc(s) == s
  {
    EscIsEntityEscape(s);
  }

  /** Escaping a concatenation escapes each side. */
  lemma EscConcat(a: string, b: string)
    ensures Esc(a + b) == Esc(a) + Esc(b)
  {
    ReplaceCharConcat(a, b, '&', "&amp;");
    var a1, b1 := ReplaceChar(a, '&', "&amp;"), ReplaceChar(b, '&', "&amp;");
    ReplaceCharConcat(a1, b1, '"', "&quot;");
    var a2, b2 := ReplaceChar(a1, '"', "&quot;"), ReplaceChar(b1, '"', "&quot;");
    ReplaceCharConcat(a2, b2, '<', "&lt;");
    var a3, b3 := ReplaceChar(a2, '<', "&lt;"), ReplaceChar(b2, '<', "&lt;");
    ReplaceCharConcat(a3, b3, '>', "&gt;");
  }

  /** A backslash before an ASCII letter that is neither a character escape nor `g` is a bad escape. */
  predicate BadLetterEscape(c: char) {
    IsAsciiLetter(c) && !IsCharEscape(c) && c != 'g'
  }

  /** A backslash before a letter that is no escape makes the whole replacement malformed. */
  lemma BadEscapeHead(c: char, rest: string)
    requires BadLetterEscape(c)
    ensures Template("\\" + [c] + rest).Failure?
  {
    var s := "\\" + [c] + rest;
    assert s[0] == '\\' && s[1..][0] == c;
  }

  /** The title tag's text: the escaped title between `<title>` and `</title>`. */
  lemma TitleText(title: string)
    ensures TagText(TitleTag, title) == TagOpen(TitleTag) + Esc(title) + TagClose(TitleTag)
  {
  }

  /** Escaping three consecutive parts. */
  lemma EscConcat3(a: string, b: string, c: string)
    ensures Esc(a + b + c) == Esc(a) + (Esc(b) + Esc(c))
  {
    assert a + b + c == a + (b + c);
    EscConcat(a, b + c);
    EscConcat(b, c);
  }

  /** A bad escape after text without a backslash makes the replacement malformed. */
  lemma MalformedAfterPlain(open: string, ePre: string, c: char, ePost: string, close: string)
    requires '\\' !in open && '\\' !in ePre && BadLetterEscape(c)
    ensures Template(open + (ePre + (("\\" + [c]) + ePost)) + close).Failure?
  {
    var bad := "\\" + [c];
    ConcatRegroup(open, ePre, bad, ePost, close);
    BadEscapeHead(c, ePost + close);
    TemplatePrefix(open + ePre, bad + (ePost + close), "");
  }

  /**
   * A title whose first backslash comes before a letter that is no escape,
   * such as `C:\dev`, makes `inject_meta` raise on every page, since the
   * title tag is always substituted.
   */
  lemma BadEscapeInTitleRaises(pre: string, c: char, post: string, html: string, description: string,
                               image: Option<string>, url: Option<string>, sd: Json, find: TagFinder, dumps: Json -> string)
    requires '\\' !in pre && BadLetterEscape(c)
    ensures InjectMeta(html, pre + "\\" + [c] + post, description, image, url, sd, find, dumps).Failure?
  {
    TitleTemplateFails(pre, c, post, description, image, url);
    InjectMetaFailsAt(TitleTag, html, pre + "\\" + [c] + post, description, image, url, sd, find, dumps);
  }

  /** The title tag's replacement text for such a title is a malformed template. */
  lemma TitleTemplateFails(pre: string, c: char, post: string, description: string,
                           image: Option<string>, url: Option<string>)
    requires '\\' !in pre && BadLetterEscape(c)
    ensures Template(Replacement(TitleTag, pre + "\\" + [c] + post, description, image, url)).Failure?
  {
    var bad := "\\" + [c];
    var title := pre + bad + post;
    assert pre + "\\" + [c] + post == title;
    EscBadEscape(c);
    EscAroundPlain(pre, bad, post);
    TagFrameLiteral(TitleTag);
    TitleText(title);
    assert Replacement(TitleTag, title, description, image, url) == TagText(TitleTag, title);
    MalformedAfterPlain(TagOpen(TitleTag), Esc(pre), c, Esc(post), TagClose(TitleTag));
  }

  /** Escaping leaves in place a middle part it does not change, with no backslash before it. */
  lemma EscAroundPlain(pre: string, mid: string, post: string)
    requires '\\' !in pre && Esc(mid) == mid
    ensures Esc(pre + mid + post) == Esc(pre) + (mid + Esc(post))
    ensures '\\' !in Esc(pre)
  {
    EscConcat3(pre, mid, post);
    EscNoBackslash(pre);
  }

  /** A backslash and a letter need no escaping. */
  lemma EscBadEscape(c: char)
    requires BadLetterEscape(c)
    ensures Esc("\\" + [c]) == "\\" + [c]
  {
    assert c != '&' && c != '"' && c != '<' && c != '>';
    var bad := "\\" + [c];
    assert forall x :: x in bad ==> x == '\\' || x == c;
    EscPlain(bad);
  }

  lemma ConcatRegroup(a: string, b: string, c: string, d: string, e: string)
    ensures a + (b + (c + d)) + e == (a + b) + (c + (d + e))
  {
  }

  /** `inject_meta` only ever looks for the tags it substitutes. */
  lemma InjectMetaConsultsOnlySubstituted(html: string, title: string, description: string, image: Option<string>,
                                          url: Option<string>, sd: Json, f: TagFinder, g: TagFinder, dumps: Json -> string)
    requires forall t, s :: Substituted(t, image, url) ==> f(t, s) == g(t, s)
    ensures InjectMeta(html, title, description, image, url, sd, f, dumps)
         == InjectMeta(html, title, description, image, url, sd, g, dumps)
  {
    var tags := MetaTags(image, url);
    var edits := MetaEdits(title, description, image, url);
    forall i, s | 0 <= i < |edits| ensures f(edits[i].tag, s) == g(edits[i].tag, s) {
      assert edits[i].tag == tags[i];
      assert tags[i] in tags;
    }
    ApplyEditsConsultsOnlyItsTags(html, edits, f, g);
  }

  predicate IsUrlTag(t: Tag) {
    t == OgUrlTag || t == TwitterUrlTag || t == CanonicalTag
  }

  predicate IsImageTag(t: Tag) {
    t == OgImageTag || t == TwitterImageTag || IsDimensionTag(t)
  }

  predicate IsDimensionTag(t: Tag) {
    t == OgImageWidthTag || t == OgImageHeightTag
  }

  /** Without a url, og:url, twitter:url and canonical are never searched for, so they stay as they are. */
  lemma UrlTagsUntouchedWithoutUrl(html: string, title: string, description: string, image: Option<string>,
                                   url: Option<string>, sd: Json, f: TagFinder, g: TagFinder, dumps: Json -> string)
    requires !Given(url)
    requires forall t, s :: !IsUrlTag(t) ==> f(t, s) == g(t, s)
    ensures InjectMeta(html, title, description, image, url, sd, f, dumps)
         == InjectMeta(html, title, description, image, url, sd, g, dumps)
  {
    InjectMetaConsultsOnlySubstituted(html, title, description, image, url, sd, f, g, dumps);
  }

  /** Without an image, the og:image, twitter:image and og:image dimension tags stay as they are. */
  lemma ImageTagsUntouchedWithoutImage(html: string, title: string, description: string, image: Option<string>,
                                       url: Option<string>, sd: Json, f: TagFinder, g: TagFinder, dumps: Json -> string)
    requires !Given(image)
    requires forall t, s :: !IsImageTag(t) ==> f(t, s) == g(t, s)
    ensures InjectMeta(html, title, description, image, url, sd, f, dumps)
         == InjectMeta(html, title, description, image, url, sd, g, dumps)
  {
    InjectMetaConsultsOnlySubstituted(html, title, description, image, url, sd, f, g, dumps);
  }

  /** With the default image, the og:image width and height tags stay as they are. */
  lemma DimensionsKeptForDefaultImage(html: string, title: string, description: string,
                                      url: Option<string>, sd: Json, f: TagFinder, g: TagFinder, dumps: Json -> string)
    requires forall t, s :: !IsDimensionTag(t) ==> f(t, s) == g(t, s)
    ensures InjectMeta(html, title, description, Some(OgImage), url, sd, f, dumps)
         == InjectMeta(html, title, description, Some(OgImage), url, sd, g, dumps)
  {
    InjectMetaConsultsOnlySubstituted(html, title, description, Some(OgImage), url, sd, f, g, dumps);
  }
}
