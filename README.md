# Clubin landing site: build scripts and page logic

Clubin is the public web site of a nightclub guest-list service. It is a
single-page React application served from static hosting. Two build
scripts make it crawlable:

- `scripts/prerender.py` writes one `index.html` per route. Each is a copy of
  the built template with the page's title, description, Open Graph,
  Twitter and canonical tags replaced, and JSON-LD structured data spliced
  in before `</head>`. It writes the clubs index, nine city pages, one page
  per club, event and promoter, and a short-link copy (`/c/<code>`,
  `/e/<code>`) for every club and event that gets a code. The tags are
  replaced with `re.sub`, which reads backslashes in the page's values as
  escapes; a malformed one raises and ends the script with the pages
  written so far.
- `scripts/generate-sitemap.mjs` lists the static, city, club, event and
  promoter URLs in `sitemap.xml` and bumps the version of the `Sitemap:`
  line in `robots.txt`.

Three pieces of page logic are modelled too:

- the city clubs page, which resolves `/clubs/:city` against the `CITIES`
  table and filters clubs by a search box;
- the club page, which splits a club's events into upcoming and past by
  comparing date strings with today's date, and sorts each list by date;
- the venue image slideshow, whose index is moved by arrows, dots, swipes
  and a timer, always through a wrap-around `goTo`.

The model is split into modules that follow the source files:

| module | file | models |
|---|---|---|
| `Wrappers` | wrappers.dfy | `Option` (Python's None, JavaScript's undefined) and `Result` (a value, or the error an operation raises) |
| `Text` | text.dfy | the string operations both scripts and the pages use (ASCII lowercasing, `replace`, `strip`/`trim`, `split`, `includes`, slicing, slugs, ordinal string order, `filter`, a `Set`'s insertion order) |
| `Entities` | entities.dfy | escaping by a (character, entity) table and its decoder, shared by `esc` and `escapeXml` |
| `Domain` | domain.dfy | the API records (clubs, events, promoters), JSON values, and the promoter references both scripts visit |
| `Prerender` | prerender.dfy | `esc`, `get_city_slug`, `write_route`'s path handling as `pathlib` spells it, the replacement strings `re.sub` parses, `inject_meta` |
| `PrerenderPages` | prerender_pages.dfy | the pages `main` builds, the promoter map, and the list of every write in order (`Plan`) |
| `PrerenderDriver` | prerender_driver.dfy | the output directory as a class, and `main`'s five write loops proved to perform exactly `Plan`, up to the first page whose rendering raises |
| `Sitemap` | sitemap.dfy | `generate-sitemap.mjs`: URL list, XML, robots.txt rewrite, logged counts |
| `ClubsList` | clubs_list.dfy | `ClubsListPage.tsx` lines 28-32 and 73-76 |
| `ClubDetail` | club_detail.dfy | `getTodayDateString` and the event partition and sorts of `ClubDetailPage.tsx` |
| `Slideshow` | slideshow.dfy | `VenueImageSlideshow.tsx` as a class holding the current index |

Parameters stand in for the outside world:

- the fetched clubs and events, and the short-link service (a function from
  (kind, id) to a code, "" for none);
- the regular-expression engine of `inject_meta` (a `TagFinder` giving the
  first match of a tag's pattern), and `json.dumps` (a serialiser);
- today's date, and the current `robots.txt` (None when the file does not
  exist);
- the local year, month and day the browser's clock reports.

## Model

| member | source | states |
|---|---|---|
| Text.Lower | scripts/prerender.py:37 | `lower()`: same length, each character lowercased by `LowerChar` (ASCII letters only) |
| Text.ReplaceChar | scripts/prerender.py:143 | `replace(c, rep)`: no `c` remains unless `rep` has one; every character comes from `s` (other than `c`) or from `rep`; text without `c` is unchanged |
| Text.ReplaceCharConcat | scripts/prerender.py:143 | replacing a character distributes over concatenation |
| Text.TrimLeftSpec | scripts/prerender.py:35 | the removed prefix is all dropped characters, and what is kept starts with a kept one |
| Text.TrimRightSpec | scripts/prerender.py:35 | the removed suffix is all dropped characters, and what is kept ends with a kept one |
| Text.TrimSpec | scripts/prerender.py:35 | `strip()`: no dropped character at either end; empty exactly when every character is dropped; characters only from the input |
| Text.TrimAround | scripts/prerender.py:35 | trimming a dropped prefix and suffix around a kept core gives back the core |
| Text.AfterLastSpec | scripts/prerender.py:34-35 | the last piece of `split(c)` is a suffix without `c`, and is either the whole string or follows a `c` |
| Text.AfterLastSplit | scripts/prerender.py:34-35 | the last piece of `a + c + b`, where `b` has no `c`, is `b` |
| Text.BeforeFirst | scripts/generate-sitemap.mjs:97 | `split(c)[0]` is a prefix without `c`, followed by `c` when it is shorter than the input |
| Text.BeforeFirstSplit | scripts/generate-sitemap.mjs:97 | the first piece of `a + c + b`, where `a` has no `c`, is `a` |
| Text.RemoveChar | scripts/generate-sitemap.mjs:149 | `replace(/c/g, '')`: no `c` remains; the result is no longer than the input and uses only its characters |
| Text.Take | scripts/prerender.py:280 | `s[:n]`: the prefix of `s` of length `min(n, len(s))` |
| Text.DashSpacesSpec | scripts/generate-sitemap.mjs:41 | `replace(/\s+/g, '-')`: no whitespace is left; every character is from the input or a `-`; text without whitespace is unchanged |
| Text.SlugifyLower | src/pages/ClubsListPage.tsx:29 | a slug has no upper-case letter, so lowercasing it again changes nothing |
| Text.SlugPrefix | src/pages/ClubsListPage.tsx:29 | a slug starts with the lowercased whitespace-free prefix of the name |
| Text.DashSpacesOfSingleSpaced | scripts/generate-sitemap.mjs:41 | where whitespace occurs only as single spaces, collapsing runs to `-` is replacing each space by `-` |
| Text.Find | scripts/prerender.py:136 | the index of the first occurrence of a pattern, or None when there is none |
| Text.ReplaceFirst | scripts/prerender.py:136 | `replace(pat, rep, 1)`: the text is unchanged when `pat` does not occur; otherwise only the first occurrence is replaced |
| Text.ReplaceFirstInserts | scripts/prerender.py:136 | replacing the first `pat` by `ins + pat` inserts `ins` just before it and changes nothing else |
| Text.ContainsEmpty | src/pages/ClubsListPage.tsx:74 | every string includes the empty string |
| Text.StrLtIffNotLe | src/pages/ClubDetailPage.tsx:152-156 | `a < b` exactly when not `b <= a`: the `<` and `>=` tests are complementary |
| Text.StrLeTotal | src/pages/ClubDetailPage.tsx:153 | ordinal string order is total |
| Text.StrLeTrans | src/pages/ClubDetailPage.tsx:153 | ordinal string order is transitive |
| Text.StrLeAntisym | src/pages/ClubDetailPage.tsx:153 | ordinal string order is antisymmetric |
| Text.Filter | src/pages/ClubsListPage.tsx:73 | `filter`: exactly the elements that pass, no more of them than in the input; distinct input gives distinct output |
| Text.FilterSublist | src/pages/ClubsListPage.tsx:73 | filtering keeps the kept elements in their original order |
| Text.FilterAll | src/pages/ClubsListPage.tsx:73 | a filter every element passes returns the whole list |
| Text.FilterCounts | src/pages/ClubDetailPage.tsx:151 | each element that passes keeps all its occurrences; every other element has none |
| Text.Dedup | scripts/generate-sitemap.mjs:53-56 | a `Set` in insertion order: the same members as the input, each once |
| Entities.EscapeCharsSafe | scripts/prerender.py:141-143 | for a well-formed table, escaped text has no raw special character other than `&`, and every `&` starts an entity |
| Entities.DecodeEscapeChars | scripts/prerender.py:141-143 | for a well-formed table, decoding escaped text gives the original text back |
| Entities.EntityPrefixUnique | scripts/generate-sitemap.mjs:23-30 | at most one entity can start a text, so decoding is unambiguous |
| Domain.EventPromoter | scripts/prerender.py:170-173 | an event contributes its `promoterRef` exactly when that has a truthy id, and nothing otherwise |
| Domain.PromoterClubsEntries | scripts/prerender.py:175-178 | a club contributes exactly the promoters in its `promoterClubs` that have a truthy id |
| Domain.EventPromotersMembers | scripts/prerender.py:170-173 | the promoters visited from events are exactly the truthy-id `promoterRef`s of some event |
| Domain.ClubPromotersMembers | scripts/prerender.py:174-178 | the promoters visited from clubs are exactly the truthy-id promoters in some club's `promoterClubs` |
| Domain.PromoterEntriesMembers | scripts/prerender.py:169-178 | a promoter is visited exactly when it has a truthy id and is referenced by some event or some club |
| Prerender.HtmlTableGood | scripts/prerender.py:143 | the four HTML replacements form a table the decoder can invert |
| Prerender.EscSpec | scripts/prerender.py:141-143 | `esc`: no raw `"`, `<` or `>`; every `&` starts one of the four entities; decoding gives the input back |
| Prerender.EscIsEntityEscape | scripts/prerender.py:143 | the chain of four `replace` calls, `&` first, equals escaping one character at a time |
| Prerender.CitySegment | scripts/prerender.py:34-35 | the trimmed last comma piece has no comma and no whitespace at either end |
| Prerender.LocationSlug | scripts/prerender.py:32-39 | a location slug has no space and no comma |
| Prerender.GetCitySlug | scripts/prerender.py:32-39 | searching `CITIES` returns `LocationSlug` of the location |
| Prerender.SlugAmong | scripts/prerender.py:32-39 | the loop returns `LocationSlug` for any table of known cities, whether a city matches ignoring case (its slug is the segment's) or none does (the comma removal changes nothing); the loop keeps that no city passed over matches |
| Prerender.SameSlugWhenSameLower | scripts/prerender.py:37-38 | names equal ignoring case have the same page slug, so the known-city branch adds nothing but the canonical spelling |
| Prerender.CitySlugOfKnownCity | scripts/prerender.py:32-39 | a location "area, City" with a known City gives that city's page slug |
| Prerender.BengaluruSlug | scripts/prerender.py:33 | any location `<area>, Bengaluru` gives the slug "bengaluru" |
| Prerender.RouteDirShape | scripts/prerender.py:149-155 | only a route made of slashes writes nothing; any other route writes the `index.html` of a directory with no empty and no `.` part, as `pathlib` spells it |
| Prerender.RouteDirStripsSlashes | scripts/prerender.py:149-152 | any number of leading and trailing slashes is ignored, and a path without empty or `.` parts is written where it says |
| Prerender.DoubledSlashSameDir | scripts/prerender.py:149-152 | a doubled slash inside a route names the same directory as a single one |
| Prerender.NormalPathIsNormal | scripts/prerender.py:152 | `pathlib`'s spelling of a path has no empty and no `.` part |
| Prerender.NormalPathOfNormal | scripts/prerender.py:152 | a path without empty or `.` parts is spelled as it is |
| Prerender.SplitJoin | scripts/prerender.py:152 | joining slash-free parts with `/` and splitting again gives the parts back |
| Prerender.JoinSplit | scripts/prerender.py:152 | splitting at `/` and joining again gives the string back |
| Prerender.SplitSlashAround | scripts/prerender.py:152 | splitting at `/` splits each side of a slash |
| Prerender.TemplateLiteral | scripts/prerender.py:96 | a replacement string without a backslash parses into itself, whatever it replaces |
| Prerender.TemplatePrefix | scripts/prerender.py:96 | a backslash-free prefix parses into itself and leaves the parse of the rest, and its errors, as they are |
| Prerender.TemplateNewline | scripts/prerender.py:96 | `a\nb`, with a backslash and an `n`, expands to `a`, a newline, `b` |
| Prerender.TemplateBackslash | scripts/prerender.py:96 | two backslashes expand to one |
| Prerender.TemplateWholeMatch | scripts/prerender.py:96 | `\g<0>` expands to the matched text |
| Prerender.TemplateKeepsOtherEscape | scripts/prerender.py:96 | a backslash before a character that is neither a letter nor a digit is kept, as in `\<` |
| Prerender.TemplateBadLetterEscape | scripts/prerender.py:96 | `C:\dev` is malformed, because `\d` is a bad escape |
| Prerender.TemplateGroupReference | scripts/prerender.py:96 | `\1` refers to a group the pattern does not have, and is malformed |
| Prerender.TemplateTrailingBackslash | scripts/prerender.py:96 | a trailing lone backslash is malformed |
| Prerender.SubFirst | scripts/prerender.py:96 | `re.sub(..., count=1)`: raises exactly when the replacement string is malformed, match or no match; no match leaves the text; a match is replaced by the replacement's expansion for the matched text, and the text around it is kept |
| Prerender.SubFirstLiteral | scripts/prerender.py:96 | a replacement without a backslash never raises and is inserted as written in place of the match |
| Prerender.MetaTags | scripts/prerender.py:95-127 | each tag is substituted at most once, and exactly the tags selected by the `url`, `image` and default-image tests |
| Prerender.EditsFor | scripts/prerender.py:95-127 | one substitution per tag, in order, each with the replacement text given for that tag |
| Prerender.TagFrameLiteral | scripts/prerender.py:96-127 | the fixed text around each substituted value holds no backslash |
| Prerender.EditsForFails | scripts/prerender.py:95-127 | the substitutions hold a malformed replacement exactly when the text of one of their tags is malformed |
| Prerender.ApplyEditsFails | scripts/prerender.py:95-127 | the substitutions in order raise exactly when one of their replacement strings is malformed, whatever the html and the matches |
| Prerender.ApplyEditsConsultsOnlyItsTags | scripts/prerender.py:95-127 | the result depends on the regex engine only at the tags substituted |
| Prerender.LdItems | scripts/prerender.py:130-131 | falsy structured data gives no items; a list is kept as is; anything else becomes a one-item list |
| Prerender.InsertLd | scripts/prerender.py:130-136 | with items and a `</head>`, all script blocks go right before the first `</head>` and nothing else changes; otherwise the html is unchanged |
| Prerender.InjectMetaConsultsOnlySubstituted | scripts/prerender.py:90-138 | `inject_meta` only ever searches for the tags it substitutes |
| Prerender.InjectMetaFails | scripts/prerender.py:90-138 | `inject_meta` raises exactly when the text of one of the tags it substitutes is malformed |
| Prerender.InjectMetaFailsAt | scripts/prerender.py:90-138 | one substituted tag with a malformed text makes `inject_meta` raise |
| Prerender.EscNoBackslash | scripts/prerender.py:141-143 | `esc` adds no backslash (and removes none: a backslash passes through it) |
| Prerender.InjectMetaWithoutBackslash | scripts/prerender.py:90-138 | values without a backslash never make `inject_meta` raise |
| Prerender.BadEscapeInTitleRaises | scripts/prerender.py:96 | a title holding a backslash before an ASCII letter that is not an escape, such as `C:\dev`, makes `inject_meta` raise |
| Prerender.UrlTagsUntouchedWithoutUrl | scripts/prerender.py:108-109 | without a url, og:url, twitter:url and canonical are left as they are |
| Prerender.ImageTagsUntouchedWithoutImage | scripts/prerender.py:110-115 | without an image, the og:image, twitter:image and dimension tags are left as they are |
| Prerender.DimensionsKeptForDefaultImage | scripts/prerender.py:113-115 | with the default image, the og:image width and height tags are kept |
| PrerenderPages.ClubsIndexCrumbs | scripts/prerender.py:194-201 | the `/clubs` trail is well formed (positions 1, 2; only the last crumb unlinked) and has two crumbs |
| PrerenderPages.CityCrumbs | scripts/prerender.py:221-229 | a city trail is well formed, has three crumbs, and ends at the city |
| PrerenderPages.ClubCitySlug | scripts/prerender.py:238 | a club's city slug has no space and no comma |
| PrerenderPages.EmptyLocationClubFile | scripts/prerender.py:237-238 | a club whose location is "" has the route `/clubs//<id>`, whose file is that of `/clubs/<id>`: the city page's file when the id is a city slug |
| PrerenderPages.ClubCrumbs | scripts/prerender.py:255-264 | a club trail is well formed, has four crumbs, ends at the club, and its third crumb links to the city page |
| PrerenderPages.DateStr | scripts/prerender.py:280 | the date string is the first ten characters of the event date (all of it when shorter) |
| PrerenderPages.DateTime | scripts/prerender.py:287-292 | no time gives the date alone; a time gives date, `T`, time, `:00` |
| PrerenderPages.EventCitySlug | scripts/prerender.py:283 | an event's city slug has no space, and is empty exactly when the event has no location |
| PrerenderPages.OfferPrice | scripts/prerender.py:297 | the tier's price, else the general price, else 0 |
| PrerenderPages.Availability | scripts/prerender.py:303 | InStock exactly when the guest list is open or closing, SoldOut otherwise |
| PrerenderPages.EventOffers | scripts/prerender.py:295-306 | one offer per tier, in tier order |
| PrerenderPages.BuildOffers | scripts/prerender.py:295-306 | the offers loop builds exactly `EventOffers` |
| PrerenderPages.OffersFields | scripts/prerender.py:296-306 | exactly three offers (Stag, Couple, Ladies), each with its fallback price, INR, and the availability of the guest list |
| PrerenderPages.EventSd | scripts/prerender.py:309-340 | the event's structured data is an object that gets an `organizer` member exactly when the promoter has a name |
| PrerenderPages.EventCrumbs | scripts/prerender.py:349-357 | an event trail is well formed, has the club crumb only when there is a city slug, and ends at the event at the right position |
| PrerenderPages.PromoterMapKeys | scripts/prerender.py:169-178 | the map's keys are exactly the visited ids, and each maps to a visited entry with that id |
| PrerenderPages.PromoterMapLaterWins | scripts/prerender.py:169-178 | entries visited later replace earlier ones with the same id, and other ids are kept |
| PrerenderPages.ClubCopyWins | scripts/prerender.py:174-178 | for an id some club lists, the promoter page uses the last club copy, whatever the events said |
| PrerenderPages.VisitedIsMapAndKeys | scripts/prerender.py:169-178 | the dict built one entry at a time is the last-wins map, and its keys are the distinct ids in first-insertion order |
| PrerenderPages.CollectPromoters | scripts/prerender.py:169-178 | the two loops build the promoter map and its keys in insertion order |
| PrerenderPages.VisitEvents | scripts/prerender.py:170-173 | the loop over events visits each event's promoter in order |
| PrerenderPages.VisitClubs | scripts/prerender.py:174-178 | the loop over clubs continues the map with each club's promoters in order |
| PrerenderPages.VisitEvent | scripts/prerender.py:171-173 | one event turn visits its `promoterRef` when the id is truthy |
| PrerenderPages.VisitEntry | scripts/prerender.py:176-178 | one `promoterClubs` element is visited when it has a promoter with an id |
| PrerenderPages.VisitEntries | scripts/prerender.py:175-178 | the inner loop visits the club's promoters in order |
| PrerenderPages.Visit | scripts/prerender.py:173 | `promoter_map[id] = p` overwrites or adds the id; the key list grows only for a new id |
| PrerenderPages.PromoterCrumbs | scripts/prerender.py:390-398 | a promoter trail is well formed, has three crumbs, and ends at the promoter's name |
| PrerenderPages.CityWrites | scripts/prerender.py:208-233 | one write per city, to `/clubs/<slug>`, with that city's page |
| PrerenderPages.WithAlias | scripts/prerender.py:270-274 | the page, then a copy under the short-link route exactly when a code was returned |
| PrerenderPages.PromoterWrites | scripts/prerender.py:373-402 | one write per promoter key |
| PrerenderPages.ClubWritesCount | scripts/prerender.py:237-274 | the club phase writes one page per club plus one per club short-link code |
| PrerenderPages.EventWritesCount | scripts/prerender.py:279-370 | the event phase writes one page per event plus one per event short-link code |
| PrerenderPages.PromoterKeys | scripts/prerender.py:373 | the promoter keys are distinct and are exactly the keys of the promoter map |
| PrerenderPages.PlanParts | scripts/prerender.py:182-402 | `main`'s writes are the index page, the city pages, the club, event and promoter pages, in that order |
| PrerenderPages.PlanCount | scripts/prerender.py:180-404 | the reported count is 10, plus one per club, event and short-link code, plus one per distinct promoter |
| PrerenderPages.EmptyDataPlan | scripts/prerender.py:165-166 | with no data fetched, exactly ten pages are written |
| PrerenderDriver.StoredContents | scripts/prerender.py:146-156 | after `write_route`, the route's directory as `pathlib` spells it holds the html; every other file is as before; a route of slashes writes nothing |
| PrerenderDriver.ApplyWritesContents | scripts/prerender.py:146-156 | after writes that all rendered, a file holds the rendering of the page of its last write; unwritten files are kept; no other file appears |
| PrerenderDriver.ApplyWritesAppend | scripts/prerender.py:180-404 | writing two lists of pages is writing the first list, then the second |
| PrerenderDriver.AbortedStays | scripts/prerender.py:159-404 | once a rendering has raised, nothing more is written |
| PrerenderDriver.AbortIff | scripts/prerender.py:159-404 | the script stops exactly when the rendering of one of its pages raises |
| PrerenderDriver.FirstFailure | scripts/prerender.py:159-404 | the first page whose rendering raises ends the run with the tree the writes before it left |
| PrerenderDriver.LastPageIsLastWrite | scripts/prerender.py:146-156 | the page `LastPage` finds for a file is that of the last write to the file |
| PrerenderDriver.LastPageNone | scripts/prerender.py:146-156 | `LastPage` finds nothing only when no write targets the file |
| PrerenderDriver.OutputDir.WriteRoute | scripts/prerender.py:146-156 | `write_route` stores the html in the directory `pathlib` makes of the route, as `Stored` says |
| PrerenderDriver.OutputDir.WritePage | scripts/prerender.py:183-204 | a page is rendered once and written to its route; a rendering that raises writes nothing and stops the run |
| PrerenderDriver.OutputDir.WriteAlias | scripts/prerender.py:272-274 | the short-link copy reuses the rendered html and is written only when there is a code |
| PrerenderDriver.OutputDir.WriteWithAlias | scripts/prerender.py:366-370 | a page and its short-link copy, two files counted exactly when there is a code; a rendering that raises writes neither and stops the run |
| PrerenderDriver.OutputDir.WriteIndex | scripts/prerender.py:182-205 | phase 1 writes the `/clubs` page and counts one, or stops the run |
| PrerenderDriver.OutputDir.WriteCities | scripts/prerender.py:207-233 | phase 2 performs the city writes up to the first that raises, and when none does counts one per city |
| PrerenderDriver.OutputDir.WriteClub | scripts/prerender.py:237-274 | one club turn performs that club's writes and counts them, or stops the run |
| PrerenderDriver.OutputDir.WriteClubs | scripts/prerender.py:235-274 | phase 3 performs the club writes up to the first that raises, and when none does counts them |
| PrerenderDriver.OutputDir.WriteEvents | scripts/prerender.py:276-370 | phase 4 performs the event writes up to the first that raises, and when none does counts them and the event short links |
| PrerenderDriver.OutputDir.WriteEventAt | scripts/prerender.py:279-370 | one turn of the event loop keeps the loop invariant, moving from event `i` to event `i + 1`, or ends the phase as the whole phase would end |
| PrerenderDriver.OutputDir.WriteEvent | scripts/prerender.py:279-370 | one event turn writes the event's page and its copy, or stops the run, and reports whether it got a code |
| PrerenderDriver.OutputDir.WritePromoters | scripts/prerender.py:372-402 | phase 5 writes the promoter pages up to the first that raises, and when none does counts one per key |
| PrerenderDriver.RunPrerender | scripts/prerender.py:159-406 | `main` leaves the output tree as `Plan` rendered through `inject_meta` says, up to the first page that raises; it raises exactly when some page's replacement text is malformed; when it completes it reports the number of writes and of event short links |
| PrerenderDriver.RunPhases | scripts/prerender.py:180-404 | the five phases perform exactly `Plan`, stopping at the first page whose rendering raises, with any page renderer |
| Sitemap.XmlTableGood | scripts/generate-sitemap.mjs:23-30 | the five XML replacements form a table the decoder can invert |
| Sitemap.EscapeXmlSpec | scripts/generate-sitemap.mjs:23-30 | `escapeXml`: none of `<`, `>`, `"`, `'` raw; every `&` starts one of the five entities; decoding gives the input back |
| Sitemap.EscapeXmlIsEntityEscape | scripts/generate-sitemap.mjs:24-29 | the chain of five replacements, `&` first, equals escaping one character at a time |
| Sitemap.FindKnownSpec | scripts/generate-sitemap.mjs:40 | `CITIES.find` returns a city equal to the segment ignoring case, or none when there is none |
| Sitemap.CitySlugOfSegment | scripts/generate-sitemap.mjs:37-42 | `getCitySlug` is the slug of the city segment, with or without a known match; it has no whitespace |
| Sitemap.SitemapSlugMatchesPrerender | scripts/generate-sitemap.mjs:37-42 | for a single-spaced city segment, the sitemap's slug is the prerender script's slug |
| Sitemap.LastModSpec | scripts/generate-sitemap.mjs:97 | no `updatedAt` gives today; otherwise the part of `updatedAt` before the first `T` |
| Sitemap.LastModOfTimestamp | scripts/generate-sitemap.mjs:97 | an ISO timestamp is cut back to its date |
| Sitemap.ClubLocation | scripts/generate-sitemap.mjs:92 | `club.location \|\| 'India'` is never empty |
| Sitemap.CityUrls | scripts/generate-sitemap.mjs:80-88 | one entry per city |
| Sitemap.CityUrlsAt | scripts/generate-sitemap.mjs:80-88 | entry `i` is city `i`'s entry |
| Sitemap.ClubUrls | scripts/generate-sitemap.mjs:91-99 | one entry per club |
| Sitemap.ClubUrlsAt | scripts/generate-sitemap.mjs:91-99 | entry `i` is club `i`'s entry |
| Sitemap.EventUrls | scripts/generate-sitemap.mjs:102-109 | one entry per event |
| Sitemap.EventUrlsAt | scripts/generate-sitemap.mjs:102-109 | entry `i` is event `i`'s entry |
| Sitemap.PromoterUrls | scripts/generate-sitemap.mjs:112-119 | one entry per promoter id |
| Sitemap.PromoterUrlsAt | scripts/generate-sitemap.mjs:112-119 | entry `i` is promoter id `i`'s entry |
| Sitemap.SitemapPromoterIds | scripts/generate-sitemap.mjs:53-69 | the id set holds each id once, and exactly the ids the prerender script writes promoter pages for |
| Sitemap.SitemapUrlCount | scripts/generate-sitemap.mjs:72-119 | 3 static plus 9 city URLs, one per club and event, one per distinct promoter id |
| Sitemap.SitemapLocsOnSite | scripts/generate-sitemap.mjs:74-119 | every listed location is the site URL followed by a path |
| Sitemap.CitiesSingleSpaced | scripts/generate-sitemap.mjs:12-15 | every city name has only single spaces |
| Sitemap.CityLocMatchesPrerender | scripts/generate-sitemap.mjs:80-88 | each city URL is the page the prerender script writes for that city |
| Sitemap.ClubLocMatchesPrerender | scripts/generate-sitemap.mjs:91-99 | a club with a single-spaced city segment, or without a location, is listed at the URL of its prerendered page |
| Sitemap.FallbackSlugs | scripts/generate-sitemap.mjs:92 | both scripts' fallbacks for a missing location give the slug "india" |
| Sitemap.PlainWordSlugs | scripts/generate-sitemap.mjs:37-42 | a single word without comma or whitespace has its lowercase as slug in both scripts |
| Sitemap.EmptyLocationDiverges | scripts/generate-sitemap.mjs:92 | an empty location is listed under `/clubs/india/<id>`, while the prerender script's page for it has the route `/clubs//<id>` |
| Sitemap.EventLocMatchesPrerender | scripts/generate-sitemap.mjs:104 | each event URL is the event page the prerender script writes |
| Sitemap.DedupIdsSnoc | scripts/generate-sitemap.mjs:56 | adding an id to the set appends it only when it is new |
| Sitemap.AddId | scripts/generate-sitemap.mjs:56 | `promoterIds.add(id)` keeps the set in insertion order |
| Sitemap.AddEventIds | scripts/generate-sitemap.mjs:54-58 | the first loop collects the distinct event promoter ids in order |
| Sitemap.AddEventIdAt | scripts/generate-sitemap.mjs:54-58 | one turn of the first loop keeps its invariant |
| Sitemap.AddPromoterClub | scripts/generate-sitemap.mjs:64-66 | one `promoterClubs` element adds its promoter's id when it has one |
| Sitemap.AddEntryIds | scripts/generate-sitemap.mjs:63-67 | the inner loop adds the club's promoter ids in order |
| Sitemap.AddClubIds | scripts/generate-sitemap.mjs:61-69 | the second loop adds every club's promoter ids in order |
| Sitemap.AddClubEntryIds | scripts/generate-sitemap.mjs:61-69 | one turn of the second loop keeps its invariant |
| Sitemap.CollectPromoterIds | scripts/generate-sitemap.mjs:52-69 | both loops together give `SitemapPromoterIds` |
| Sitemap.PushCities | scripts/generate-sitemap.mjs:80-88 | the city loop appends exactly the city entries |
| Sitemap.PushClubs | scripts/generate-sitemap.mjs:91-99 | the club loop appends exactly the club entries |
| Sitemap.PushEvents | scripts/generate-sitemap.mjs:102-109 | the event loop appends exactly the event entries |
| Sitemap.PushPromoters | scripts/generate-sitemap.mjs:112-119 | the promoter loop appends exactly the promoter entries |
| Sitemap.BuildUrls | scripts/generate-sitemap.mjs:72-119 | the five phases fill `urls` with exactly `SitemapUrls` |
| Sitemap.LocRoundTrip | scripts/generate-sitemap.mjs:130 | reading a `<loc>` back up to the next `<` and decoding it gives the entry's location |
| Sitemap.BuildXml | scripts/generate-sitemap.mjs:122-137 | the `xml +=` loop builds the header, one block per entry in order, and the footer |
| Sitemap.RobotsVersion | scripts/generate-sitemap.mjs:149 | the version has no `-` |
| Sitemap.RobotsVersionOfDate | scripts/generate-sitemap.mjs:149 | "YYYY-MM-DD" becomes "YYYYMMDD" |
| Sitemap.SkipWhileSpec | scripts/generate-sitemap.mjs:151 | a greedy `\s*` or `\S*` skips only matching characters and stops at a non-matching one |
| Sitemap.MatchAt | scripts/generate-sitemap.mjs:151 | a match starts with `Sitemap:` and ends at the end of the text or before whitespace |
| Sitemap.FirstMatch | scripts/generate-sitemap.mjs:150-153 | the match found is a real match inside the text |
| Sitemap.FirstMatchSpec | scripts/generate-sitemap.mjs:150-153 | the match found is the leftmost, and none is found only when there is none |
| Sitemap.ReplaceSitemapLine | scripts/generate-sitemap.mjs:150-153 | no match leaves robots.txt unchanged; otherwise the first match is replaced by the new directive |
| Sitemap.UpdateRobots | scripts/generate-sitemap.mjs:146-156 | robots.txt is rewritten only when it exists |
| Sitemap.ReplacedAroundMatch | scripts/generate-sitemap.mjs:150-153 | the rewritten text keeps everything before the match, and the rest is empty or starts with whitespace |
| Sitemap.ShapedMatchesBetween | scripts/generate-sitemap.mjs:151 | a directive-shaped text followed by nothing or whitespace is a match wherever it stands |
| Sitemap.DirectiveShape | scripts/generate-sitemap.mjs:152 | the new directive has the shape of a match, so the next build finds and bumps it again |
| Sitemap.ReportedBreakdownMissesOne | scripts/generate-sitemap.mjs:159 | the logged sections, with "Static: 2", add up to one less than the logged URL count |
| Sitemap.BreakdownAddsUp | scripts/generate-sitemap.mjs:158-163 | with the three static pages the script pushes, the sections add up to the URL count |
| Sitemap.BreakdownCorrectsStatic | scripts/generate-sitemap.mjs:159-163 | the corrected sections differ from the logged ones only in the static line, 3 instead of 2 |
| Sitemap.GenerateSitemap | scripts/generate-sitemap.mjs:44-164 | the XML of all entries, robots.txt as rewritten, the URL count, and the sections as logged, which add up to one less |
| Sitemap.RewriteRobots | scripts/generate-sitemap.mjs:146-156 | only an existing robots.txt is rewritten |
| Sitemap.Counts | scripts/generate-sitemap.mjs:159-163 | the per-section counts as logged, with `Static: 2`, add up to one less than the number of URLs |
| ClubsList.FindCity | src/pages/ClubsListPage.tsx:28-30 | `find` returns the first entry whose slug equals the lowercased parameter, or none when none does or the parameter is absent |
| ClubsList.DisplayCity | src/pages/ClubsListPage.tsx:31 | the entry's label, else the non-empty parameter, else "All Cities"; never empty |
| ClubsList.CityParam | src/pages/ClubsListPage.tsx:32 | the entry's id, else the parameter as given |
| ClubsList.SlugFindsItself | src/pages/ClubsListPage.tsx:28-30 | in a table with distinct slugs, an entry's own slug finds that entry |
| ClubsList.DistinctHeadsDistinctSlugs | src/pages/ClubsListPage.tsx:29 | names whose first three characters differ ignoring case have different slugs |
| ClubsList.TableIdHeads | src/types.ts:103-113 | every `CITIES` id starts with three non-whitespace characters |
| ClubsList.TableSlugsDistinct | src/types.ts:103-113 | no two `CITIES` entries share a slug |
| ClubsList.PickedCityRoundTrip | src/pages/LocationSelectPage.tsx:60 | the slug the picker navigates to for a city selects that city, shows its label, and sends its id to the API |
| ClubsList.UnknownCityPassesThrough | src/pages/ClubsListPage.tsx:28-32 | a parameter matching no city is shown as given (or "All Cities") and sent to the API as given |
| ClubsList.FilterClubs | src/pages/ClubsListPage.tsx:73-76 | the clubs whose name or location contains the query ignoring case, in their order, each kept as often as it occurs |
| ClubsList.EmptyQueryKeepsAll | src/pages/ClubsListPage.tsx:73-76 | an empty search keeps every club, in order |
| ClubDetail.DecimalString | src/pages/ClubDetailPage.tsx:12 | `String(n)` is a non-empty digit string without a leading zero |
| ClubDetail.PadStart | src/pages/ClubDetailPage.tsx:13-14 | `padStart`: the requested length (or the string's own, if longer), the string at the end, fill before it |
| ClubDetail.DecimalRoundTrip | src/pages/ClubDetailPage.tsx:12 | the digits of `String(n)` denote `n` |
| ClubDetail.DecimalInjective | src/pages/ClubDetailPage.tsx:12 | different numbers print differently |
| ClubDetail.FourDigitYear | src/pages/ClubDetailPage.tsx:12 | years 1000 to 9999 print as four characters |
| ClubDetail.TwoDigitsValue | src/pages/ClubDetailPage.tsx:13-14 | a padded month or day below 100 is two digits denoting the number |
| ClubDetail.TodayShape | src/pages/ClubDetailPage.tsx:10-16 | today's string is the year's digits, `-`, two digits for month index + 1, `-`, two digits for the day |
| ClubDetail.DigitOrder | src/pages/ClubDetailPage.tsx:152 | digit strings of one length compare as strings as they compare as numbers |
| ClubDetail.TwoDigitsOrder | src/pages/ClubDetailPage.tsx:13-14 | padded numbers below 100 compare as strings as they compare as numbers |
| ClubDetail.MonthDayOrder | src/pages/ClubDetailPage.tsx:13-15 | the `-MM-DD` tails order by month, then day |
| ClubDetail.YearOrder | src/pages/ClubDetailPage.tsx:12 | four-digit years compare as strings as they compare as numbers |
| ClubDetail.DateOrder | src/pages/ClubDetailPage.tsx:149-152 | for four-digit years, comparing today's strings is comparing dates chronologically |
| ClubDetail.ExactlyOneList | src/pages/ClubDetailPage.tsx:151-157 | every event is upcoming or past, never both |
| ClubDetail.Insert | src/pages/ClubDetailPage.tsx:153 | inserting into a sorted list keeps it sorted and adds exactly the one element |
| ClubDetail.SortByDate | src/pages/ClubDetailPage.tsx:153 | the sort result is ordered by date and is a permutation of its input |
| ClubDetail.UpcomingEvents | src/pages/ClubDetailPage.tsx:151-153 | the upcoming list holds exactly the upcoming events, each as often as given, earliest first |
| ClubDetail.PastEvents | src/pages/ClubDetailPage.tsx:155-157 | the past list holds exactly the past events, each as often as given, latest first |
| ClubDetail.ListsPartitionEvents | src/pages/ClubDetailPage.tsx:150-157 | together the two lists hold every event exactly once |
| Slideshow.JsRem | src/components/VenueImageSlideshow.tsx:9 | JavaScript `%`: the remainder lies strictly between `-n` and `n` and has the sign of the dividend |
| Slideshow.WrapInRange | src/components/VenueImageSlideshow.tsx:9 | from `-n` on, `goTo` stores the residue of the index, which names an image |
| Slideshow.WrapBelowRange | src/components/VenueImageSlideshow.tsx:9 | below `-n` the adjustment is too small: `-n - 1` is stored as `-1` |
| Slideshow.WrapInside | src/components/VenueImageSlideshow.tsx:9 | an index already in range is stored as it is |
| Slideshow.WrapForward | src/components/VenueImageSlideshow.tsx:9 | one step forward from the last image goes to the first |
| Slideshow.WrapBackward | src/components/VenueImageSlideshow.tsx:9 | one step back from the first image goes to the last |
| Slideshow.Slideshow.constructor | src/components/VenueImageSlideshow.tsx:5-6 | the slideshow starts at image 0 with no touch recorded |
| Slideshow.Slideshow.GoTo | src/components/VenueImageSlideshow.tsx:8-10 | `goTo` stores `(index + n) % n` with JavaScript's remainder |
| Slideshow.Slideshow.Next | src/components/VenueImageSlideshow.tsx:45-46 | the right arrow shows the next image, wrapping from the last to the first |
| Slideshow.Slideshow.Prev | src/components/VenueImageSlideshow.tsx:39-40 | the left arrow shows the previous image, wrapping from the first to the last |
| Slideshow.Slideshow.Dot | src/components/VenueImageSlideshow.tsx:57-60 | a dot shows its own image |
| Slideshow.Slideshow.Tick | src/components/VenueImageSlideshow.tsx:13-17 | the timer advances one image, wrapping around |
| Slideshow.Slideshow.TouchStart | src/components/VenueImageSlideshow.tsx:70 | a touch records where it started and changes no image |
| Slideshow.Slideshow.TouchEnd | src/components/VenueImageSlideshow.tsx:71-76 | a swipe of more than 50 pixels left shows the next image, one right the previous; a shorter one changes nothing |
| Slideshow.Slideshow.Render | src/components/VenueImageSlideshow.tsx:19-65 | nothing without images; otherwise one image per slot, exactly the current one visible, and arrows and dots exactly for more than one image |

## Left out

- Network, files and processes: the API fetches, the `--cached` file cache, reading the template, `mkdir`, the short-link POST, `console`/`print` output and exit codes. The fetched data, the short-link service and the current robots.txt are parameters; the output directory is a map from directories to html.
- Regular expressions in `inject_meta`: the matching engine is not modelled. A finder parameter gives the first match of each tag's pattern. The replacement strings are parsed as `re` parses them: character, octal and `\g<...>` escapes, a kept backslash before other characters, and the errors. The `robots.txt` pattern is modelled exactly, as a greedy matcher.
- Prerender.GroupEscape: a group name of non-ASCII decimal digits is an invalid reference, as in Python 3.12 and later; older versions read a name such as `٠` as group 0.
- `json.dumps`: a serialiser parameter; the JSON-LD text it produces is not modelled.
- Case: only ASCII letters are lowercased. Unicode case mapping is not modelled.
- Prerender.CitySegment: the whitespace `strip()` removes is `IsSpace`, the six characters space, `\t`, `\n`, `\v`, `\f` and `\r`. Python's `strip()` also removes `\x1c` to `\x1f`, `\x85` and the Unicode spaces, so a location such as `"Goa\x1f"` keeps its last character here. The same holds for the sitemap's `trim()` and `\s` (Sitemap.CitySlugOfSegment, Text.DashSpacesSpec), which also match `\xa0`, `\ufeff` and the Unicode spaces.
- `localeCompare`: modelled as ordinal (code-unit) comparison. Locale collation is not modelled; it agrees for ISO date strings, which are digits and separators.
- Date handling: the current date is a parameter (year, month index, day). No clock or time zone is modelled. `DateOrder` covers four-digit years only, because for other years the string order is not chronological.
- ClubDetail.SortByDate: does not state stability. The insertion places a later equal element after earlier ones, but no lemma states this.
- `Array.prototype.sort`: only the `SortByDate` result property is modelled, not the engine's algorithm.
- Slideshow: `clientX` is a float in the browser but an integer here. `setInterval` timing and clearing are not modelled; `Tick` is one firing of the interval. `images` changing between renders is not modelled (`count` is fixed at construction). `venueName`, the alt texts and the CSS classes are not modelled.
- Slideshow.Slideshow.Next, Prev, Dot and Tick: require more than one image, because the arrows, dots and timer exist only then. `GoTo` requires at least one image, because every control is rendered only after the early `return null`.
- ClubsListPage: the SEO call, the club fetch (`fetchClubs(cityParam)` is the output `CityParam`), the download modal and the rendering are not modelled.
- ClubDetailPage: everything outside `getTodayDateString` and lines 150-157 (fetches, share links, rendering) is not modelled.
- Structured data: the JSON objects of the club, city, index and promoter pages are built as in the source. Only their breadcrumb trails, offers and organizer member have lemmas.
- Sitemap XML: the fixed header and `<lastmod>`/`<changefreq>`/`<priority>` text are built as in the source. Only locations have a round-trip lemma.
- Slugs: the two scripts differ on runs of whitespace (`\s+` against `' '`). This is proved to make no difference for single-spaced segments (`SitemapSlugMatchesPrerender`). The scripts are also proved to differ for empty locations (`EmptyLocationDiverges`, `EmptyLocationClubFile`). Other multi-space locations are left unrelated.
- Domain records: each record field holds a value of its type, or, where the source reads the field with a default, may be absent (`Option`). JSON `null`, and a missing key the source reads without a default, are not modelled, nor are the errors they raise:
  - a null `location` makes `get_city_slug` raise (scripts/prerender.py:237);
  - a null `promoterClubs` or `promoter` raises in the promoter loop (scripts/prerender.py:175-177), while the sitemap's `pc.promoter?.id` skips it (scripts/generate-sitemap.mjs:64);
  - a null `createdAt` fails at `[:10]` (scripts/prerender.py:305);
  - a `promoterRef` with a name and no `id` raises `KeyError` (scripts/prerender.py:338);
  - a null promoter `name` gives the title "None - Event Promoter" (scripts/prerender.py:377).
- StoredContents: a `..` part of a route is kept in the directory key, as `pathlib` keeps it. The operating system resolves it when the file is written, so a route with `..` names a different file than its key. Symbolic links under the output directory are not modelled either.
- ApplyWritesContents: files are told apart by their keys, so the `..` gap of StoredContents applies here too.
- WriteRoute: it stores by `Stored`, so the `..` gap of StoredContents applies here too.
- RunPrerender: the final tree is keyed as `Stored` keys it, so the `..` gap of StoredContents applies here too.
- `encodeURIComponent` links built elsewhere in ClubDetailPage are not modelled.

## Findings

| source | as written | input that shows it | evidently intended | confidence | as-written member | corrected member |
|---|---|---|---|---|---|---|
| scripts/generate-sitemap.mjs:159 | logs `Static: 2`, though three static URLs are pushed at lines 75-77 | any run, e.g. no clubs, events or promoters: 12 URLs, while the logged sections sum to 11 | log the number of static entries, 3, so that the sections add up to the total | not executed | Sitemap.ReportedBreakdownMissesOne | Sitemap.BreakdownAddsUp |
