# frclinks in Dafny

frclinks is a small App Engine service. It turns short paths such as
`/t/254`, `/e/s/cmp/2017` or `/tba/1114/2016` into redirects to pages of the
FIRST Robotics Competition sites and The Blue Alliance. This project models
two parts of it:

- **The team directory** (`team.py`). It maps a team number to FIRST's
  per-team page id (the tpid). Two memcache namespaces ("Team" and
  "OldTeam") sit in front of two datastore kinds (`Team`: number → tpid, and
  `OldTeam`: number → year and list rank). `LookupTeam` reads the cache
  first. It then reads the store and caches a miss as `"null"`.
  `ScrapeTeam` walks FIRST's paginated team listing 250 teams at a time. It
  stores every team it has not seen and stops at the page that names the
  requested team, or at the page without a `Next ->` link. `GetOldTeams`
  records the list rank of past-season teams. `LookupOldTeamPage` turns a
  stored rank into a team-details URL. The two flush functions delete up to
  500 entities of one kind and empty the whole cache.
- **Path and URL translation** (`frclinks.py`):
  - the `findall` scanners for team numbers, event codes, four-digit years
    and `<team>/<year>` pairs;
  - `GetEvent`'s table of championship-division abbreviations;
  - `GetYear`'s default season;
  - the year-dependent choice between the frc-events site and the legacy
    `www2.usfirst.org` pages;
  - the Texas and Missouri division rewriting;
  - the three-letter The Blue Alliance event keys;
  - `Redir`'s referrer hop for `my.usfirst.org/myarea` URLs;
  - the three-column event table of the instructions page;
  - `GetTpid`, which scrapes at most once an hour.

## Module layout

- `Wrappers`: `Option`.
- `Digits`: Python's `int()` and `str()` on decimal digit strings, and the
  round trips between them.
- `TeamSpec`: the directory's rules on values. These are the store/cache
  pair, `Lookup`, ingesting one listing page, the scrape run over a listing,
  the old-team ingest and the team-details URL. The lemmas state what
  `team.py` promises about them.
- `Team`: class `Directory`. It has the four stores as map fields and one
  method per `team.py` function. Each method is proved against the
  functions of `TeamSpec`, loop by loop.
- `PathParsing`: the four regular expressions as left-to-right scanners.
  Lemmas show what each yields on the paths the handlers are written for.
- `Links`: `GetYear`, `GetEvent`, the URL choice of each event and team
  handler, `DocumentsPage` and `Redir`.
- `EventTable`: the event-table loop, both as written and corrected (see
  Findings).
- `FrcLinks`: `GetTpid` on values (`Resolve`), and class `App` holding
  `lastScrapeTime`.

The web requests are parameters:

- The team listing is a `seq<Page>`. Page `k` is what offset `250 * k`
  serves. A page is the parsed `(tpid, number)` pairs plus whether a
  `Next ->` link is present. Past the end of the sequence, the site serves
  an empty page without that link.
- `GetOldTeams` receives the parsed pairs of its one page.
- `LookupOldTeamPage` receives a function from URL to the team-details
  links found on the page that URL serves.
- The clock is two integer readings (`now` and `finished`).

Three facts about the code fix the shape of the model:

- A `Team` entity has no season field. `ScrapeTeam` never overwrites a
  stored Team: it only inserts numbers that have no Team yet.
- Paging stops at the first page without the `Next ->` marker.
- `frclinks.py:40-43` imports `FlushTeams` and `ScrapeTeams`, and `team.py`
  defines neither. It defines `FlushNewTeams`, `FlushOldTeams` and
  `GetOldTeams`, and those are what the model contains.

## Model

| member | source | states |
|---|---|---|
| Digits.ParseDecimal | team.py:67 | Python's `int()` on a digit string; ParseFormat and FormatParse state its round trips with `str()` |
| Digits.FormatDecimal | team.py:69 | `str(n)` is a non-empty digit string without a leading zero, and starts with '0' only for 0 |
| Digits.ParseFormat | team.py:69 | `int(str(n)) == n` for every natural n |
| Digits.FormatParse | team.py:100 | `str(int(s)) == s` for every canonical digit string s |
| Digits.ParseLeadingNonZero | team.py:67 | a digit string that starts with a non-zero digit denotes at least 1, and at least 10 if it is longer than one digit |
| TeamSpec.TeamListUrl | team.py:85-88 | the listing request for a season at an offset, 250 teams per page; ListingUrlsAt states the order of requests |
| TeamSpec.OldTeamQueryUrl | team.py:164-168 | the one-team listing request at an OldTeam's season and rank |
| TeamSpec.ListingUrlsAt | team.py:83-107 | the j-th listing request is for offset 250·j, and a run that fetched `count` pages made `count` requests |
| TeamSpec.Lookup | team.py:58-76 | after LookupTeam the number always has a cache entry, and a positive answer is never the "null" marker |
| TeamSpec.CacheAdd | team.py:70-74 | `memcache.add`: writes only a key that is absent; LookupOnlyAdds states it |
| TeamSpec.LookupCacheHit | team.py:62-66 | a cached tpid other than "null" is answered as is, and nothing changes |
| TeamSpec.LookupOnlyAdds | team.py:67-76 | LookupTeam never changes the Team store; its one cache write is an add under the number, and every existing entry keeps its value |
| TeamSpec.LookupRepeat | team.py:62-76 | a second LookupTeam for the same number gives the same answer and changes nothing |
| TeamSpec.LookupNegativeCached | team.py:62-74 | after a None answer, the next LookupTeam answers None from the cache, whatever the Team store holds by then |
| TeamSpec.LookupAgreesWithStore | team.py:62-71 | when the cache agrees with the store, a positive answer reads as the stored Team's tpid, and the cache still agrees afterwards |
| TeamSpec.LookupFindsStored | team.py:62-71 | a stored Team is always found, unless a "null" entry for that key masks it |
| TeamSpec.NumbersSplit | team.py:92-93 | the numbers on a page are the first pair's number plus those of the rest |
| TeamSpec.IngestEntry | team.py:97-102 | after one pair, its number always has a Team |
| TeamSpec.IngestPage | team.py:92-102 | the page's pairs ingested in page order; IngestKeeps, IngestKeys, IngestFirst, IngestFirstCached, IngestIdempotent and IngestAgrees state its properties |
| TeamSpec.IngestKeeps | team.py:97-102 | ingesting a page keeps every stored Team and its value, and keeps the cache entry of every stored number |
| TeamSpec.IngestKeys | team.py:97-102 | after ingesting a page, the stored numbers are the old ones plus the page's |
| TeamSpec.IngestFirst | team.py:97-102 | a number new to the store gets the tpid of its first occurrence on the page |
| TeamSpec.IngestFirstCached | team.py:97-102 | the first pair of a number not yet stored puts its tpid in the store and in the cache, where `memcache.set` overwrites a "null", even when later pairs repeat the number |
| TeamSpec.IngestCacheFrame | team.py:97-102 | ingesting a page leaves the cache entry of every number not on the page as it was, present or absent |
| TeamSpec.IngestStoredIsIdentity | team.py:97-102 | a page whose numbers are all stored changes nothing |
| TeamSpec.IngestIdempotent | team.py:97-102 | ingesting the same page twice equals ingesting it once |
| TeamSpec.IngestAgrees | team.py:97-102 | ingesting a page keeps the cache in agreement with the store |
| TeamSpec.LastMatch | team.py:91-96 | the per-page answer: a later match replaces an earlier one; LastMatchFound and LastMatchAbsent state it |
| TeamSpec.LastMatchFound | team.py:91-96 | the page's answer is the tpid of the last pair whose number equals the requested string |
| TeamSpec.LastMatchAbsent | team.py:91-96 | a page without the requested number leaves the answer as it was (None per page) |
| TeamSpec.ScrapeEndsAtFirstStop | team.py:84-107 | the run fetches pages up to the first page that names the team or lacks `Next ->`; it answers that page's match, or None |
| TeamSpec.ScrapeKeeps | team.py:97-102 | a whole scrape keeps every stored Team and the cache entries of stored numbers |
| TeamSpec.ScrapeAgrees | team.py:97-102 | a whole scrape keeps the cache in agreement with the store |
| TeamSpec.ScrapeCacheFrame | team.py:83-107 | a whole scrape leaves the cache entry of every number on none of the pages as it was |
| TeamSpec.ScrapeThenLookup | team.py:58-107 | if the number is not yet stored, is listed exactly once on pages 0 to j (on page j), and every earlier page has `Next ->`, then the scrape answers that tpid after j + 1 fetches, and a later LookupTeam answers the same tpid |
| TeamSpec.ScrapeFindsFrom | team.py:84-107 | the same as ScrapeThenLookup (number not yet stored, listed exactly once on pages 0 to j), for a run that starts at page k0; the tpid is also in the cache |
| TeamSpec.DuplicateOnPage | team.py:92-104 | one concrete input: number "118" listed with tpids "1" and then "2" on a single page, starting from empty stores; the scrape answers "2", the tpid of the last pair, while the store, and so a later LookupTeam, keep "1" |
| TeamSpec.ScrapeFrom | team.py:83-107 | ScrapeTeam from page k: ingest the whole page, then answer its match, or stop without `Next ->`, or go on; ScrapeEndsAtFirstStop, ScrapeKeeps, ScrapeAgrees and ScrapeThenLookup state its properties |
| TeamSpec.IngestOld | team.py:139-150 | GetOldTeams over its one page; OldIngestKeeps, OldIngestKeys and OldIngestRank state its properties |
| TeamSpec.OldIngestKeeps | team.py:139-150 | GetOldTeams never changes an existing OldTeam |
| TeamSpec.OldIngestKeys | team.py:139-150 | OldTeams are created exactly for the page's numbers that have neither a Team nor an OldTeam |
| TeamSpec.OldIngestRank | team.py:132-150 | the i-th pair's new OldTeam gets the season and rank `start + i` |
| TeamSpec.UnescapeAmp | team.py:170 | replacing "&amp;" by "&" never makes a string longer |
| TeamSpec.UnescapeEscape | team.py:170 | replacing "&amp;" with "&" undoes escaping of "&" |
| TeamSpec.TeamDetailsUrl | team.py:170-171 | the site's index page followed by the link's query, unescaped; TeamDetailsUrlOfEscaped states it |
| TeamSpec.TeamDetailsUrlOfEscaped | team.py:170-171 | the team-details URL is the myarea `index.lasso` URL followed by the unescaped query |
| Team.Directory.constructor | team.py:43-56 | both stores and both cache namespaces start empty and agree |
| Team.Directory.LookupTeam | team.py:58-76 | the answer and the new cache are those of `Lookup`; a positive answer is the stored tpid; the stores are unchanged |
| Team.Directory.ScrapeTeam | team.py:78-107 | the answer and the new stores are those of the scrape run; requests go to offsets 0, 250, … in order; the old-team state is unchanged |
| Team.Directory.IngestListingPage | team.py:90-102 | one page's loop ingests every pair and returns the page's last match |
| Team.Directory.GetOldTeams | team.py:127-150 | requests offset `int(start)`; the OldTeam store becomes the old-team ingest of the page; the Team store and the cache are unchanged |
| Team.Directory.FlushNewTeams | team.py:109-116 | exactly min(500, count) Teams are deleted and the rest keep their values; OldTeams are untouched; the whole cache is emptied |
| Team.Directory.FlushOldTeams | team.py:118-125 | exactly min(500, count) OldTeams are deleted and the rest keep their values; Teams are untouched; the whole cache is emptied |
| Team.Directory.LookupOldTeamPage | team.py:152-171 | an unknown team gives None; otherwise the OldTeam is cached, and the answer is built from the first team-details link on the listing page at its year and rank, or is the missing-link error |
| PathParsing.DigitRun | frclinks.py:46 | the run is the longest prefix made of digits |
| PathParsing.LetterRun | frclinks.py:52 | the run is the longest prefix made of letters |
| PathParsing.NumberRuns | frclinks.py:46 | every match of `\d+` is a non-empty digit string |
| PathParsing.LastNumber | frclinks.py:134 | the last match of `\d+`, a digit string |
| PathParsing.NumberRunsSkip | frclinks.py:46 | a digit-free prefix contributes no match |
| PathParsing.LastNumberOfTeamPath | frclinks.py:134 | on `<no digits><team><no digits>`, the last number match is the team |
| PathParsing.YearMatches | frclinks.py:55 | every match of `\d{4}` has exactly four digits |
| PathParsing.YearMatchesSplit | frclinks.py:55 | a non-digit separates the matches: matches of `p c r` are those of `p c` followed by those of `r` |
| PathParsing.YearMatchesNone | frclinks.py:55 | a digit-free string has no year match |
| PathParsing.TokenLength | frclinks.py:52 | one event-code match is at least one character long and lies within the input |
| PathParsing.EventTokens | frclinks.py:52 | every match of `[A-Za-z]+\d?` is non-empty and starts with a letter |
| PathParsing.EventTokensSplit | frclinks.py:52 | a separator that is neither letter nor digit splits the matches |
| PathParsing.EventTokensNone | frclinks.py:52 | a letter-free string has no event-code match |
| PathParsing.EventTokensOfCode | frclinks.py:52 | an event code (letters, then at most one digit) followed by a letter-free tail that does not extend it is exactly one match |
| PathParsing.YearMatchesOfCode | frclinks.py:55 | an event code followed by a digit-free tail holds no year match |
| PathParsing.LastEventToken | frclinks.py:102 | the last match of `[A-Za-z]+\d?`: non-empty, letter-led, letters and digits only |
| PathParsing.LastEventTokenOfPath | frclinks.py:102 | in `<p><sep><code><tail>`, for any event code `[A-Za-z]+\d?` and any letter-free tail that does not extend it, the last event-code match is the code |
| PathParsing.TeamYearMatches | frclinks.py:58 | every `(\d+)/?(\d{4})?` match has a digit team and a year that is empty or four digits |
| PathParsing.TeamYearMatchesNone | frclinks.py:58 | a digit-free string has no team/year match |
| PathParsing.TeamYearOfPath | frclinks.py:254 | `<p><team>/<year><t>` yields exactly the pair (team, year) |
| PathParsing.TeamOnlyOfPath | frclinks.py:254 | `<p><team><t>` yields exactly the pair (team, "") |
| Links.GetYear | frclinks.py:94-99 | the season is always four digits |
| Links.YearDefault | frclinks.py:94-99 | a path without digits gets the default season "2018" |
| Links.YearOverlap | frclinks.py:55-97 | year matches do not overlap: after a non-digit, a run of five to seven digits followed by no digits gives the season of its first four digits |
| Links.ExpandEvent | frclinks.py:103-131 | GetEvent's comparison chain; ExpandEventByTable and ExpandEventChanges state it |
| Links.GetEvent | frclinks.py:101-131 | the last event code of the path, expanded; EventPathFields and EventNoDot state it |
| Links.ExpandEventByTable | frclinks.py:101-131 | GetEvent's chain of ifs equals a lookup in the 13-entry alias table, and returns every other code unchanged |
| Links.ExpandEventChanges | frclinks.py:101-131 | the code changes exactly when it is one of the 13 aliases |
| Links.EventPathFields | frclinks.py:94-131 | on `<p>/<code>/<year><t>`, for any event code `[A-Za-z]+\d?`, GetEvent is the expanded code and GetYear is the year |
| Links.EventPathFieldsNoYear | frclinks.py:94-131 | on `<p>/<code><t>` with no year, for any event code `[A-Za-z]+\d?`, GetEvent is the expanded code and GetYear is the default season |
| Links.AliasesAreDivisions | frclinks.py:104-127 | every alias other than "ein" expands to a Texas or a Missouri division |
| Links.DivisionRoundTrip | frclinks.py:394-398 | for each of the 12 division aliases, the The Blue Alliance key of its expansion is the alias again |
| Links.EinsteinStays | frclinks.py:128-129 | "ein" becomes "einstein", which neither the team list nor The Blue Alliance key rewrites |
| Links.TeamListEvent | frclinks.py:291-294 | the event name always ends the team list's event parameter |
| Links.TbaEventKey | frclinks.py:394-398 | the The Blue Alliance key of an event: division names are cut to three or four letters; DivisionRoundTrip and TbaKeyIsPrefix state it |
| Links.EventTeamListUrl | frclinks.py:296-299 | the team-list URL of an event; EventPagesOfPath, AliasTeamList and TeamListUrlSafe state it |
| Links.EventTbaUrl | frclinks.py:399 | the The Blue Alliance event URL; DivisionRoundTrip, EventPagesOfPath and TbaEventUrlSafe state it |
| Links.TbaKeyIsPrefix | frclinks.py:394-398 | The Blue Alliance key of an event is always a prefix of the event name |
| Links.AliasTeamList | frclinks.py:283-294 | every alias is Texas, Missouri or "ein"; the team list of a Texas alias's expansion is `cmptx&division=<expansion>`, of a Missouri one `cmpmo&division=<expansion>` |
| Links.NonDivisionUnchanged | frclinks.py:291-398 | any other event is passed unchanged to the team list and The Blue Alliance |
| Links.ChampionshipEvent | frclinks.py:324-327 | the renaming of "cmp" in the match-results and awards handlers; ChampionshipRenaming states it |
| Links.IsModern | frclinks.py:309 | the `int(year) >= 2006` test of the four event-page handlers; ModernSite, LegacySite and EventPagesShareSite state it |
| Links.ChampionshipRenaming | frclinks.py:324-327 | the event is renamed exactly when it is "cmp" and the year is 2005, 2006 or 2008 |
| Links.EventScheduleUrl | frclinks.py:305-314 | the schedule URL of an event in a season; ModernSite, LegacySite and EventPagesShareSite state its site |
| Links.EventMatchResultsUrl | frclinks.py:320-340 | the match-results URL; ModernSite, LegacyResultsSite and MatchResultsIsSchedule state it |
| Links.EventRankingsUrl | frclinks.py:346-355 | the rankings URL; ModernSite and LegacySite state its site |
| Links.EventAwardsUrl | frclinks.py:361-375 | the awards URL; ModernSite and LegacySite state its site |
| Links.ModernSite | frclinks.py:301-375 | from 2006 on, the four event-page URLs start with `http://frc-events.firstinspires.org/<year>/` |
| Links.LegacySite | frclinks.py:301-375 | before 2006, the schedule, rankings and awards URLs start with `http://www2.usfirst.org/<year>comp/Events/`, and the schedule is not on frc-events |
| Links.LegacyResultsSite | frclinks.py:316-340 | before 2006, the match-results URL starts with the same legacy prefix, whichever of the three page names the year picks |
| Links.EventPagesShareSite | frclinks.py:301-375 | for every path with an event code, the four event-page URLs share one site prefix, and the schedule is on frc-events exactly when the path's season is 2006 or later |
| Links.MatchResultsIsSchedule | frclinks.py:301-340 | the match-results URL is the schedule URL exactly for modern seasons when the event is not renamed |
| Links.TeamTbaUrl | frclinks.py:254-257 | the team page on The Blue Alliance for the last `<team>/<year>` match; TeamTbaOfPath states it |
| Links.TeamTbaOfPath | frclinks.py:249-257 | `/…<team>/<year>` names that team and season on The Blue Alliance, and `/…<team>` names the default season |
| Links.DocumentsUrl | frclinks.py:429-433 | the manual page for a season, else the default one; DocumentsOfPath states it |
| Links.DocumentsOfPath | frclinks.py:424-433 | the current manual page is chosen exactly when the path's season is the default one |
| Links.Redir | frclinks.py:154-160 | both responses carry the requested URL unchanged |
| Links.DotsSafeRenders | frclinks.py:154-160 | a URL none of whose dots can be the one in `my.usfirst.org/myarea` is rendered directly |
| Links.EventPagesRender | frclinks.py:283-399 | the team-list, schedule, match-results, rankings, awards and The Blue Alliance event pages render their URL directly for every path |
| Links.TeamTbaRenders | frclinks.py:249-257 | the team page on The Blue Alliance renders directly for every path |
| Links.DocumentsRender | frclinks.py:424-433 | both manual pages render directly |
| Links.EventNoDot | frclinks.py:101-131 | the event GetEvent returns has no dot: letters and digits from the path, or a division name |
| Links.MyAreaHops | frclinks.py:154-157 | every URL under `https://my.usfirst.org/myarea` takes the referrer hop |
| Links.ListingUrlHops | frclinks.py:154-157 | the team-listing URLs the directory fetches would take the referrer hop |
| Links.EventTeamListPage | frclinks.py:283-299 | the team-list handler on a path; EventPagesOfPath and EventPagesRender state it |
| Links.EventSchedulePage | frclinks.py:301-314 | the schedule handler on a path; EventPagesOfPath, EventPagesShareSite and EventPagesRender state it |
| Links.EventMatchResultsPage | frclinks.py:316-340 | the match-results handler on a path; EventPagesOfPath, EventPagesShareSite and EventPagesRender state it |
| Links.EventRankingsPage | frclinks.py:342-355 | the rankings handler on a path; EventPagesOfPath, EventPagesShareSite and EventPagesRender state it |
| Links.EventAwardsPage | frclinks.py:357-375 | the awards handler on a path; EventPagesOfPath, EventPagesShareSite and EventPagesRender state it |
| Links.EventTheBlueAlliancePage | frclinks.py:388-398 | the The Blue Alliance event handler on a path; EventPagesOfPath and EventPagesRender state it |
| Links.TeamTheBlueAlliancePage | frclinks.py:249-257 | the The Blue Alliance team handler on a path; TeamTbaOfPath and TeamTbaRenders state it |
| Links.DocumentsPage | frclinks.py:424-433 | the manual handler on a path; DocumentsOfPath and DocumentsRender state it |
| Links.EventPagesOfPath | frclinks.py:283-399 | on `<p>/<code>/<year><t>`, for any event code `[A-Za-z]+\d?`, each event handler answers the URL for the expanded event in that season |
| Links.EventPagesOfPathNoYear | frclinks.py:283-399 | on `<p>/<code><t>` with no year, for any event code `[A-Za-z]+\d?`, each event handler answers the URL for the expanded event in the default season |
| EventTable.RowsBounds | frclinks.py:83 | `c = (n + 2) / 3` rows hold all n events, and for n ≥ 2 two columns fit within n |
| EventTable.RowIndices | frclinks.py:83-91 | row i lists event i and then every event c further on while it exists: at most three, all below n, and the next one would be past the end |
| EventTable.EachEventOnce | frclinks.py:82-92 | every event index appears in exactly one row |
| EventTable.Row | frclinks.py:84-91 | the cells of row i of the layout; RowIndices, Cells and BuildRow state it |
| EventTable.Cells | frclinks.py:84-91 | a row alternates the code and the name of each listed event |
| EventTable.BuildTableAsWritten | frclinks.py:82-92 | the loop as written fails exactly when there is one event, and otherwise builds every row of the layout |
| EventTable.BuildTable | frclinks.py:82-92 | the guarded loop builds all c rows of the layout for every count |
| EventTable.BuildRow | frclinks.py:84-91 | one pass of the guarded loop body builds row i of the layout |
| FrcLinks.Resolve | frclinks.py:133-145 | GetTpid scrapes exactly when the lookup's answer is falsy and there was no earlier scrape or the last one is over 3600 s old; without a scrape the answer is the lookup's and the time is kept; after one the time is the scrape's finish time |
| FrcLinks.AtMostOneScrapePerHour | frclinks.py:139-143 | after a visit that scraped, no visit in any following sequence of visits, for any teams, scrapes again while each comes within an hour of the scrape's end |
| FrcLinks.Visits | frclinks.py:133-145 | a sequence of GetTpid visits, one after another; NoScrapeWithinHour states it |
| FrcLinks.NoScrapeWithinHour | frclinks.py:139-143 | a sequence of visits that all come within an hour of the last scrape fetches no page, and keeps that scrape time |
| FrcLinks.MayScrape | frclinks.py:140 | the time half of GetTpid's test: no scrape yet, or the last one over 3600 s ago; Resolve and AtMostOneScrapePerHour state it |
| FrcLinks.ScrapedTeamIsCached | frclinks.py:133-145 | if the team is not yet stored, is listed exactly once on the pages up to the one that lists it, and every earlier page has `Next ->`, the scrape answers its tpid, and a later visit answers the same tpid from the directory without scraping |
| FrcLinks.App.constructor | frclinks.py:78 | no scrape has happened yet |
| FrcLinks.App.GetTpid | frclinks.py:133-145 | the directory, the answer and `lastScrapeTime` become those of `Resolve` for the path's last number; the listing requests are those of the scrape |

## Left out

- HTTP (`urlfetch.fetch` with its deadline) is left out. Pages are
  parameters, as described above.
- The HTML regular expressions `teamRe`, `lastPageRe` and `oldTeamPageRe`
  are left out. A listing page is given as its parsed pairs and a
  `Next ->` flag, and `LookupOldTeamPage` receives the list of link
  matches.
- The 64-bit bound of `db.IntegerProperty` is not modelled.
  - `Team.number`, `Team.tpid`, `OldTeam.number`, `OldTeam.year` and
    `OldTeam.rank` are such properties (`team.py:47-48`, `54-56`).
  - The datastore rejects a value above 2^63 - 1 when it is assigned at
    `team.py:99-100` or `146-148`.
  - The model stores unbounded naturals, so TeamSpec.IngestEntry and
    TeamSpec.IngestOld store such a pair like any other.
- Memcache eviction and expiry are left out. A cache entry stays until a
  flush.
- Team.Directory.FlushNewTeams: the datastore's `fetch(500)` order is not
  modelled. Any subset of the right size may be deleted.
- Team.Directory.FlushOldTeams: the same as FlushNewTeams.
- `json.load` of `events.json` is left out. The event table takes the
  decoded list.
- `urllib.urlencode` is left out. `ReferrerHop` carries the URL itself
  rather than the encoded `/usfirst.org?url=` query.
- Template rendering is left out. `RenderRedirect` carries the URL the
  template receives.
- Links.Redir: its own contract states only the URL. Which branch a URL
  takes is stated by lemmas: the listing URLs hop, and the URLs of the
  modelled event, team and manual handlers render directly. For other
  URLs the branch is the `Contains` test itself.
- The webapp handler classes, the WSGI route table and
  `BlacklistMiddleware` are left out. Each modelled handler is a function
  from the request path to its response. In the route table every handler
  route is commented out (`frclinks.py:604-692`); the only live route
  (`frclinks.py:693`) sends every path to `NewFrcLinksRedirectPage`, which
  redirects to `http://frc.link` plus the path (`frclinks.py:593-598`) and
  is not modelled.
- `TeamWebsitePage` and `TeamMapPage` are left out. They depend on a fetched
  JSON document and refer to an undefined `team`.
- The other redirect handlers are left out.
  - `GetTeamPageUrl` (`frclinks.py:147-152`) appends the tpid that
    `GetTpid` answers, which `Resolve` models, to a constant URL. When there
    is no tpid it returns None, and `TeamPage` renders the no-team
    template.
  - `EventAgendaPage` (`frclinks.py:380-386`) formats `GetYear` and
    `event.upper()` of `GetEvent` into a PDF path. Upper-casing is not
    modelled.
  - `TeamChiefDelphiMediaPage` (`frclinks.py:266-272`) appends the last
    number match, which `LastNumber` models, to a constant URL.
  - `AreaTeamListPage` uses `areaRe` (`frclinks.py:49`), which is not
    modelled.
  - The fixed-URL pages take nothing from the path.
- Each handler's `findall(path)[-1]` raises IndexError when the path has
  no match. The commented-out route patterns would only send matching
  paths, so the handler functions require a match
  (`EventTokens(path) != []`, `TeamYearMatches(path) != []`,
  `NumberRuns(path) != []`) and the error path is not modelled.
- Team.Directory.GetOldTeams: requires `year` and `start` to be digit
  strings, so the ValueError of `int(start)` (`team.py:132`) and of
  `int(year)` (`team.py:147`) on anything else is not modelled.
  `ScrapeTeamsPage` passes the `\d{4}` and `\d+` groups of `scrapeTeamsRe`
  (`frclinks.py:61`, `547`) to `ScrapeTeams`, which `team.py` does not
  define; those arguments fit `GetOldTeams(year, start)`.
- `time.time()` is a float. The model uses integer seconds: `now` for the
  check, and `finished` for the time stored after a scrape.
- FrcLinks.App.GetTpid: the time is read after the scrape, but its
  relation to `now` is not constrained.
- Concurrent requests are left out. Each operation runs alone on the
  stores.
- `ScrapeTeam` requests pages until one answers or lacks `Next ->`. The
  listing is a finite sequence followed by empty pages, so every run ends.
  An endless listing is not modelled.

## Findings

| source | as written | input that shows it | evidently intended | confidence | as-written member | corrected member |
|---|---|---|---|---|---|---|
| frclinks.py:82-92 | the second column `eventList[j]` is read without checking `j < len(eventList)` | an `events.json` holding exactly one event: c = 1, i = 0, j = 1, and `eventList[1]` raises IndexError once the imports resolve | guard the second column as the third one is guarded | not executed | EventTable.BuildTableAsWritten | EventTable.BuildTable |
