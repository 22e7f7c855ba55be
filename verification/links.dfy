/**
 * The path-to-URL rules of frclinks.py: the year and event read from a
 * request path, the division and championship renamings, the year-dependent
 * choice between the frc-events site and the legacy www2 pages, and the
 * routing choice of Redir.
 */
module Links {
  import opened Digits
  import opened PathParsing
  import TeamSpec

  /** The season assumed when a path carries no four-digit year. */
  const DefaultYear: string := "2018"

  const FirstUrl: string := "http://www.firstinspires.org/"
  const FrcUrl: string := FirstUrl + "robotics/frc/"
  const FrcEventsUrl: string := "http://frc-events.firstinspires.org/"
  const LegacyUrl: string := "http://www2.usfirst.org/"
  const TbaUrl: string := "https://www.thebluealliance.com/"
  const MyFirstUrl: string := "https://my.firstinspires.org/"
  const TeamListQuery: string :=
    MyFirstUrl + "myarea/index.lasso?" + TeamListParams

  const TeamListParams: string := "page=teamlist" + "&event_type=FRC" + "&sort_teams=number"

  // ---------------------------------------------------------------------------
  // GetYear and GetEvent
  // ---------------------------------------------------------------------------

  /** GetYear: the last four-digit match in the path, else the default season. */
  function GetYear(path: string): (year: string)
    ensures |year| == 4 && IsDigits(year)
  {
    var ys := YearMatches(path);
    if |ys| > 0 then ys[|ys| - 1] else DefaultYear
  }

  /** The thirteen abbreviations GetEvent expands, as a table. */
  const EventAliases: map<string, string> := map[
    "arc" := "archimedes", "cars" := "carson", "carv" := "carver",
    "cur" := "curie", "dal" := "daly", "dar" := "darwin",
    "gal" := "galileo", "hop" := "hopper", "new" := "newton",
    "roe" := "roebling", "tes" := "tesla", "tur" := "turing",
    "ein" := "einstein"]

  /** GetEvent's chain of comparisons on the extracted code. */
  function ExpandEvent(code: string): string {
    if code == "arc" then "archimedes"
    else if code == "cars" then "carson"
    else if code == "carv" then "carver"
    else if code == "cur" then "curie"
    else if code == "dal" then "daly"
    else if code == "dar" then "darwin"
    else if code == "gal" then "galileo"
    else if code == "hop" then "hopper"
    else if code == "new" then "newton"
    else if code == "roe" then "roebling"
    else if code == "tes" then "tesla"
    else if code == "tur" then "turing"
    else if code == "ein" then "einstein"
    else code
  }

  /** GetEvent: the last event token of the path, expanded. */
  function GetEvent(path: string): string
    requires EventTokens(path) != []
  {
    ExpandEvent(LastEventToken(path))
  }

  /** The comparison chain is the alias table. */
  lemma ExpandEventByTable(code: string)
    ensures ExpandEvent(code) == if code in EventAliases then EventAliases[code] else code
  {
  }

  /** GetEvent changes exactly the thirteen listed codes. */
  lemma ExpandEventChanges(code: string)
    ensures ExpandEvent(code) != code <==> code in EventAliases
  {
  }

  /** A path of the routed shape `.../<code>/<year>...` yields that event and that year. */
  lemma EventPathFields(p: string, code: string, year: string, t: string)
    requires IsEventCode(code)
    requires |year| == 4 && IsDigits(year)
    requires NoLetters(t) && NoDigits(t)
    ensures EventTokens(p + "/" + code + "/" + year + t) != []
    ensures GetEvent(p + "/" + code + "/" + year + t) == ExpandEvent(code)
    ensures GetYear(p + "/" + code + "/" + year + t) == year
  {
    var u := year + t;
    var tail := "/" + u;
    assert "/" == ['/'];
    assert tail[0] == '/';
    assert NoLetters(tail) by {
      forall i | 0 <= i < |tail| ensures !IsLetter(tail[i]) {
        if 1 <= i < 5 {
          assert tail[i] == year[i - 1];
        } else if i >= 5 {
          assert tail[i] == t[i - 5];
        }
      }
    }
    Regroup(p + "/" + code + "/", year, t);
    Regroup(p + "/" + code, "/", u);
    Regroup(p + "/", code, tail);
    LastEventTokenOfPath(p, '/', code, tail);
    YearMatchesSplit(p + "/" + code, '/', u);
    assert u[..4] == year && u[4..] == t;
    YearMatchesNone(t);
  }

  /**
   * On `<p>/<code><t>` with no digits outside the code, GetEvent is the
   * expanded code and GetYear is the default season.
   */
  lemma EventPathFieldsNoYear(p: string, code: string, t: string)
    requires NoDigits(p) && IsEventCode(code)
    requires NoLetters(t) && NoDigits(t)
    ensures EventTokens(p + "/" + code + t) != []
    ensures GetEvent(p + "/" + code + t) == ExpandEvent(code)
    ensures GetYear(p + "/" + code + t) == DefaultYear
  {
    assert "/" == ['/'];
    Regroup(p + "/", code, t);
    LastEventTokenOfPath(p, '/', code, t);
    YearMatchesSplit(p, '/', code + t);
    YearMatchesNone(p + "/");
    YearMatchesOfCode(code, t);
  }

  /** A path without digits falls back to the default season. */
  lemma YearDefault(path: string)
    requires NoDigits(path)
    ensures GetYear(path) == DefaultYear
  {
    YearMatchesNone(path);
  }

  /**
   * Matches do not overlap: a run of five to seven digits holds one match,
   * its first four digits, so that run's season is its first four digits.
   */
  lemma YearOverlap(p: string, c: char, d: string, t: string)
    requires !IsDigit(c) && AllDigits(d) && 4 <= |d| < 8 && NoDigits(t)
    ensures GetYear(p + [c] + d + t) == d[..4]
  {
    Regroup(p + [c], d, t);
    YearMatchesSplit(p, c, d + t);
    assert (d + t)[..4] == d[..4] && (d + t)[4..] == d[4..] + t;
    YearMatchesShortRun(d[4..], t);
  }

  // ---------------------------------------------------------------------------
  // Championship divisions
  // ---------------------------------------------------------------------------

  const TexasDivisions: seq<string> := ["carver", "galileo", "hopper", "newton", "roebling", "turing"]
  const MissouriDivisions: seq<string> := ["archimedes", "carson", "curie", "daly", "darwin", "tesla"]

  /** EventTeamListPage's event parameter: a division is named under its championship. */
  function TeamListEvent(event: string): (r: string)
    ensures |event| <= |r| && r[|r| - |event|..] == event
  {
    if event in TexasDivisions then "cmptx&division=" + event
    else if event in MissouriDivisions then "cmpmo&division=" + event
    else event
  }

  function EventTeamListUrl(year: string, event: string): string {
    TeamListQuery + "&year=" + year + "&event=" + TeamListEvent(event)
  }

  /** EventTheBlueAlliancePage's event key: a division name cut back to its abbreviation. */
  function TbaEventKey(event: string): string {
    if event in ["archimedes", "curie", "daly", "darwin", "galileo", "hopper",
                 "newton", "roebling", "tesla", "turing"] then event[..3]
    else if event in ["carson", "carver"] then event[..4]
    else event
  }

  /** The Blue Alliance key is always a prefix of the event name. */
  lemma TbaKeyIsPrefix(event: string)
    ensures |TbaEventKey(event)| <= |event| && TbaEventKey(event) == event[..|TbaEventKey(event)|]
  {
  }

  function EventTbaUrl(year: string, event: string): string {
    TbaUrl + "event/" + year + TbaEventKey(event)
  }

  /** Every abbreviation other than "ein" names a division of one of the two championships. */
  lemma AliasesAreDivisions(a: string)
    requires a in EventAliases && a != "ein"
    ensures ExpandEvent(a) in TexasDivisions || ExpandEvent(a) in MissouriDivisions
  {
  }

  /**
   * Each division abbreviation survives the round trip through GetEvent and
   * the Blue Alliance event key.
   */
  lemma DivisionRoundTrip(a: string)
    requires a in EventAliases && a != "ein"
    ensures TbaEventKey(ExpandEvent(a)) == a
  {
    ExpandEventByTable(a);
    var d := EventAliases[a];
    if |a| == 3 {
      assert d in ["archimedes", "curie", "daly", "darwin", "galileo", "hopper",
                   "newton", "roebling", "tesla", "turing"];
    } else {
      assert d in ["carson", "carver"];
    }
  }

  /** "ein" expands to "einstein", which keeps its full name in both URLs. */
  lemma EinsteinStays()
    ensures ExpandEvent("ein") == "einstein"
    ensures TbaEventKey("einstein") == "einstein"
    ensures TeamListEvent("einstein") == "einstein"
  {
  }

  /** The abbreviations of the Texas and of the Missouri divisions. */
  const TexasAliases: seq<string> := ["carv", "gal", "hop", "new", "roe", "tur"]
  const MissouriAliases: seq<string> := ["arc", "cars", "cur", "dal", "dar", "tes"]

  /**
   * From abbreviation to team list: GetEvent expands a Texas abbreviation to a
   * division that the team list files under "cmptx", a Missouri one under
   * "cmpmo"; "ein" is neither.
   */
  lemma AliasTeamList(a: string)
    requires a in EventAliases
    ensures a in TexasAliases || a in MissouriAliases || a == "ein"
    ensures a in TexasAliases ==> TeamListEvent(ExpandEvent(a)) == "cmptx&division=" + ExpandEvent(a)
    ensures a in MissouriAliases ==> TeamListEvent(ExpandEvent(a)) == "cmpmo&division=" + ExpandEvent(a)
  {
    ExpandEventByTable(a);
  }

  /** Any event outside the twelve divisions keeps its own name in both URLs. */
  lemma NonDivisionUnchanged(event: string)
    requires event !in TexasDivisions && event !in MissouriDivisions
    ensures TeamListEvent(event) == event && TbaEventKey(event) == event
  {
  }

  // ---------------------------------------------------------------------------
  // Year-dependent event pages
  // ---------------------------------------------------------------------------

  /** The first season served by the frc-events site. */
  function IsModern(year: string): bool
    requires AllDigits(year)
  {
    ParseDecimal(year) >= 2006
  }

  /** The championship was called "einstein" in 2005, 2006 and 2008. */
  function ChampionshipEvent(event: string, year: string): string {
    if event == "cmp" && (year == "2005" || year == "2006" || year == "2008") then "einstein"
    else event
  }

  function LegacyEventUrl(year: string, event: string): string {
    LegacyUrl + year + "comp/Events/" + event
  }

  function ModernEventUrl(year: string, event: string): string {
    FrcEventsUrl + year + "/" + event
  }

  function EventScheduleUrl(year: string, event: string): string
    requires AllDigits(year)
  {
    if IsModern(year) then ModernEventUrl(year, event) + "/qualifications"
    else LegacyEventUrl(year, event) + "/ScheduleQual.html"
  }

  function EventMatchResultsUrl(year: string, event: string): string
    requires AllDigits(year)
  {
    var e := ChampionshipEvent(event, year);
    if IsModern(year) then ModernEventUrl(year, e) + "/qualifications"
    else if year == "2004" then LegacyEventUrl(year, e) + "/matches.html"
    else if year == "2003" then LegacyEventUrl(year, e) + "/matchsum.html"
    else LegacyEventUrl(year, e) + "/matchresults.html"
  }

  function EventRankingsUrl(year: string, event: string): string
    requires AllDigits(year)
  {
    if IsModern(year) then ModernEventUrl(year, event) + "/rankings"
    else LegacyEventUrl(year, event) + "/rankings.html"
  }

  function EventAwardsUrl(year: string, event: string): string
    requires AllDigits(year)
  {
    var e := ChampionshipEvent(event, year);
    if IsModern(year) then ModernEventUrl(year, e) + "/awards"
    else LegacyEventUrl(year, e) + "/awards.html"
  }

  /** Only "cmp" is renamed, and only in the three listed seasons. */
  lemma ChampionshipRenaming(event: string, year: string)
    ensures ChampionshipEvent(event, year) != event <==>
            event == "cmp" && year in {"2005", "2006", "2008"}
  {
  }

  /** Seasons where the match-results page is the schedule page. */
  lemma MatchResultsIsSchedule(year: string, event: string)
    requires AllDigits(year)
    ensures EventMatchResultsUrl(year, event) == EventScheduleUrl(year, event) <==>
            IsModern(year) && ChampionshipEvent(event, year) == event
  {
    var e := ChampionshipEvent(event, year);
    if IsModern(year) && e != event {
      var a := ModernEventUrl(year, e) + "/qualifications";
      var b := ModernEventUrl(year, event) + "/qualifications";
      assert |a| != |b|;
    } else if !IsModern(year) {
      var a := EventMatchResultsUrl(year, event);
      var b := EventScheduleUrl(year, event);
      assert a[|a| - 6] != b[|b| - 6];
    }
  }

  // ---------------------------------------------------------------------------
  // Team pages on The Blue Alliance, documents
  // ---------------------------------------------------------------------------

  /** TeamTheBlueAlliancePage: the last (team, year) match; an absent year is the default season. */
  function TeamTbaUrl(path: string): (url: string)
    requires TeamYearMatches(path) != []
  {
    var m := TeamYearMatches(path)[|TeamYearMatches(path)| - 1];
    var year := if |m.1| == 0 then DefaultYear else m.1;
    TbaUrl + "team/" + m.0 + "/" + year
  }

  /** `/tba/<team>/<year>` names that team in that season, `/tba/<team>` in the default one. */
  lemma TeamTbaOfPath(p: string, team: string, year: string, t: string)
    requires NoDigits(p) && IsDigits(team) && NoDigits(t)
    requires |year| == 4 && IsDigits(year)
    ensures TeamYearMatches(p + team + "/" + year + t) != []
    ensures TeamTbaUrl(p + team + "/" + year + t) == TbaUrl + "team/" + team + "/" + year
    ensures TeamYearMatches(p + team + t) != []
    ensures TeamTbaUrl(p + team + t) == TbaUrl + "team/" + team + "/" + DefaultYear
  {
    TeamYearOfPath(p, team, year, t);
    TeamOnlyOfPath(p, team, t);
  }

  /** The documentsYears table of DocumentsPage. */
  const DocumentsYears: map<string, string> := map[
    "default" := FirstUrl + "node/5331",
    DefaultYear := FrcUrl + "game-manual-and-qa-system"]

  function DocumentsUrl(year: string): string {
    if year in DocumentsYears then DocumentsYears[year] else DocumentsYears["default"]
  }

  /** A path yields the current manual exactly when its season is the default one. */
  lemma DocumentsOfPath(path: string)
    ensures DocumentsUrl(GetYear(path)) == FrcUrl + "game-manual-and-qa-system" <==>
            GetYear(path) == DefaultYear
  {
    var year := GetYear(path);
    assert year != "default" by {
      assert IsDigit(year[0]) && !IsDigit("default"[0]);
    }
    assert |DocumentsYears["default"]| != |DocumentsYears[DefaultYear]|;
  }

  // ---------------------------------------------------------------------------
  // Redir
  // ---------------------------------------------------------------------------

  /**
   * What Redir answers: a redirect to `/usfirst.org?url=<url>` (whose page
   * forwards the browser to `url` with a usfirst.org Referer), or the
   * redirect template rendered with `url`.
   */
  datatype Response = ReferrerHop(url: string) | RenderRedirect(url: string)

  /** The `n` characters of `s` from position `i`. */
  function Window(s: string, i: nat, n: nat): string
    requires i + n <= |s|
  {
    s[i..i + n]
  }

  /** Python's `sub in s` on strings. */
  predicate Contains(s: string, sub: string) {
    exists i: nat :: i + |sub| <= |s| && Window(s, i, |sub|) == sub
  }

  const LegacyMyArea: string := "my.usfirst.org/myarea"

  function Redir(url: string): (r: Response)
    ensures r.url == url
  {
    if Contains(url, LegacyMyArea) then ReferrerHop(url) else RenderRedirect(url)
  }

  /** Every URL under `https://my.usfirst.org/myarea` takes the referrer hop. */
  lemma MyAreaHops(url: string)
    requires |url| >= |TeamSpec.MyAreaRoot| && url[..|TeamSpec.MyAreaRoot|] == TeamSpec.MyAreaRoot
    ensures Redir(url).ReferrerHop?
  {
    var root := TeamSpec.MyAreaRoot;
    assert Window(url, 8, |LegacyMyArea|) == LegacyMyArea by {
      assert url[8..29] == root[8..29];
      forall i | 0 <= i < 21 ensures root[8..29][i] == LegacyMyArea[i] {
      }
    }
  }

  /** The listing pages ScrapeTeam and GetOldTeams request would take the hop. */
  lemma ListingUrlHops(year: string, skip: nat)
    ensures Redir(TeamSpec.TeamListUrl(year, skip)).ReferrerHop?
  {
    var url := TeamSpec.TeamListUrl(year, skip);
    var root := TeamSpec.MyAreaRoot;
    assert url[..|root|] == root;
    MyAreaHops(url);
  }

  // ---------------------------------------------------------------------------
  // The page handlers: request path to response
  // ---------------------------------------------------------------------------

  function EventTeamListPage(path: string): Response
    requires EventTokens(path) != []
  {
    Redir(EventTeamListUrl(GetYear(path), GetEvent(path)))
  }

  function EventSchedulePage(path: string): Response
    requires EventTokens(path) != []
  {
    Redir(EventScheduleUrl(GetYear(path), GetEvent(path)))
  }

  function EventMatchResultsPage(path: string): Response
    requires EventTokens(path) != []
  {
    Redir(EventMatchResultsUrl(GetYear(path), GetEvent(path)))
  }

  function EventRankingsPage(path: string): Response
    requires EventTokens(path) != []
  {
    Redir(EventRankingsUrl(GetYear(path), GetEvent(path)))
  }

  function EventAwardsPage(path: string): Response
    requires EventTokens(path) != []
  {
    Redir(EventAwardsUrl(GetYear(path), GetEvent(path)))
  }

  function EventTheBlueAlliancePage(path: string): Response
    requires EventTokens(path) != []
  {
    Redir(EventTbaUrl(GetYear(path), GetEvent(path)))
  }

  function TeamTheBlueAlliancePage(path: string): Response
    requires TeamYearMatches(path) != []
  {
    Redir(TeamTbaUrl(path))
  }

  function DocumentsPage(path: string): Response {
    Redir(DocumentsUrl(GetYear(path)))
  }

  /**
   * On a routed path `.../<code>/<year>`, every event page answers with the
   * URL for the expanded event in that season.
   */
  lemma EventPagesOfPath(p: string, code: string, year: string, t: string)
    requires IsEventCode(code)
    requires |year| == 4 && IsDigits(year)
    requires NoLetters(t) && NoDigits(t)
    ensures var path := p + "/" + code + "/" + year + t;
      var event := ExpandEvent(code);
      EventTokens(path) != [] &&
      EventTeamListPage(path).url == EventTeamListUrl(year, event) &&
      EventSchedulePage(path).url == EventScheduleUrl(year, event) &&
      EventMatchResultsPage(path).url == EventMatchResultsUrl(year, event) &&
      EventRankingsPage(path).url == EventRankingsUrl(year, event) &&
      EventAwardsPage(path).url == EventAwardsUrl(year, event) &&
      EventTheBlueAlliancePage(path).url == EventTbaUrl(year, event)
  {
    EventPathFields(p, code, year, t);
  }

  /** On `<p>/<code><t>` without a year, each event handler answers the URL for the default season. */
  lemma EventPagesOfPathNoYear(p: string, code: string, t: string)
    requires NoDigits(p) && IsEventCode(code)
    requires NoLetters(t) && NoDigits(t)
    ensures var path := p + "/" + code + t;
      EventTokens(path) != [] && GetYear(path) == DefaultYear
    ensures var path := p + "/" + code + t;
      var event := ExpandEvent(code);
      EventTokens(path) != [] &&
      EventTeamListPage(path).url == EventTeamListUrl(DefaultYear, event) &&
      EventSchedulePage(path).url == EventScheduleUrl(DefaultYear, event) &&
      EventMatchResultsPage(path).url == EventMatchResultsUrl(DefaultYear, event) &&
      EventRankingsPage(path).url == EventRankingsUrl(DefaultYear, event) &&
      EventAwardsPage(path).url == EventAwardsUrl(DefaultYear, event) &&
      EventTheBlueAlliancePage(path).url == EventTbaUrl(DefaultYear, event)
  {
    EventPathFieldsNoYear(p, code, t);
  }

  // ---------------------------------------------------------------------------
  // The site of each event page
  // ---------------------------------------------------------------------------

  predicate StartsWith(s: string, prefix: string) {
    |prefix| <= |s| && s[..|prefix|] == prefix
  }

  lemma StartsWithConcat(a: string, b: string, c: string)
    ensures StartsWith(a + b + c, a + b)
  {
    assert (a + b + c)[..|a + b|] == a + b;
  }

  lemma StartsWithShorter(s: string, a: string, b: string)
    requires StartsWith(s, a + b)
    ensures StartsWith(s, a)
  {
    assert s[..|a|] == (a + b)[..|a|];
  }

  /** From 2006 on, the four event pages of a season lie under its frc-events directory. */
  lemma ModernSite(year: string, event: string)
    requires AllDigits(year) && IsModern(year)
    ensures var site := FrcEventsUrl + year + "/";
      StartsWith(EventScheduleUrl(year, event), site) &&
      StartsWith(EventRankingsUrl(year, event), site) &&
      StartsWith(EventMatchResultsUrl(year, event), site) &&
      StartsWith(EventAwardsUrl(year, event), site) &&
      StartsWith(EventScheduleUrl(year, event), FrcEventsUrl)
  {
    var site := FrcEventsUrl + year + "/";
    var e := ChampionshipEvent(event, year);
    StartsWithConcat(site, event, "/qualifications");
    StartsWithConcat(site, event, "/rankings");
    StartsWithConcat(site, e, "/qualifications");
    StartsWithConcat(site, e, "/awards");
    StartsWithShorter(EventScheduleUrl(year, event), FrcEventsUrl + year, "/");
    StartsWithShorter(EventScheduleUrl(year, event), FrcEventsUrl, year);
  }

  /** Before 2006, the schedule, rankings and awards pages lie under the season's legacy www2 directory. */
  lemma LegacySite(year: string, event: string)
    requires AllDigits(year) && !IsModern(year)
    ensures var site := LegacyUrl + year + "comp/Events/";
      StartsWith(EventScheduleUrl(year, event), site) &&
      StartsWith(EventRankingsUrl(year, event), site) &&
      StartsWith(EventAwardsUrl(year, event), site) &&
      !StartsWith(EventScheduleUrl(year, event), FrcEventsUrl)
  {
    var site := LegacyUrl + year + "comp/Events/";
    StartsWithConcat(site, event, "/ScheduleQual.html");
    StartsWithConcat(site, event, "/rankings.html");
    StartsWithConcat(site, ChampionshipEvent(event, year), "/awards.html");
    var url := EventScheduleUrl(year, event);
    StartsWithShorter(url, LegacyUrl + year, "comp/Events/");
    StartsWithShorter(url, LegacyUrl, year);
    assert url[7] == LegacyUrl[7] != FrcEventsUrl[7];
  }

  /** Before 2006, the match-results page, whichever of its three names, lies in the same directory. */
  lemma LegacyResultsSite(year: string, event: string)
    requires AllDigits(year) && !IsModern(year)
    ensures StartsWith(EventMatchResultsUrl(year, event), LegacyUrl + year + "comp/Events/")
  {
    var site := LegacyUrl + year + "comp/Events/";
    var e := ChampionshipEvent(event, year);
    if year == "2004" {
      StartsWithConcat(site, e, "/matches.html");
    } else if year == "2003" {
      StartsWithConcat(site, e, "/matchsum.html");
    } else {
      StartsWithConcat(site, e, "/matchresults.html");
    }
  }

  /**
   * For any request path, the schedule, rankings, match-results and awards
   * pages all lie under one directory of one site for the path's season:
   * frc-events exactly when that season is 2006 or later, the legacy www2
   * pages otherwise.
   */
  lemma EventPagesShareSite(path: string)
    requires EventTokens(path) != []
    ensures var year := GetYear(path);
      var site := if IsModern(year) then FrcEventsUrl + year + "/" else LegacyUrl + year + "comp/Events/";
      StartsWith(EventSchedulePage(path).url, site) &&
      StartsWith(EventRankingsPage(path).url, site) &&
      StartsWith(EventMatchResultsPage(path).url, site) &&
      StartsWith(EventAwardsPage(path).url, site) &&
      (StartsWith(EventSchedulePage(path).url, FrcEventsUrl) <==> IsModern(year))
  {
    var year := GetYear(path);
    if IsModern(year) {
      ModernSite(year, GetEvent(path));
    } else {
      LegacySite(year, GetEvent(path));
      LegacyResultsSite(year, GetEvent(path));
    }
  }

  // ---------------------------------------------------------------------------
  // Which handlers render their URL directly
  // ---------------------------------------------------------------------------

  predicate NoDot(s: string) {
    forall i :: 0 <= i < |s| ==> s[i] != '.'
  }

  /**
   * A '.' at `j` cannot be the third character of "my.usfirst.org/myarea":
   * it is followed by a character other than 'u', or it has two characters
   * before it and the first of them is not 'm'. Both tests look only at
   * characters in `s`, so they survive concatenation.
   */
  predicate DotSafeAt(s: string, j: nat)
    requires j < |s|
  {
    s[j] == '.' ==> j + 1 < |s| && (s[j + 1] != 'u' || (2 <= j && s[j - 2] != 'm'))
  }

  predicate DotsSafe(s: string) {
    forall j: nat :: j < |s| ==> DotSafeAt(s, j)
  }

  lemma NoDotSafe(s: string)
    requires NoDot(s)
    ensures DotsSafe(s)
  {
  }

  lemma DotsSafeConcat(a: string, b: string)
    requires DotsSafe(a) && DotsSafe(b)
    ensures DotsSafe(a + b)
  {
    var s := a + b;
    forall j: nat | j < |s| ensures DotSafeAt(s, j) {
      if j < |a| {
        assert DotSafeAt(a, j);
      } else {
        assert DotSafeAt(b, j - |a|);
      }
    }
  }

  /** A URL whose every '.' is safe cannot contain the legacy myarea address, so Redir renders it. */
  lemma DotsSafeRenders(url: string)
    requires DotsSafe(url)
    ensures Redir(url).RenderRedirect?
  {
    forall i: nat | i + |LegacyMyArea| <= |url|
      ensures Window(url, i, |LegacyMyArea|) != LegacyMyArea
    {
      assert DotSafeAt(url, i + 2);
      if url[i + 2] == '.' {
        assert Window(url, i, |LegacyMyArea|)[0] == url[i];
        assert Window(url, i, |LegacyMyArea|)[3] == url[i + 3];
      }
    }
  }

  // The fixed parts of the handlers' URLs, one literal at a time.

  lemma FirstUrlSafe() ensures DotsSafe(FirstUrl) { }
  lemma FrcEventsUrlSafe() ensures DotsSafe(FrcEventsUrl) { }
  lemma LegacyUrlSafe() ensures DotsSafe(LegacyUrl) { }
  lemma TbaUrlSafe() ensures DotsSafe(TbaUrl) { }
  lemma MyFirstUrlSafe() ensures DotsSafe(MyFirstUrl) { }
  lemma LassoSafe() ensures DotsSafe("myarea/index.lasso?") { }
  lemma HtmlSafe(name: string) requires NoDot(name) ensures DotsSafe(name + ".html") {
    NoDotSafe(name);
    DotsSafeConcat(name, ".html");
  }

  /** GetEvent's result is letters and digits: the path's token, or a division name. */
  lemma EventNoDot(path: string)
    requires EventTokens(path) != []
    ensures NoDot(GetEvent(path))
  {
    var code := LastEventToken(path);
    ExpandEventByTable(code);
    if code in EventAliases {
      AliasesHaveNoDot(code);
    }
  }

  lemma AliasesHaveNoDot(a: string)
    requires a in EventAliases
    ensures NoDot(EventAliases[a])
  {
  }

  lemma ModernBaseSafe(year: string, e: string)
    requires NoDot(year) && NoDot(e)
    ensures DotsSafe(ModernEventUrl(year, e))
  {
    FrcEventsUrlSafe();
    NoDotSafe(year + "/" + e);
    DotsSafeConcat(FrcEventsUrl, year + "/" + e);
    assert ModernEventUrl(year, e) == FrcEventsUrl + (year + "/" + e);
  }

  lemma LegacyBaseSafe(year: string, e: string)
    requires NoDot(year) && NoDot(e)
    ensures DotsSafe(LegacyEventUrl(year, e))
  {
    LegacyUrlSafe();
    NoDotSafe(year + "comp/Events/" + e);
    DotsSafeConcat(LegacyUrl, year + "comp/Events/" + e);
    assert LegacyEventUrl(year, e) == LegacyUrl + (year + "comp/Events/" + e);
  }

  /** An event URL is a safe base followed by a safe page name. */
  lemma EventUrlSafe(year: string, e: string, modern: string, legacy: string)
    requires NoDot(year) && NoDot(e) && NoDot(modern) && DotsSafe(legacy)
    ensures DotsSafe(ModernEventUrl(year, e) + modern)
    ensures DotsSafe(LegacyEventUrl(year, e) + legacy)
  {
    ModernBaseSafe(year, e);
    NoDotSafe(modern);
    DotsSafeConcat(ModernEventUrl(year, e), modern);
    LegacyBaseSafe(year, e);
    DotsSafeConcat(LegacyEventUrl(year, e), legacy);
  }

  lemma ScheduleUrlSafe(year: string, event: string)
    requires AllDigits(year) && NoDot(year) && NoDot(event)
    ensures DotsSafe(EventScheduleUrl(year, event))
  {
    HtmlSafe("/ScheduleQual");
    EventUrlSafe(year, event, "/qualifications", "/ScheduleQual.html");
  }

  lemma RankingsUrlSafe(year: string, event: string)
    requires AllDigits(year) && NoDot(year) && NoDot(event)
    ensures DotsSafe(EventRankingsUrl(year, event))
  {
    HtmlSafe("/rankings");
    EventUrlSafe(year, event, "/rankings", "/rankings.html");
  }

  lemma AwardsUrlSafe(year: string, event: string)
    requires AllDigits(year) && NoDot(year) && NoDot(event)
    ensures DotsSafe(EventAwardsUrl(year, event))
  {
    var e := ChampionshipEvent(event, year);
    assert NoDot(e);
    HtmlSafe("/awards");
    EventUrlSafe(year, e, "/awards", "/awards.html");
  }

  lemma MatchResultsUrlSafe(year: string, event: string)
    requires AllDigits(year) && NoDot(year) && NoDot(event)
    ensures DotsSafe(EventMatchResultsUrl(year, event))
  {
    var e := ChampionshipEvent(event, year);
    assert NoDot(e);
    if year == "2004" {
      HtmlSafe("/matches");
      EventUrlSafe(year, e, "/qualifications", "/matches.html");
    } else if year == "2003" {
      HtmlSafe("/matchsum");
      EventUrlSafe(year, e, "/qualifications", "/matchsum.html");
    } else {
      HtmlSafe("/matchresults");
      EventUrlSafe(year, e, "/qualifications", "/matchresults.html");
    }
  }

  lemma QueryNoDot()
    ensures NoDot(TeamListParams)
  {
    assert NoDot("page=teamlist") && NoDot("&event_type=FRC") && NoDot("&sort_teams=number");
  }

  lemma TeamListEventNoDot(event: string)
    requires NoDot(event)
    ensures NoDot(TeamListEvent(event))
  {
  }

  lemma TbaEventKeyNoDot(event: string)
    requires NoDot(event)
    ensures NoDot(TbaEventKey(event))
  {
  }

  lemma TeamListQuerySafe()
    ensures DotsSafe(TeamListQuery)
  {
    MyFirstUrlSafe();
    LassoSafe();
    DotsSafeConcat(MyFirstUrl, "myarea/index.lasso?");
    QueryNoDot();
    NoDotSafe(TeamListParams);
    DotsSafeConcat(MyFirstUrl + "myarea/index.lasso?", TeamListParams);
  }

  lemma TeamListUrlSafe(year: string, event: string)
    requires NoDot(year) && NoDot(event)
    ensures DotsSafe(EventTeamListUrl(year, event))
  {
    TeamListQuerySafe();
    TeamListEventNoDot(event);
    var tail := "&year=" + year + "&event=" + TeamListEvent(event);
    NoDotSafe(tail);
    DotsSafeConcat(TeamListQuery, tail);
    assert EventTeamListUrl(year, event) == TeamListQuery + tail;
  }

  lemma TbaEventUrlSafe(year: string, event: string)
    requires NoDot(year) && NoDot(event)
    ensures DotsSafe(EventTbaUrl(year, event))
  {
    TbaUrlSafe();
    TbaEventKeyNoDot(event);
    var tail := "event/" + year + TbaEventKey(event);
    NoDotSafe(tail);
    DotsSafeConcat(TbaUrl, tail);
    assert EventTbaUrl(year, event) == TbaUrl + tail;
  }

  /** Every event handler renders its URL directly, whatever the path. */
  lemma EventPagesRender(path: string)
    requires EventTokens(path) != []
    ensures EventTeamListPage(path).RenderRedirect?
    ensures EventSchedulePage(path).RenderRedirect?
    ensures EventMatchResultsPage(path).RenderRedirect?
    ensures EventRankingsPage(path).RenderRedirect?
    ensures EventAwardsPage(path).RenderRedirect?
    ensures EventTheBlueAlliancePage(path).RenderRedirect?
  {
    var year := GetYear(path);
    var event := GetEvent(path);
    EventNoDot(path);
    TeamListUrlSafe(year, event);
    DotsSafeRenders(EventTeamListUrl(year, event));
    ScheduleUrlSafe(year, event);
    DotsSafeRenders(EventScheduleUrl(year, event));
    MatchResultsUrlSafe(year, event);
    DotsSafeRenders(EventMatchResultsUrl(year, event));
    RankingsUrlSafe(year, event);
    DotsSafeRenders(EventRankingsUrl(year, event));
    AwardsUrlSafe(year, event);
    DotsSafeRenders(EventAwardsUrl(year, event));
    TbaEventUrlSafe(year, event);
    DotsSafeRenders(EventTbaUrl(year, event));
  }

  /** The team page on The Blue Alliance is rendered directly. */
  lemma TeamTbaRenders(path: string)
    requires TeamYearMatches(path) != []
    ensures TeamTheBlueAlliancePage(path).RenderRedirect?
  {
    var m := TeamYearMatches(path)[|TeamYearMatches(path)| - 1];
    var year := if |m.1| == 0 then DefaultYear else m.1;
    var tail := "team/" + m.0 + "/" + year;
    NoDotSafe(tail);
    TbaUrlSafe();
    DotsSafeConcat(TbaUrl, tail);
    assert TeamTbaUrl(path) == TbaUrl + tail;
    DotsSafeRenders(TeamTbaUrl(path));
  }

  /** Both manual pages are rendered directly. */
  lemma DocumentsRender(path: string)
    ensures DocumentsPage(path).RenderRedirect?
  {
    FirstUrlSafe();
    NoDotSafe("node/5331");
    NoDotSafe("robotics/frc/game-manual-and-qa-system");
    DotsSafeConcat(FirstUrl, "node/5331");
    DotsSafeConcat(FirstUrl, "robotics/frc/game-manual-and-qa-system");
    assert FrcUrl + "game-manual-and-qa-system" == FirstUrl + "robotics/frc/game-manual-and-qa-system";
    DotsSafeRenders(DocumentsUrl(GetYear(path)));
  }
}
