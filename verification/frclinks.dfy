/**
 * frclinks.py's module state: the `lastScrapeTime` global and GetTpid,
 * which reads the team number from the request path, asks the directory,
 * and scrapes the current season's listing at most once an hour when the
 * directory has no answer. Clock readings are parameters.
 */
module FrcLinks {
  import opened Wrappers
  import opened Digits
  import opened TeamSpec
  import opened PathParsing
  import Team
  import Links

  /** Seconds that must pass after a scrape before GetTpid scrapes again. */
  const ScrapeInterval: int := 3600

  /** Whether a lookup that found nothing may scrape at time `now`. */
  predicate MayScrape(last: Option<int>, now: int) {
    last.None? || now - last.value > ScrapeInterval
  }

  /** The outcome of one GetTpid: new stores, new `lastScrapeTime`, the answer, pages fetched. */
  datatype Visit = Visit(stores: Stores, last: Option<int>, tpid: Option<string>, fetched: nat)

  /**
   * GetTpid on values: look the team up; if that gives nothing and the last
   * scrape is over an hour old (or there was none), scrape the listing and
   * record the time the scrape finished.
   */
  function Resolve(s: Stores, last: Option<int>, team: string, now: int, finished: int, listing: seq<Page>): (v: Visit)
    requires IsDigits(team) && WellFormedListing(listing)
    ensures v.fetched > 0 <==> !Truthy(Lookup(s, team).tpid) && MayScrape(last, now)
    ensures v.fetched == 0 ==> v.last == last && v.tpid == Lookup(s, team).tpid
    ensures v.fetched > 0 ==> v.last == Some(finished)
  {
    var looked := Lookup(s, team);
    if !Truthy(looked.tpid) && MayScrape(last, now) then
      var run := ScrapeFrom(looked.stores, listing, team, 0);
      ScrapeEndsAtFirstStop(looked.stores, listing, team, 0);
      Visit(run.stores, Some(finished), run.tpid, run.fetched)
    else
      Visit(looked.stores, last, looked.tpid, 0)
  }

  /** One request to a team handler: the team number, and the clock before and after a scrape. */
  datatype Request = Request(team: string, now: int, finished: int)

  predicate WellFormedRequests(reqs: seq<Request>) {
    forall i :: 0 <= i < |reqs| ==> IsDigits(reqs[i].team)
  }

  /**
   * GetTpid over a sequence of requests, one after the other: the final
   * stores and `lastScrapeTime`, the last answer, and the pages fetched in all.
   */
  function Visits(s: Stores, last: Option<int>, reqs: seq<Request>, listing: seq<Page>): Visit
    requires WellFormedRequests(reqs) && WellFormedListing(listing)
    decreases |reqs|
  {
    if reqs == [] then Visit(s, last, None, 0)
    else
      var v := Resolve(s, last, reqs[0].team, reqs[0].now, reqs[0].finished, listing);
      if |reqs| == 1 then v
      else
        var rest := Visits(v.stores, v.last, reqs[1..], listing);
        Visit(rest.stores, rest.last, rest.tpid, v.fetched + rest.fetched)
  }

  /** While the last scrape finished at most an hour ago, no request scrapes and the time is kept. */
  lemma {:induction false} NoScrapeWithinHour(s: Stores, f: int, reqs: seq<Request>, listing: seq<Page>)
    requires WellFormedRequests(reqs) && WellFormedListing(listing)
    requires forall i :: 0 <= i < |reqs| ==> reqs[i].now <= f + ScrapeInterval
    ensures Visits(s, Some(f), reqs, listing).fetched == 0
    ensures Visits(s, Some(f), reqs, listing).last == Some(f)
    decreases |reqs|
  {
    if |reqs| > 1 {
      var v := Resolve(s, Some(f), reqs[0].team, reqs[0].now, reqs[0].finished, listing);
      NoScrapeWithinHour(v.stores, f, reqs[1..], listing);
    }
  }

  /**
   * Rate limit: after a visit that scraped, no visit up to an hour after the
   * scrape finished scrapes again, whatever teams the visits ask for and
   * however many there are.
   */
  lemma AtMostOneScrapePerHour(s: Stores, last: Option<int>, team: string, now: int, finished: int,
                               reqs: seq<Request>, listing: seq<Page>)
    requires IsDigits(team) && WellFormedRequests(reqs) && WellFormedListing(listing)
    requires Resolve(s, last, team, now, finished, listing).fetched > 0
    requires forall i :: 0 <= i < |reqs| ==> reqs[i].now <= finished + ScrapeInterval
    ensures var v := Resolve(s, last, team, now, finished, listing);
      Visits(v.stores, v.last, reqs, listing).fetched == 0
  {
    var v := Resolve(s, last, team, now, finished, listing);
    NoScrapeWithinHour(v.stores, finished, reqs, listing);
  }

  /**
   * A team that is not stored but appears once on the pages up to the one
   * that lists it is answered by
   * the scrape; the next visit answers the same tpid from the cache, at any
   * time, without fetching anything.
   */
  lemma ScrapedTeamIsCached(s: Stores, last: Option<int>, team: string, now: int, finished: int,
                            later: int, finishedLater: int, listing: seq<Page>, j: nat, i: nat)
    requires IsDigits(team) && CacheAgrees(s) && MayScrape(last, now)
    requires WellFormedListing(listing) && j < |listing| && i < |listing[j].entries|
    requires listing[j].entries[i].number == team
    requires ParseDecimal(team) !in s.teams
    requires OnlyAt(listing, ParseDecimal(team), j, i)
    requires forall j' :: 0 <= j' < j ==> listing[j'].hasNext
    ensures var v1 := Resolve(s, last, team, now, finished, listing);
      v1.tpid == Some(listing[j].entries[i].tpid) && v1.fetched == j + 1 &&
      var v2 := Resolve(v1.stores, v1.last, team, later, finishedLater, listing);
      v2 == Visit(v1.stores, v1.last, v1.tpid, 0)
  {
    var looked := Lookup(s, team);
    LookupAgreesWithStore(s, team);
    LookupOnlyAdds(s, team);
    ScrapeThenLookup(looked.stores, listing, team, j, i);
    var t := listing[j].entries[i].tpid;
    var run := ScrapeFrom(looked.stores, listing, team, 0);
    LookupRepeat(run.stores, team);
    ScrapeFindsFrom(looked.stores, listing, team, j, i, 0);
  }

  class App {
    /** When the last scrape finished; None before the first one. */
    var lastScrapeTime: Option<int>
    const dir: Team.Directory

    constructor (dir: Team.Directory)
      ensures this.dir == dir && lastScrapeTime == None
    {
      this.dir := dir;
      lastScrapeTime := None;
    }

    /**
     * GetTpid (frclinks.py:133-145). `now` is the clock at the check and
     * `finished` the clock after the scrape; `listing` is what the listing
     * pages for the default season serve. `requests` lists the pages fetched.
     */
    method GetTpid(path: string, now: int, finished: int, listing: seq<Page>)
      returns (tpid: Option<string>, ghost requests: seq<string>)
      requires NumberRuns(path) != []
      requires dir.Valid() && WellFormedListing(listing)
      modifies this, dir
      ensures dir.Valid()
      ensures var v := Resolve(old(dir.Current()), old(lastScrapeTime), LastNumber(path), now, finished, listing);
        dir.Current() == v.stores && lastScrapeTime == v.last && tpid == v.tpid &&
        requests == ListingUrls(Links.DefaultYear, v.fetched)
      ensures dir.oldTeams == old(dir.oldTeams) && dir.oldCache == old(dir.oldCache)
    {
      var team := LastNumber(path);
      tpid := dir.LookupTeam(team);
      requests := [];
      if !Truthy(tpid) && (lastScrapeTime.None? || now - lastScrapeTime.value > ScrapeInterval) {
        tpid, requests := dir.ScrapeTeam(team, Links.DefaultYear, listing);
        lastScrapeTime := Some(finished);
      }
    }
  }
}
