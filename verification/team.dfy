/**
 * team.py as state: the Team and OldTeam datastore kinds and the "Team" and
 * "OldTeam" memcache namespaces, updated in place by the module's functions.
 * The network is a parameter: ScrapeTeam reads a listing (one Page per
 * offset), GetOldTeams one page of pairs, LookupOldTeamPage the links found
 * on the page a URL serves.
 */
module Team {
  import opened Wrappers
  import opened Digits
  import opened TeamSpec

  /** The datastore's batch limit: each flush deletes at most this many entities. */
  const DeleteBatch: nat := 500

  function Min(a: nat, b: nat): nat {
    if a < b then a else b
  }

  /** Some subset of `s` with `k` elements. */
  ghost function SubsetOfSize(s: set<nat>, k: nat): (b: set<nat>)
    requires k <= |s|
    ensures b <= s && |b| == k
  {
    if k == 0 then {}
    else
      var x :| x in s;
      SubsetOfSize(s - {x}, k - 1) + {x}
  }

  /** Removing `b`'s keys from `m` removes exactly |b| entries and changes no other value. */
  lemma RemoveKeys<V>(m: map<nat, V>, b: set<nat>)
    requires b <= m.Keys
    ensures (m - b).Keys == m.Keys - b
    ensures |m - b| == |m| - |b|
  {
    var r := m - b;
    assert r.Keys == m.Keys - b;
    assert m.Keys == r.Keys + b;
    assert r.Keys !! b;
    assert |m.Keys| == |r.Keys| + |b|;
    assert |m| == |m.Keys| && |r| == |r.Keys|;
  }

  /** What LookupOldTeamPage produces: no stored OldTeam (None), the index error, or the URL. */
  datatype OldTeamPage = UnknownTeam | LinkMissing | Found(url: string)

  class Directory {
    /** Team entities: number -> tpid. */
    var teams: map<nat, nat>
    /** The "Team" memcache namespace: number string -> tpid string or "null". */
    var cache: map<string, string>
    /** OldTeam entities: number -> (year, rank). */
    var oldTeams: map<nat, OldTeam>
    /** The "OldTeam" memcache namespace: number string -> OldTeam entity. */
    var oldCache: map<string, OldTeam>

    function Current(): Stores
      reads this
    {
      Stores(teams, cache)
    }

    predicate OldCacheAgrees()
      reads this
    {
      forall k :: k in oldCache ==>
        IsDigits(k) && ParseDecimal(k) in oldTeams && oldTeams[ParseDecimal(k)] == oldCache[k]
    }

    /** Every cached entity or positive tpid agrees with the datastore. */
    ghost predicate Valid()
      reads this
    {
      CacheAgrees(Current()) && OldCacheAgrees()
    }

    constructor ()
      ensures Valid()
      ensures teams == map[] && cache == map[] && oldTeams == map[] && oldCache == map[]
    {
      teams, cache := map[], map[];
      oldTeams, oldCache := map[], map[];
    }

    /** LookupTeam (team.py:58-76). */
    method LookupTeam(number: string) returns (tpid: Option<string>)
      requires Valid() && IsDigits(number)
      modifies this
      ensures Valid()
      ensures Answer(Current(), tpid) == Lookup(old(Current()), number)
      ensures tpid.Some? ==> ParseDecimal(number) in teams && IsDigits(tpid.value) &&
                             ParseDecimal(tpid.value) == teams[ParseDecimal(number)]
      ensures teams == old(teams) && oldTeams == old(oldTeams) && oldCache == old(oldCache)
    {
      LookupAgreesWithStore(Current(), number);
      var hit := if number in cache then Some(cache[number]) else None;
      if hit == Some(NullMarker) {
        return None;
      }
      if hit.Some? {
        return hit;
      }
      var n := ParseDecimal(number);
      if n in teams {
        tpid := Some(FormatDecimal(teams[n]));
        cache := CacheAdd(cache, number, tpid.value);
        return;
      }
      cache := CacheAdd(cache, number, NullMarker);
      return None;
    }

    /**
     * ScrapeTeam (team.py:78-107): request offsets 0, 250, 500, ... and ingest
     * each page whole; return the page's last match, or None on a page
     * without `Next ->`. `requests` lists the URLs fetched, in order.
     */
    method ScrapeTeam(number: string, year: string, listing: seq<Page>) returns (tpid: Option<string>, ghost requests: seq<string>)
      requires Valid() && WellFormedListing(listing)
      modifies this
      ensures Valid()
      ensures var run := ScrapeFrom(old(Current()), listing, number, 0);
        tpid == run.tpid && Current() == run.stores &&
        requests == ListingUrls(year, run.fetched)
      ensures oldTeams == old(oldTeams) && oldCache == old(oldCache)
    {
      ScrapeAgrees(Current(), listing, number, 0);
      ScrapeKeeps(Current(), listing, number, 0);
      ghost var run := ScrapeFrom(Current(), listing, number, 0);
      var skip: nat := 0;
      ghost var k: nat := 0;
      requests := [];
      while true
        invariant k <= |listing| && skip == PageSize * k
        invariant ScrapeFrom(Current(), listing, number, k) == run
        invariant requests == ListingUrls(year, k)
        invariant oldTeams == old(oldTeams) && oldCache == old(oldCache)
        decreases |listing| - k
      {
        requests := requests + [TeamListUrl(year, skip)];
        var page := PageAt(listing, skip / PageSize);
        assert skip / PageSize == k;
        ghost var before := Current();
        var found := IngestListingPage(page, number);
        assert ScrapeFrom(before, listing, number, k) == run;
        if Truthy(found) {
          return found, requests;
        }
        if !page.hasNext {
          return None, requests;
        }
        skip := skip + PageSize;
        k := k + 1;
      }
    }

    /**
     * The body of ScrapeTeam's loop for one page (team.py:90-102): every pair
     * is ingested, and the last pair whose number equals `number` gives `found`.
     */
    method IngestListingPage(page: Page, number: string) returns (found: Option<string>)
      requires WellFormedEntries(page.entries)
      modifies this
      ensures Current() == IngestPage(old(Current()), page.entries)
      ensures found == LastMatch(page.entries, number, None)
      ensures oldTeams == old(oldTeams) && oldCache == old(oldCache)
    {
      found := None;
      for i := 0 to |page.entries|
        invariant IngestPage(old(Current()), page.entries) == IngestPage(Current(), page.entries[i..])
        invariant LastMatch(page.entries, number, None) == LastMatch(page.entries[i..], number, found)
        invariant oldTeams == old(oldTeams) && oldCache == old(oldCache)
      {
        var e := page.entries[i];
        assert page.entries[i..][1..] == page.entries[i + 1..];
        if e.number == number {
          found := Some(e.tpid);
        }
        var n := ParseDecimal(e.number);
        if n !in teams {
          teams := teams[n := ParseDecimal(e.tpid)];
          cache := cache[e.number := e.tpid];
        }
      }
      assert page.entries[|page.entries|..] == [];
    }

    /**
     * GetOldTeams (team.py:127-150): the pair at position `i` of the page
     * fetched at offset `start` gets list rank `start + i`.
     */
    method GetOldTeams(year: string, start: string, entries: seq<Entry>) returns (ghost request: string)
      requires Valid() && IsDigits(year) && IsDigits(start) && WellFormedEntries(entries)
      modifies this
      ensures Valid()
      ensures request == TeamListUrl(year, ParseDecimal(start))
      ensures oldTeams == IngestOld(teams, old(oldTeams), ParseDecimal(year), ParseDecimal(start), entries)
      ensures teams == old(teams) && cache == old(cache) && oldCache == old(oldCache)
    {
      var rank := ParseDecimal(start);
      request := TeamListUrl(year, rank);
      var season := ParseDecimal(year);
      for i := 0 to |entries|
        invariant rank == ParseDecimal(start) + i
        invariant IngestOld(teams, old(oldTeams), season, ParseDecimal(start), entries) ==
                  IngestOld(teams, oldTeams, season, rank, entries[i..])
        invariant OldCacheAgrees()
        invariant teams == old(teams) && cache == old(cache) && oldCache == old(oldCache)
      {
        assert entries[i..][1..] == entries[i + 1..];
        var n := ParseDecimal(entries[i].number);
        if n !in teams {
          if n !in oldTeams {
            oldTeams := oldTeams[n := OldTeam(season, rank)];
          }
        }
        rank := rank + 1;
      }
      assert entries[|entries|..] == [];
    }

    /** FlushNewTeams (team.py:109-116): delete up to 500 Teams and flush all of memcache. */
    method FlushNewTeams()
      requires Valid()
      modifies this
      ensures Valid()
      ensures teams.Keys <= old(teams).Keys
      ensures forall n :: n in teams ==> teams[n] == old(teams)[n]
      ensures |old(teams)| - |teams| == Min(DeleteBatch, |old(teams)|)
      ensures oldTeams == old(oldTeams)
      ensures cache == map[] && oldCache == map[]
    {
      var m := Min(DeleteBatch, |teams|);
      ghost var w := SubsetOfSize(teams.Keys, m);
      var batch: set<nat> :| batch <= teams.Keys && |batch| == m;
      RemoveKeys(teams, batch);
      var kept := teams - batch;
      assert |old(teams)| - |kept| == m;
      teams, cache, oldCache := kept, map[], map[];
      assert CacheAgrees(Current()) && OldCacheAgrees();
    }

    /** FlushOldTeams (team.py:118-125): delete up to 500 OldTeams and flush all of memcache. */
    method FlushOldTeams()
      requires Valid()
      modifies this
      ensures Valid()
      ensures oldTeams.Keys <= old(oldTeams).Keys
      ensures forall n :: n in oldTeams ==> oldTeams[n] == old(oldTeams)[n]
      ensures |old(oldTeams)| - |oldTeams| == Min(DeleteBatch, |old(oldTeams)|)
      ensures teams == old(teams)
      ensures cache == map[] && oldCache == map[]
    {
      var m := Min(DeleteBatch, |oldTeams|);
      ghost var w := SubsetOfSize(oldTeams.Keys, m);
      var batch: set<nat> :| batch <= oldTeams.Keys && |batch| == m;
      RemoveKeys(oldTeams, batch);
      var kept := oldTeams - batch;
      assert |old(oldTeams)| - |kept| == m;
      oldTeams, cache, oldCache := kept, map[], map[];
      assert CacheAgrees(Current()) && OldCacheAgrees();
    }

    /**
     * LookupOldTeamPage (team.py:152-171): find the team's OldTeam (cache
     * first), request the one-team listing page at its year and rank, and
     * turn the first team-details link on it into a URL. `linksOn` gives the
     * `?page=team_details...` matches on the page a URL serves.
     */
    method LookupOldTeamPage(number: string, linksOn: string -> seq<string>) returns (result: OldTeamPage)
      requires Valid() && IsDigits(number)
      modifies this
      ensures Valid()
      ensures teams == old(teams) && cache == old(cache) && oldTeams == old(oldTeams)
      ensures var n := ParseDecimal(number);
        if n !in oldTeams then
          result == UnknownTeam && oldCache == old(oldCache)
        else
          var links := linksOn(OldTeamQueryUrl(oldTeams[n].year, oldTeams[n].rank));
          oldCache == old(oldCache)[number := oldTeams[n]] &&
          result == if links == [] then LinkMissing else Found(TeamDetailsUrl(links[0]))
    {
      var team: OldTeam;
      if number in oldCache {
        team := oldCache[number];
      } else {
        var n := ParseDecimal(number);
        if n !in oldTeams {
          return UnknownTeam;
        }
        team := oldTeams[n];
        oldCache := oldCache[number := team];
      }
      var links := linksOn(OldTeamQueryUrl(team.year, team.rank));
      if links == [] {
        return LinkMissing;
      }
      return Found(TeamDetailsUrl(links[0]));
    }
  }
}
