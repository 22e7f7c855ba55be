/**
 * The rules of team.py stated on values: how LookupTeam answers from the
 * "Team" memcache namespace and the Team store, how one page of the FIRST team
 * listing is ingested, where the paginated ScrapeTeam search stops, how
 * GetOldTeams assigns list ranks, and the URLs these functions build.
 * The class Team.Directory runs these rules step by step; the lemmas here are
 * what the rules promise.
 */
module TeamSpec {
  import opened Wrappers
  import opened Digits

  /** Teams per listing page (`results_size=250`), and the offset step of ScrapeTeam. */
  const PageSize: nat := 250

  /** The cache value that records "no Team stored for this number". */
  const NullMarker: string := "null"

  /** The legacy team area, where the team listing is served. */
  const MyAreaRoot: string := "https://my.usfirst.org/myarea"

  const ListingQuery: string :=
    MyAreaRoot + "/index.lasso?page=searchresults&programs=FRC&reports=teams&sort_teams=number&results_size="

  /** The listing page requested by ScrapeTeam and GetOldTeams. */
  function TeamListUrl(year: string, skip: nat): string {
    ListingQuery + "250&omit_searchform=1&season_FRC=" + year + "&skip_teams=" + FormatDecimal(skip)
  }

  /** The pages requested by a search that fetched `count` pages: offsets 0, 250, 500, ... */
  function ListingUrls(year: string, count: nat): seq<string> {
    if count == 0 then [] else ListingUrls(year, count - 1) + [TeamListUrl(year, PageSize * (count - 1))]
  }

  /** The `j`-th request of a search is for offset `250 * j`, in order. */
  lemma {:induction false} ListingUrlsAt(year: string, count: nat, j: nat)
    requires j < count
    ensures |ListingUrls(year, count)| == count
    ensures ListingUrls(year, count)[j] == TeamListUrl(year, PageSize * j)
  {
    if j < count - 1 {
      ListingUrlsAt(year, count - 1, j);
    } else if count > 1 {
      ListingUrlsAt(year, count - 1, 0);
    }
  }

  /** The one-team page LookupOldTeamPage requests for a stored year and rank. */
  function OldTeamQueryUrl(year: nat, rank: nat): string {
    ListingQuery + "1&omit_searchform=1&season_FRC=" + FormatDecimal(year) + "&skip_teams=" + FormatDecimal(rank)
  }

  // ---------------------------------------------------------------------------
  // Data
  // ---------------------------------------------------------------------------

  /** One `(tpid, number)` pair that `teamRe` extracts from a listing page. */
  datatype Entry = Entry(tpid: string, number: string)

  /** A fetched listing page: its pairs in page order, and whether it shows `Next ->`. */
  datatype Page = Page(entries: seq<Entry>, hasNext: bool)

  /** The Team store (number -> tpid) and the "Team" memcache namespace (key -> value). */
  datatype Stores = Stores(teams: map<nat, nat>, cache: map<string, string>)

  /** An OldTeam entity: the past season and the team's rank in that season's listing. */
  datatype OldTeam = OldTeam(year: nat, rank: nat)

  /** Both groups of `teamRe` are `\d+`. */
  predicate WellFormedEntry(e: Entry) {
    IsDigits(e.tpid) && IsDigits(e.number)
  }

  predicate WellFormedEntries(es: seq<Entry>) {
    forall i :: 0 <= i < |es| ==> WellFormedEntry(es[i])
  }

  predicate WellFormedListing(listing: seq<Page>) {
    forall k :: 0 <= k < |listing| ==> WellFormedEntries(listing[k].entries)
  }

  /**
   * The page served at offset `PageSize * k`. A listing is finite: past its
   * last page the site serves a page with no teams and no `Next ->` link.
   */
  function PageAt(listing: seq<Page>, k: nat): (p: Page)
    ensures WellFormedListing(listing) ==> WellFormedEntries(p.entries)
    ensures p.hasNext ==> k < |listing|
  {
    if k < |listing| then listing[k] else Page([], false)
  }

  function NumberOf(e: Entry): nat
    requires WellFormedEntry(e)
  {
    ParseDecimal(e.number)
  }

  /** The team numbers (as integers) that occur on a page. */
  function Numbers(es: seq<Entry>): set<nat>
    requires WellFormedEntries(es)
  {
    set i | 0 <= i < |es| :: NumberOf(es[i])
  }

  lemma NumbersSplit(es: seq<Entry>)
    requires WellFormedEntries(es) && es != []
    ensures Numbers(es) == {NumberOf(es[0])} + Numbers(es[1..])
  {
    forall x | x in Numbers(es) ensures x in {NumberOf(es[0])} + Numbers(es[1..]) {
      var i :| 0 <= i < |es| && NumberOf(es[i]) == x;
      if i > 0 {
        assert es[1..][i - 1] == es[i];
      }
    }
    forall x | x in Numbers(es[1..]) ensures x in Numbers(es) {
      var i :| 0 <= i < |es[1..]| && NumberOf(es[1..][i]) == x;
      assert es[i + 1] == es[1..][i];
    }
  }

  /** Python truthiness of a string-or-None value (`if tpid:`). */
  predicate Truthy(t: Option<string>) {
    t.Some? && t.value != ""
  }

  /**
   * Every positive cache entry agrees with the Team store: its key reads as a
   * stored number and its value reads as that team's tpid. Negative ("null")
   * entries are unconstrained: they may be stale.
   */
  predicate CacheAgrees(s: Stores) {
    forall k :: k in s.cache ==>
      IsDigits(k) &&
      (s.cache[k] == NullMarker ||
       (IsDigits(s.cache[k]) && ParseDecimal(k) in s.teams && s.teams[ParseDecimal(k)] == ParseDecimal(s.cache[k])))
  }

  /** Key `k` has the same entry (or the same absence) in both caches. */
  predicate KeptEntry(c: map<string, string>, c': map<string, string>, k: string) {
    (k in c <==> k in c') && (k in c ==> c'[k] == c[k])
  }

  // ---------------------------------------------------------------------------
  // LookupTeam
  // ---------------------------------------------------------------------------

  /** What LookupTeam returns, with the stores it leaves behind. */
  datatype Answer = Answer(stores: Stores, tpid: Option<string>)

  /** `memcache.add`: writes only when the key is absent. */
  function CacheAdd(cache: map<string, string>, key: string, value: string): map<string, string> {
    if key in cache then cache else cache[key := value]
  }

  /** LookupTeam: cache first, then the Team store; a miss is cached as "null". */
  function Lookup(s: Stores, number: string): (a: Answer)
    requires IsDigits(number)
    ensures number in a.stores.cache
    ensures a.tpid.Some? ==> a.tpid.value != NullMarker
  {
    if number in s.cache && s.cache[number] == NullMarker then
      Answer(s, None)
    else if number in s.cache then
      Answer(s, Some(s.cache[number]))
    else
      var n := ParseDecimal(number);
      if n in s.teams then
        var tpid := FormatDecimal(s.teams[n]);
        Answer(Stores(s.teams, CacheAdd(s.cache, number, tpid)), Some(tpid))
      else
        Answer(Stores(s.teams, CacheAdd(s.cache, number, NullMarker)), None)
  }

  /**
   * LookupTeam never writes the Team store, and its one cache write is an add
   * under `number`: every entry that existed keeps its value.
   */
  lemma LookupOnlyAdds(s: Stores, number: string)
    requires IsDigits(number)
    ensures Lookup(s, number).stores.teams == s.teams
    ensures Lookup(s, number).stores.cache.Keys == s.cache.Keys + {number}
    ensures forall k :: k in s.cache ==> Lookup(s, number).stores.cache[k] == s.cache[k]
  {
  }

  /** A cached entry other than "null" is the answer, and nothing changes. */
  lemma LookupCacheHit(s: Stores, number: string)
    requires IsDigits(number) && number in s.cache && s.cache[number] != NullMarker
    ensures Lookup(s, number) == Answer(s, Some(s.cache[number]))
  {
  }

  /** A second LookupTeam for the same number gives the same answer and changes nothing. */
  lemma LookupRepeat(s: Stores, number: string)
    requires IsDigits(number)
    ensures Lookup(Lookup(s, number).stores, number) == Lookup(s, number)
  {
  }

  /**
   * Negative caching: after LookupTeam answers None, the next LookupTeam for
   * that number answers None from the cache, whatever the Team store holds by then.
   */
  lemma LookupNegativeCached(s: Stores, number: string, teams: map<nat, nat>)
    requires IsDigits(number) && Lookup(s, number).tpid == None
    ensures var c := Lookup(s, number).stores.cache;
      Lookup(Stores(teams, c), number) == Answer(Stores(teams, c), None)
  {
  }

  /**
   * A positive answer is `str(tpid)` of the stored Team, and the cache still
   * agrees with the store afterwards.
   */
  lemma LookupAgreesWithStore(s: Stores, number: string)
    requires IsDigits(number) && CacheAgrees(s)
    ensures CacheAgrees(Lookup(s, number).stores)
    ensures Lookup(s, number).tpid.Some? ==>
      var t := Lookup(s, number).tpid.value;
      ParseDecimal(number) in s.teams && IsDigits(t) && ParseDecimal(t) == s.teams[ParseDecimal(number)]
  {
    var n := ParseDecimal(number);
    if number !in s.cache && n in s.teams {
      ParseFormat(s.teams[n]);
    }
  }

  /** A stored Team is found unless a negative entry for that key masks it. */
  lemma LookupFindsStored(s: Stores, number: string)
    requires IsDigits(number) && ParseDecimal(number) in s.teams
    requires number !in s.cache || s.cache[number] != NullMarker
    ensures Lookup(s, number).tpid.Some?
  {
  }

  // ---------------------------------------------------------------------------
  // Ingesting one listing page (ScrapeTeam's inner loop)
  // ---------------------------------------------------------------------------

  /** One pair: a Team is created, and its cache entry set, only if none is stored for the number. */
  function IngestEntry(s: Stores, e: Entry): (r: Stores)
    requires WellFormedEntry(e)
    ensures NumberOf(e) in r.teams
  {
    var n := NumberOf(e);
    if n in s.teams then s
    else Stores(s.teams[n := ParseDecimal(e.tpid)], s.cache[e.number := e.tpid])
  }

  /** All pairs of a page, in page order. */
  function IngestPage(s: Stores, es: seq<Entry>): Stores
    requires WellFormedEntries(es)
    decreases |es|
  {
    if es == [] then s else IngestPage(IngestEntry(s, es[0]), es[1..])
  }

  /**
   * Insert-only: every stored Team keeps its tpid, and no cache entry under a
   * key whose number is already stored is added, changed or removed.
   */
  lemma {:induction false} IngestKeeps(s: Stores, es: seq<Entry>)
    requires WellFormedEntries(es)
    ensures forall n :: n in s.teams ==> n in IngestPage(s, es).teams && IngestPage(s, es).teams[n] == s.teams[n]
    ensures forall k :: IsDigits(k) && ParseDecimal(k) in s.teams ==> KeptEntry(s.cache, IngestPage(s, es).cache, k)
    decreases |es|
  {
    if es != [] {
      IngestKeeps(IngestEntry(s, es[0]), es[1..]);
    }
  }

  /** After a page, exactly the numbers stored before or seen on the page are stored. */
  lemma {:induction false} IngestKeys(s: Stores, es: seq<Entry>)
    requires WellFormedEntries(es)
    ensures IngestPage(s, es).teams.Keys == s.teams.Keys + Numbers(es)
    decreases |es|
  {
    if es != [] {
      NumbersSplit(es);
      IngestKeys(IngestEntry(s, es[0]), es[1..]);
    }
  }

  /** Only keys that are numbers on the page can have their cache entry written. */
  lemma {:induction false} IngestCacheFrame(s: Stores, es: seq<Entry>, k: string)
    requires WellFormedEntries(es)
    requires forall i :: 0 <= i < |es| ==> es[i].number != k
    ensures KeptEntry(s.cache, IngestPage(s, es).cache, k)
    decreases |es|
  {
    if es != [] {
      IngestCacheFrame(IngestEntry(s, es[0]), es[1..], k);
    }
  }

  /** A newly stored number takes the tpid of its first pair on the page. */
  lemma {:induction false} IngestFirst(s: Stores, es: seq<Entry>, i: nat)
    requires WellFormedEntries(es) && i < |es|
    requires NumberOf(es[i]) !in s.teams
    requires forall j :: 0 <= j < i ==> NumberOf(es[j]) != NumberOf(es[i])
    ensures NumberOf(es[i]) in IngestPage(s, es).teams
    ensures IngestPage(s, es).teams[NumberOf(es[i])] == ParseDecimal(es[i].tpid)
    decreases |es|
  {
    if i == 0 {
      IngestKeeps(IngestEntry(s, es[0]), es[1..]);
    } else {
      assert es[1..][i - 1] == es[i];
      IngestFirst(IngestEntry(s, es[0]), es[1..], i - 1);
    }
  }

  /** A page whose numbers are all stored changes nothing. */
  lemma {:induction false} IngestStoredIsIdentity(s: Stores, es: seq<Entry>)
    requires WellFormedEntries(es) && Numbers(es) <= s.teams.Keys
    ensures IngestPage(s, es) == s
    decreases |es|
  {
    if es != [] {
      NumbersSplit(es);
      IngestStoredIsIdentity(s, es[1..]);
    }
  }

  /** Re-ingesting the same page leaves the Team store and the cache unchanged. */
  lemma IngestIdempotent(s: Stores, es: seq<Entry>)
    requires WellFormedEntries(es)
    ensures IngestPage(IngestPage(s, es), es) == IngestPage(s, es)
  {
    IngestKeys(s, es);
    IngestStoredIsIdentity(IngestPage(s, es), es);
  }

  /** Ingesting keeps every positive cache entry in agreement with the Team store. */
  lemma {:induction false} IngestAgrees(s: Stores, es: seq<Entry>)
    requires WellFormedEntries(es) && CacheAgrees(s)
    ensures CacheAgrees(IngestPage(s, es))
    decreases |es|
  {
    if es != [] {
      var e := es[0];
      var s1 := IngestEntry(s, e);
      if NumberOf(e) !in s.teams {
        forall k | k in s1.cache
          ensures IsDigits(k)
          ensures s1.cache[k] == NullMarker ||
            (IsDigits(s1.cache[k]) && ParseDecimal(k) in s1.teams && s1.teams[ParseDecimal(k)] == ParseDecimal(s1.cache[k]))
        {
          if k != e.number && s.cache[k] != NullMarker {
            assert ParseDecimal(k) in s.teams;
          }
        }
      }
      IngestAgrees(s1, es[1..]);
    }
  }

  /**
   * The first pair of a number that is not stored is stored with its tpid and
   * cached under its own key, whatever pairs with that number follow it.
   */
  lemma {:induction false} IngestFirstCached(s: Stores, es: seq<Entry>, i: nat)
    requires WellFormedEntries(es) && i < |es|
    requires NumberOf(es[i]) !in s.teams
    requires forall j :: 0 <= j < i ==> NumberOf(es[j]) != NumberOf(es[i])
    ensures NumberOf(es[i]) in IngestPage(s, es).teams
    ensures IngestPage(s, es).teams[NumberOf(es[i])] == ParseDecimal(es[i].tpid)
    ensures es[i].number in IngestPage(s, es).cache
    ensures IngestPage(s, es).cache[es[i].number] == es[i].tpid
    decreases |es|
  {
    if i == 0 {
      IngestKeeps(IngestEntry(s, es[0]), es[1..]);
      assert KeptEntry(IngestEntry(s, es[0]).cache, IngestPage(s, es).cache, es[0].number);
    } else {
      forall j | 0 <= j < i - 1 ensures NumberOf(es[1..][j]) != NumberOf(es[1..][i - 1]) {
        assert es[1..][j] == es[j + 1];
      }
      assert es[1..][i - 1] == es[i];
      IngestFirstCached(IngestEntry(s, es[0]), es[1..], i - 1);
    }
  }

  // ---------------------------------------------------------------------------
  // Matching the requested number on a page
  // ---------------------------------------------------------------------------

  /** The tpid of the last pair whose number string equals `number`, else `found`. */
  function LastMatch(es: seq<Entry>, number: string, found: Option<string>): Option<string>
    decreases |es|
  {
    if es == [] then found
    else LastMatch(es[1..], number, if es[0].number == number then Some(es[0].tpid) else found)
  }

  /** With a match at `i` and none after it, the page's answer is the tpid at `i`. */
  lemma {:induction false} LastMatchFound(es: seq<Entry>, number: string, found: Option<string>, i: nat)
    requires i < |es| && es[i].number == number
    requires forall j :: i < j < |es| ==> es[j].number != number
    ensures LastMatch(es, number, found) == Some(es[i].tpid)
    decreases |es|
  {
    if i == 0 {
      LastMatchAbsent(es[1..], number, Some(es[0].tpid));
    } else {
      forall j | i - 1 < j < |es[1..]| ensures es[1..][j].number != number {
        assert es[1..][j] == es[j + 1];
      }
      LastMatchFound(es[1..], number, if es[0].number == number then Some(es[0].tpid) else found, i - 1);
    }
  }

  /** Without any match, the page's answer is what it was before the page. */
  lemma {:induction false} LastMatchAbsent(es: seq<Entry>, number: string, found: Option<string>)
    requires forall j :: 0 <= j < |es| ==> es[j].number != number
    ensures LastMatch(es, number, found) == found
    decreases |es|
  {
    if es != [] {
      LastMatchAbsent(es[1..], number, found);
    }
  }

  // ---------------------------------------------------------------------------
  // ScrapeTeam: the paginated search
  // ---------------------------------------------------------------------------

  /** The stores after the search, its answer, and how many pages it requested. */
  datatype ScrapeRun = ScrapeRun(stores: Stores, tpid: Option<string>, fetched: nat)

  /**
   * ScrapeTeam from page `k` on: ingest the whole page, then return the page's
   * match if there is one, return None if the page has no `Next ->`, and go on
   * to the next page otherwise.
   */
  function ScrapeFrom(s: Stores, listing: seq<Page>, number: string, k: nat): ScrapeRun
    requires WellFormedListing(listing) && k <= |listing|
    decreases |listing| - k
  {
    var page := PageAt(listing, k);
    var s' := IngestPage(s, page.entries);
    var tpid := LastMatch(page.entries, number, None);
    if Truthy(tpid) then ScrapeRun(s', tpid, k + 1)
    else if !page.hasNext then ScrapeRun(s', None, k + 1)
    else ScrapeFrom(s', listing, number, k + 1)
  }

  /** Page `k` ends the search: it holds the number, or it has no `Next ->`. */
  predicate StopsAt(listing: seq<Page>, number: string, k: nat) {
    Truthy(LastMatch(PageAt(listing, k).entries, number, None)) || !PageAt(listing, k).hasNext
  }

  /** What the search returns when it ends at page `k`. */
  function AnswerAt(listing: seq<Page>, number: string, k: nat): Option<string> {
    var m := LastMatch(PageAt(listing, k).entries, number, None);
    if Truthy(m) then m else None
  }

  /**
   * The search requests pages `k0`, `k0 + 1`, ... and ends at the first page
   * that holds the number or lacks `Next ->`; it answers that page's last match,
   * or None. It never runs past the end of the listing.
   */
  lemma {:induction false} ScrapeEndsAtFirstStop(s: Stores, listing: seq<Page>, number: string, k0: nat)
    requires WellFormedListing(listing) && k0 <= |listing|
    ensures var r := ScrapeFrom(s, listing, number, k0);
      k0 < r.fetched <= |listing| + 1 &&
      StopsAt(listing, number, r.fetched - 1) &&
      (forall j :: k0 <= j < r.fetched - 1 ==> !StopsAt(listing, number, j)) &&
      r.tpid == AnswerAt(listing, number, r.fetched - 1)
    decreases |listing| - k0
  {
    if !StopsAt(listing, number, k0) {
      ScrapeEndsAtFirstStop(IngestPage(s, PageAt(listing, k0).entries), listing, number, k0 + 1);
    }
  }

  /**
   * Over the whole search, stored Teams keep their tpids and cache entries
   * under already stored numbers are untouched.
   */
  lemma {:induction false} ScrapeKeeps(s: Stores, listing: seq<Page>, number: string, k0: nat)
    requires WellFormedListing(listing) && k0 <= |listing|
    ensures forall n :: n in s.teams ==>
      n in ScrapeFrom(s, listing, number, k0).stores.teams &&
      ScrapeFrom(s, listing, number, k0).stores.teams[n] == s.teams[n]
    ensures forall k :: IsDigits(k) && ParseDecimal(k) in s.teams ==>
      KeptEntry(s.cache, ScrapeFrom(s, listing, number, k0).stores.cache, k)
    decreases |listing| - k0
  {
    var es := PageAt(listing, k0).entries;
    IngestKeeps(s, es);
    if !StopsAt(listing, number, k0) {
      ScrapeKeeps(IngestPage(s, es), listing, number, k0 + 1);
    }
  }

  /** Positive cache entries keep agreeing with the Team store over the whole search. */
  lemma {:induction false} ScrapeAgrees(s: Stores, listing: seq<Page>, number: string, k0: nat)
    requires WellFormedListing(listing) && k0 <= |listing| && CacheAgrees(s)
    ensures CacheAgrees(ScrapeFrom(s, listing, number, k0).stores)
    decreases |listing| - k0
  {
    var es := PageAt(listing, k0).entries;
    IngestAgrees(s, es);
    if !StopsAt(listing, number, k0) {
      ScrapeAgrees(IngestPage(s, es), listing, number, k0 + 1);
    }
  }

  /**
   * Over the whole search, the cache entry under a key that no listing page
   * names keeps its value or its absence; a "null" entry for an unlisted
   * team survives.
   */
  lemma {:induction false} ScrapeCacheFrame(s: Stores, listing: seq<Page>, number: string, k0: nat, k: string)
    requires WellFormedListing(listing) && k0 <= |listing|
    requires forall j, i :: 0 <= j < |listing| && 0 <= i < |listing[j].entries| ==> listing[j].entries[i].number != k
    ensures KeptEntry(s.cache, ScrapeFrom(s, listing, number, k0).stores.cache, k)
    decreases |listing| - k0
  {
    var es := PageAt(listing, k0).entries;
    IngestCacheFrame(s, es, k);
    if !StopsAt(listing, number, k0) {
      ScrapeCacheFrame(IngestPage(s, es), listing, number, k0 + 1, k);
    }
  }

  /**
   * No pair on pages 0 to `j` other than the one at (j, i) has number `n`.
   * Later pages are never fetched once page `j` answers.
   */
  predicate OnlyAt(listing: seq<Page>, n: nat, j: nat, i: nat)
    requires WellFormedListing(listing)
  {
    forall j', i' :: 0 <= j' <= j && j' < |listing| && 0 <= i' < |listing[j'].entries| && (j' != j || i' != i) ==>
      NumberOf(listing[j'].entries[i']) != n
  }

  /**
   * End to end: when the requested team is not stored, appears once on
   * pages 0 to `j` (on page `j`) and every earlier page has `Next ->`, the search
   * fetches pages 0..j, answers the listed tpid, and a later LookupTeam answers
   * the same tpid from the cache.
   */
  lemma ScrapeThenLookup(s: Stores, listing: seq<Page>, number: string, j: nat, i: nat)
    requires WellFormedListing(listing) && j < |listing| && i < |listing[j].entries|
    requires listing[j].entries[i].number == number
    requires ParseDecimal(number) !in s.teams
    requires OnlyAt(listing, ParseDecimal(number), j, i)
    requires forall j' :: 0 <= j' < j ==> listing[j'].hasNext
    ensures ScrapeFrom(s, listing, number, 0).tpid == Some(listing[j].entries[i].tpid)
    ensures ScrapeFrom(s, listing, number, 0).fetched == j + 1
    ensures Lookup(ScrapeFrom(s, listing, number, 0).stores, number).tpid == Some(listing[j].entries[i].tpid)
  {
    ScrapeFindsFrom(s, listing, number, j, i, 0);
    var t := listing[j].entries[i].tpid;
    assert IsDigit(t[0]) && !IsDigit(NullMarker[0]);
  }

  lemma {:induction false} ScrapeFindsFrom(s: Stores, listing: seq<Page>, number: string, j: nat, i: nat, k0: nat)
    requires WellFormedListing(listing) && k0 <= j < |listing| && i < |listing[j].entries|
    requires listing[j].entries[i].number == number
    requires ParseDecimal(number) !in s.teams
    requires OnlyAt(listing, ParseDecimal(number), j, i)
    requires forall j' :: k0 <= j' < j ==> listing[j'].hasNext
    ensures var r := ScrapeFrom(s, listing, number, k0);
      r.tpid == Some(listing[j].entries[i].tpid) && r.fetched == j + 1 &&
      number in r.stores.cache && r.stores.cache[number] == listing[j].entries[i].tpid
    decreases j - k0
  {
    var es := listing[k0].entries;
    var n := ParseDecimal(number);
    var e := listing[j].entries[i];
    if k0 < j {
      forall i' | 0 <= i' < |es| ensures es[i'].number != number {
        assert NumberOf(es[i']) != n;
      }
      LastMatchAbsent(es, number, None);
      IngestKeys(s, es);
      ScrapeFindsFrom(IngestPage(s, es), listing, number, j, i, k0 + 1);
    } else {
      forall i' | i < i' < |es| ensures es[i'].number != number {
        assert NumberOf(es[i']) != n;
      }
      LastMatchFound(es, number, None, i);
      IngestFirstCached(s, es, i);
    }
  }

  /**
   * A number listed twice on the page that holds it: the search answers the
   * tpid of the LAST pair, while the Team store, and so every later
   * LookupTeam, keeps the FIRST.
   */
  lemma DuplicateOnPage()
    ensures var listing := [Page([Entry("1", "118"), Entry("2", "118")], false)];
      var r := ScrapeFrom(Stores(map[], map[]), listing, "118", 0);
      r.tpid == Some("2") && Lookup(r.stores, "118").tpid == Some("1")
  {
    var es := [Entry("1", "118"), Entry("2", "118")];
    var listing := [Page(es, false)];
    assert WellFormedListing(listing) by {
      assert IsDigits("1") && IsDigits("2") && IsDigits("118");
    }
    var n := ParseDecimal("118");
    var s1 := IngestEntry(Stores(map[], map[]), es[0]);
    assert s1 == Stores(map[n := ParseDecimal("1")], map["118" := "1"]);
    assert IngestEntry(s1, es[1]) == s1;
    assert es[1..][1..] == [];
    assert IngestPage(Stores(map[], map[]), es) == s1;
    LastMatchFound(es, "118", None, 1);
  }

  // ---------------------------------------------------------------------------
  // GetOldTeams
  // ---------------------------------------------------------------------------

  /**
   * GetOldTeams over one page: the pair at position `i` has list rank
   * `rank + i`; an OldTeam is created only when neither a Team nor an OldTeam
   * exists for the number.
   */
  function IngestOld(teams: map<nat, nat>, olds: map<nat, OldTeam>, year: nat, rank: nat, es: seq<Entry>): map<nat, OldTeam>
    requires WellFormedEntries(es)
    decreases |es|
  {
    if es == [] then olds
    else
      var n := NumberOf(es[0]);
      var olds' := if n !in teams && n !in olds then olds[n := OldTeam(year, rank)] else olds;
      IngestOld(teams, olds', year, rank + 1, es[1..])
  }

  /** Existing OldTeams are never changed. */
  lemma {:induction false} OldIngestKeeps(teams: map<nat, nat>, olds: map<nat, OldTeam>, year: nat, rank: nat, es: seq<Entry>)
    requires WellFormedEntries(es)
    ensures forall n :: n in olds ==> n in IngestOld(teams, olds, year, rank, es) && IngestOld(teams, olds, year, rank, es)[n] == olds[n]
    decreases |es|
  {
    if es != [] {
      var n := NumberOf(es[0]);
      var olds' := if n !in teams && n !in olds then olds[n := OldTeam(year, rank)] else olds;
      OldIngestKeeps(teams, olds', year, rank + 1, es[1..]);
    }
  }

  /** OldTeams are created exactly for the page's numbers that have no Team. */
  lemma {:induction false} OldIngestKeys(teams: map<nat, nat>, olds: map<nat, OldTeam>, year: nat, rank: nat, es: seq<Entry>)
    requires WellFormedEntries(es)
    ensures IngestOld(teams, olds, year, rank, es).Keys == olds.Keys + (Numbers(es) - teams.Keys)
    decreases |es|
  {
    if es != [] {
      var n := NumberOf(es[0]);
      var olds' := if n !in teams && n !in olds then olds[n := OldTeam(year, rank)] else olds;
      NumbersSplit(es);
      OldIngestKeys(teams, olds', year, rank + 1, es[1..]);
    }
  }

  /** A new OldTeam records the season and the rank of the number's first pair. */
  lemma {:induction false} OldIngestRank(teams: map<nat, nat>, olds: map<nat, OldTeam>, year: nat, rank: nat, es: seq<Entry>, i: nat)
    requires WellFormedEntries(es) && i < |es|
    requires NumberOf(es[i]) !in teams && NumberOf(es[i]) !in olds
    requires forall j :: 0 <= j < i ==> NumberOf(es[j]) != NumberOf(es[i])
    ensures NumberOf(es[i]) in IngestOld(teams, olds, year, rank, es)
    ensures IngestOld(teams, olds, year, rank, es)[NumberOf(es[i])] == OldTeam(year, rank + i)
    decreases |es|
  {
    var n := NumberOf(es[0]);
    var olds' := if n !in teams && n !in olds then olds[n := OldTeam(year, rank)] else olds;
    if i == 0 {
      OldIngestKeeps(teams, olds', year, rank + 1, es[1..]);
    } else {
      assert es[1..][i - 1] == es[i];
      OldIngestRank(teams, olds', year, rank + 1, es[1..], i - 1);
    }
  }

  // ---------------------------------------------------------------------------
  // LookupOldTeamPage's URL
  // ---------------------------------------------------------------------------

  /** `s.replace('&amp;', '&')`: left to right, non-overlapping. */
  function UnescapeAmp(s: string): (r: string)
    ensures |r| <= |s|
    decreases |s|
  {
    if |s| >= 5 && s[..5] == "&amp;" then "&" + UnescapeAmp(s[5..])
    else if s == [] then []
    else [s[0]] + UnescapeAmp(s[1..])
  }

  /** HTML escaping of `&`, as the listing markup writes link query strings. */
  function EscapeAmp(s: string): string
    decreases |s|
  {
    if s == [] then []
    else if s[0] == '&' then "&amp;" + EscapeAmp(s[1..])
    else [s[0]] + EscapeAmp(s[1..])
  }

  /** Unescaping a link recovers the query string the markup escaped. */
  lemma {:induction false} UnescapeEscape(s: string)
    ensures UnescapeAmp(EscapeAmp(s)) == s
    decreases |s|
  {
    if s != [] {
      UnescapeEscape(s[1..]);
      var t := EscapeAmp(s);
      if s[0] == '&' {
        assert t[..5] == "&amp;" && t[5..] == EscapeAmp(s[1..]);
      } else {
        assert t[0] == s[0] && t[1..] == EscapeAmp(s[1..]);
      }
    }
  }

  /** The team details page for a `?page=team_details...` link found on the listing. */
  function TeamDetailsUrl(link: string): string {
    "https://my.usfirst.org/myarea/index.lasso" + UnescapeAmp(link)
  }

  /** The details URL is the site's index page followed by the link's query, unescaped. */
  lemma TeamDetailsUrlOfEscaped(query: string)
    ensures TeamDetailsUrl(EscapeAmp(query)) == "https://my.usfirst.org/myarea/index.lasso" + query
  {
    UnescapeEscape(query);
  }
}
