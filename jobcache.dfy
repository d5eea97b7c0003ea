/** Fetching the two job lists, merging them, and the two-hour cache in front of the fetch
    (fetchJobsFromFile, fetchJobsFromGitHub, getCachedJobs, cacheJobs, getJobsFromGitHub).
    The network is a parameter: each file request is given by its outcome. Each clock
    reading is a parameter too. */
module JobCache {
  import opened Types
  import opened Seqs
  import opened TableParser
  import opened Normalizer
  import opened Dedup

  /** What `atob` returns: a byte string, one character per byte of the file, each below
      U+0100. A UTF-8 file reaches the parser as its bytes, not as its characters. */
  type ByteString = s: string | forall k :: 0 <= k < |s| ==> s[k] as int < 256

  /** How one file request ends: it failed (network error, a response that is not ok, a
      body `atob` rejects), or it delivered the base64-decoded bytes of the file. */
  datatype FetchResult = Failed | Fetched(content: ByteString)

  /** The clock readings taken while converting `n` rows: `clock(i)` while on row `i`. */
  function Readings(clock: nat -> nat, n: nat): (r: seq<nat>)
    ensures |r| == n
    ensures forall i :: 0 <= i < n ==> r[i] == clock(i)
  {
    seq(n, i requires 0 <= i < n => clock(i))
  }

  /** The jobs one file request yields: none when it failed, otherwise its table converted. */
  function FileJobs(response: FetchResult, clock: nat -> nat): seq<Job> {
    if response.Failed? then []
    else
      var parsed := ParseTable(response.content);
      ConvertToJobFormat(parsed, Readings(clock, |parsed|), Readings(clock, |parsed|))
  }

  method FetchJobsFromFile(response: FetchResult, clock: nat -> nat) returns (jobs: seq<Job>)
    ensures jobs == FileJobs(response, clock)
  {
    if response.Failed? {
      return [];
    }
    var parsed := ParseMarkdownTable(response.content);
    jobs := ConvertToJobFormat(parsed, Readings(clock, |parsed|), Readings(clock, |parsed|));
  }

  /** A failed request yields nothing; a delivered one yields one job per parsed row, in
      order, the `i`-th converted from the `i`-th row with index `i`, and their ids differ. */
  lemma FileJobsShape(response: FetchResult, clock: nat -> nat)
    ensures response.Failed? ==> FileJobs(response, clock) == []
    ensures response.Fetched? ==>
              var parsed := ParseTable(response.content);
              var jobs := FileJobs(response, clock);
              |jobs| == |parsed| &&
              forall i :: 0 <= i < |jobs| ==> jobs[i] == ConvertJob(parsed[i], i, clock(i), clock(i))
    ensures var jobs := FileJobs(response, clock);
            forall i, j :: 0 <= i < j < |jobs| ==> jobs[i].id != jobs[j].id
  {
    if response.Fetched? {
      var parsed := ParseTable(response.content);
      ConvertedIdsDistinct(parsed, Readings(clock, |parsed|), Readings(clock, |parsed|));
    }
  }

  /** The merged, de-duplicated list: the README's jobs first, then the new-grad file's. */
  function GitHubJobs(readme: FetchResult, newGrad: FetchResult,
                      readmeClock: nat -> nat, newGradClock: nat -> nat): seq<Job>
  {
    Unique(FileJobs(readme, readmeClock) + FileJobs(newGrad, newGradClock))
  }

  method FetchJobsFromGitHub(readme: FetchResult, newGrad: FetchResult,
                             readmeClock: nat -> nat, newGradClock: nat -> nat)
    returns (jobs: seq<Job>)
    ensures jobs == GitHubJobs(readme, newGrad, readmeClock, newGradClock)
  {
    var fromReadme := FetchJobsFromFile(readme, readmeClock);
    var fromNewGrad := FetchJobsFromFile(newGrad, newGradClock);
    jobs := Unique(fromReadme + fromNewGrad);
  }

  /** The merged list holds one job per company and title, every company and title of
      either file, each as its first listing, in the order the files list them. */
  lemma GitHubJobsShape(readme: FetchResult, newGrad: FetchResult,
                        readmeClock: nat -> nat, newGradClock: nat -> nat)
    ensures var all := FileJobs(readme, readmeClock) + FileJobs(newGrad, newGradClock);
            var jobs := GitHubJobs(readme, newGrad, readmeClock, newGradClock);
            && UniqueKeys(jobs)
            && IsSubseq(jobs, all)
            && (forall i :: 0 <= i < |all| ==> KeyOf(all[i]) in Keys(jobs))
            && (forall x :: x in jobs ==>
                  FindIndex(all, KeyOf(x), 0) != -1 && x == all[FindIndex(all, KeyOf(x), 0)])
  {
    var all := FileJobs(readme, readmeClock) + FileJobs(newGrad, newGradClock);
    UniqueIsOrderedAndUnique(all);
    UniqueKeepsKeys(all);
    UniqueKeepsFirst(all);
  }

  /** When a company and title appear in both files, the README's listing is the one kept. */
  lemma ReadmeListingsWin(readme: FetchResult, newGrad: FetchResult,
                          readmeClock: nat -> nat, newGradClock: nat -> nat, i: nat)
    requires i < |FileJobs(readme, readmeClock)|
    requires IsFirst(FileJobs(readme, readmeClock), i)
    ensures FileJobs(readme, readmeClock)[i] in GitHubJobs(readme, newGrad, readmeClock, newGradClock)
  {
    var a := FileJobs(readme, readmeClock);
    var all := a + FileJobs(newGrad, newGradClock);
    var key := KeyOf(a[i]);
    var f := FindIndex(all, key, 0);
    assert all[i] == a[i];
    assert f == i by {
      assert f != -1 && f <= i;
      assert a[f] == all[f];
    }
    FirstsAreKept(all, 0, i);
  }

  /** When both requests fail there are no jobs. */
  lemma BothFailedNoJobs(readmeClock: nat -> nat, newGradClock: nat -> nat)
    ensures GitHubJobs(Failed, Failed, readmeClock, newGradClock) == []
  {
    assert FileJobs(Failed, readmeClock) + FileJobs(Failed, newGradClock) == [];
  }

  // ---------------------------------------------------------------------------------------
  // The cache under `github_jobs_cache`.

  /** Two hours in milliseconds. */
  const CacheDuration: int := 2 * 60 * 60 * 1000

  predicate IsFresh(entry: CacheEntry, now: int) {
    now - entry.timestamp < CacheDuration
  }

  /** What getCachedJobs returns at time `now` given the slot. */
  function CachedJobs(slot: Option<CacheEntry>, now: int): Option<seq<Job>> {
    if slot.Some? && IsFresh(slot.value, now) then Some(slot.value.jobs) else None
  }

  /** The slot after getCachedJobs at time `now`: an expired entry is removed. */
  function SlotAfterRead(slot: Option<CacheEntry>, now: int): Option<CacheEntry> {
    if slot.Some? && !IsFresh(slot.value, now) then None else slot
  }

  method GetCachedJobs(store: Store, now: int) returns (jobs: Option<seq<Job>>)
    modifies store`jobsCache
    ensures jobs == CachedJobs(old(store.jobsCache), now)
    ensures store.jobsCache == SlotAfterRead(old(store.jobsCache), now)
  {
    var cached := store.jobsCache;
    if cached.None? {
      return None;
    }
    var entry := cached.value;
    if now - entry.timestamp < CacheDuration {
      jobs := Some(entry.jobs);
    } else {
      store.jobsCache := None;
      jobs := None;
    }
  }

  method CacheJobs(store: Store, jobs: seq<Job>, now: int)
    modifies store`jobsCache
    ensures store.jobsCache == Some(CacheEntry(jobs, now))
  {
    store.jobsCache := Some(CacheEntry(jobs, now));
  }

  /** A list written at `writtenAt` is read back unchanged exactly while less than two hours
      have passed; from then on a read finds nothing and empties the slot. */
  lemma CacheRoundTrip(jobs: seq<Job>, writtenAt: int, now: int)
    ensures (CachedJobs(Some(CacheEntry(jobs, writtenAt)), now) == Some(jobs)) <==>
              now < writtenAt + 7200000
    ensures now >= writtenAt + 7200000 ==>
              CachedJobs(Some(CacheEntry(jobs, writtenAt)), now) == None &&
              SlotAfterRead(Some(CacheEntry(jobs, writtenAt)), now) == None
    ensures now < writtenAt + 7200000 ==>
              SlotAfterRead(Some(CacheEntry(jobs, writtenAt)), now) == Some(CacheEntry(jobs, writtenAt))
  {
    assert CacheDuration == 7200000;
  }

  /** A read either hands back the stored list and leaves the slot as it was, or finds
      nothing and leaves the slot empty; reading again at the same time changes nothing. */
  lemma ReadOutcomes(slot: Option<CacheEntry>, now: int)
    ensures CachedJobs(slot, now).Some? ==>
              slot.Some? && CachedJobs(slot, now).value == slot.value.jobs && SlotAfterRead(slot, now) == slot
    ensures CachedJobs(slot, now).None? ==> SlotAfterRead(slot, now) == None
    ensures CachedJobs(SlotAfterRead(slot, now), now) == CachedJobs(slot, now)
    ensures SlotAfterRead(SlotAfterRead(slot, now), now) == SlotAfterRead(slot, now)
  {
    if slot.Some? && !IsFresh(slot.value, now) {
      assert SlotAfterRead(slot, now) == None;
    }
  }

  /** Once an entry has expired it stays expired. */
  lemma ExpiryIsFinal(slot: Option<CacheEntry>, now: int, later: int)
    requires now <= later
    requires CachedJobs(slot, now).None?
    ensures CachedJobs(slot, later).None?
  {
    if slot.Some? {
      assert !IsFresh(slot.value, now);
    }
  }

  // ---------------------------------------------------------------------------------------
  // getJobsFromGitHub: the cache, then the network.

  /** The cache answers when it holds a fresh, non-empty list. */
  predicate Hit(slot: Option<CacheEntry>, readAt: int) {
    var cached := CachedJobs(slot, readAt);
    cached.Some? && |cached.value| > 0
  }

  /** What getJobsFromGitHub returns, given the slot, the time of the cache read and the list
      a fetch would produce. */
  function JobsFromGitHub(slot: Option<CacheEntry>, readAt: int, fetched: seq<Job>): seq<Job> {
    if Hit(slot, readAt) then slot.value.jobs else fetched
  }

  /** The slot after getJobsFromGitHub: untouched on a hit, the fetched list stamped with the
      write time when it is non-empty, otherwise whatever the cache read left. */
  function SlotAfterGet(slot: Option<CacheEntry>, readAt: int, fetched: seq<Job>, writtenAt: int)
    : Option<CacheEntry>
  {
    if Hit(slot, readAt) then slot
    else if |fetched| > 0 then Some(CacheEntry(fetched, writtenAt))
    else SlotAfterRead(slot, readAt)
  }

  method GetJobsFromGitHub(store: Store, readme: FetchResult, newGrad: FetchResult,
                           readmeClock: nat -> nat, newGradClock: nat -> nat,
                           readAt: int, writtenAt: int)
    returns (jobs: seq<Job>)
    modifies store`jobsCache
    ensures jobs == JobsFromGitHub(old(store.jobsCache), readAt,
                                   GitHubJobs(readme, newGrad, readmeClock, newGradClock))
    ensures store.jobsCache == SlotAfterGet(old(store.jobsCache), readAt,
                                            GitHubJobs(readme, newGrad, readmeClock, newGradClock),
                                            writtenAt)
  {
    var cachedJobs := GetCachedJobs(store, readAt);
    if cachedJobs.Some? && |cachedJobs.value| > 0 {
      return cachedJobs.value;
    }
    var freshJobs := FetchJobsFromGitHub(readme, newGrad, readmeClock, newGradClock);
    if |freshJobs| > 0 {
      CacheJobs(store, freshJobs, writtenAt);
    }
    jobs := freshJobs;
  }

  /** The result is the cached list on a hit and the fetched list otherwise; an empty fetch
      is never written, and a non-empty one is written with its write time. */
  lemma GetOutcomes(slot: Option<CacheEntry>, readAt: int, fetched: seq<Job>, writtenAt: int)
    ensures Hit(slot, readAt) ==>
              slot.Some? && readAt - slot.value.timestamp < 7200000 &&
              JobsFromGitHub(slot, readAt, fetched) == slot.value.jobs &&
              SlotAfterGet(slot, readAt, fetched, writtenAt) == slot
    ensures !Hit(slot, readAt) ==> JobsFromGitHub(slot, readAt, fetched) == fetched
    ensures !Hit(slot, readAt) && |fetched| > 0 ==>
              SlotAfterGet(slot, readAt, fetched, writtenAt) == Some(CacheEntry(fetched, writtenAt))
    ensures |fetched| == 0 ==>
              SlotAfterGet(slot, readAt, fetched, writtenAt) == slot ||
              SlotAfterGet(slot, readAt, fetched, writtenAt) == None
    ensures |JobsFromGitHub(slot, readAt, fetched)| == 0 ==> |fetched| == 0
  {
    assert CacheDuration == 7200000;
    if !Hit(slot, readAt) && |fetched| == 0 {
      ReadOutcomes(slot, readAt);
    }
  }

  /** A call that fetched a non-empty list makes every call in the next two hours answer
      with that same list, whatever the network would deliver then. */
  lemma SecondCallHitsCache(slot: Option<CacheEntry>, readAt: int, fetched: seq<Job>,
                            writtenAt: int, nextReadAt: int, nextFetched: seq<Job>,
                            nextWrittenAt: int)
    requires !Hit(slot, readAt) && |fetched| > 0
    requires nextReadAt < writtenAt + 7200000
    ensures var after := SlotAfterGet(slot, readAt, fetched, writtenAt);
            && JobsFromGitHub(after, nextReadAt, nextFetched) == fetched
            && SlotAfterGet(after, nextReadAt, nextFetched, nextWrittenAt) == after
  {
    var after := SlotAfterGet(slot, readAt, fetched, writtenAt);
    assert after == Some(CacheEntry(fetched, writtenAt));
    CacheRoundTrip(fetched, writtenAt, nextReadAt);
    assert Hit(after, nextReadAt);
  }
}
