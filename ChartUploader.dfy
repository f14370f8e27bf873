/** The chart uploader of Program.cs: for every chart file it looks up the
    company name behind the file's ticker through a day-stamped cache with a
    bounded refresh budget, uploads the chart, and appends a manifest record.

    Dates are day numbers: `today` is DateTime.Today and `now` the day of
    DateTime.Now. Because Today is midnight, "LastUpdated + 28 days >= Today"
    on timestamps holds exactly when it holds on their day numbers. The
    symbol-search request is an input (`search`): the name of its first best
    match, or None when there is none. An upload is recorded as its blob name. */
module ChartUploader {
  import opened Wrappers

  /** A cache entry: the company name and the day it was fetched. */
  datatype CachedCompanyData = CachedCompanyData(companyName: string, lastUpdated: int)

  /** One manifest record. */
  datatype ChartData = ChartData(
    tickerSymbol: string,
    companyName: string,
    updatedDate: string,
    chartFilename: string,
    comments: string)

  /** A chart file found in the folder: its file name (without the folder) and
      its last-write date, already formatted as yyyy-MM-dd. */
  datatype ChartFile = ChartFile(fileName: string, lastWriteDate: string)

  const CacheRefreshIntervalDays := 28
  /** Stale entries refreshed per run, at most. */
  const RefreshBudget := 20
  const UnknownCompany := "Unknown"
  const ChartBlobPrefix := "charts/"
  const DataJsonBlob := "data.json"

  // ---------------------------------------------------------------------
  // File names
  // ---------------------------------------------------------------------

  /** Index of the last '.' in s, if any. */
  function LastDot(s: string): (i: Option<nat>)
    ensures i.None? <==> '.' !in s
    ensures i.Some? ==> i.value < |s| && s[i.value] == '.' && '.' !in s[i.value + 1..]
  {
    if |s| == 0 then None
    else if s[|s| - 1] == '.' then Some(|s| - 1)
    else
      var i := LastDot(s[..|s| - 1]);
      assert s == s[..|s| - 1] + [s[|s| - 1]];
      i
  }

  /** Path.GetFileNameWithoutExtension on a bare file name: everything before
      the last '.', or the whole name when it has none. */
  function FileNameWithoutExtension(fileName: string): (stem: string)
    ensures |stem| <= |fileName| && stem == fileName[..|stem|]
    ensures '.' !in fileName ==> stem == fileName
    ensures '.' in fileName ==>
      |stem| < |fileName| && fileName[|stem|] == '.' && '.' !in fileName[|stem| + 1..]
  {
    match LastDot(fileName)
    case None => fileName
    case Some(i) => fileName[..i]
  }

  // ---------------------------------------------------------------------
  // Company-name cache policy
  // ---------------------------------------------------------------------

  /** The cache and the number of stale entries refreshed so far. */
  datatype CacheState = CacheState(cache: map<string, CachedCompanyData>, refreshCount: int)

  /** The answer of one lookup and the state it leaves. */
  datatype Answer = Answer(companyName: string, state: CacheState)

  /** Fetched at most 28 days before today (exactly 28 days still counts). */
  predicate IsFresh(entry: CachedCompanyData, today: int)
  {
    entry.lastUpdated + CacheRefreshIntervalDays >= today
  }

  /** The name a symbol search yields: its first best match, else "Unknown". */
  function NameOrUnknown(fetched: Option<string>): string
  {
    match fetched
    case Some(name) => name
    case None => UnknownCompany
  }

  /** RefreshCompanyNameAsync: store the fetched name, stamped now, under the
      ticker, and answer it. */
  function Refresh(cache: map<string, CachedCompanyData>, ticker: string, now: int, fetched: Option<string>)
    : (r: (string, map<string, CachedCompanyData>))
    ensures r.0 == NameOrUnknown(fetched)
    ensures ticker in r.1 && r.1[ticker] == CachedCompanyData(r.0, now)
    ensures r.1.Keys == cache.Keys + {ticker}
    ensures forall t :: t in cache && t != ticker ==> r.1[t] == cache[t]
  {
    var companyName := NameOrUnknown(fetched);
    (companyName, cache[ticker := CachedCompanyData(companyName, now)])
  }

  /** GetCompanyNameAsync. A fresh entry is answered from the cache; a stale
      one is refreshed while the budget lasts (spending one unit); a missing
      ticker is always refreshed (free); a stale entry past the budget is
      answered as it is. `fetched` is what a search would return; it is used
      only when a refresh happens. */
  function CompanyNameLookup(s: CacheState, ticker: string, today: int, now: int, fetched: Option<string>)
    : (r: Answer)
    // a fresh hit: cached name, nothing changes
    ensures ticker in s.cache && IsFresh(s.cache[ticker], today) ==>
      r == Answer(s.cache[ticker].companyName, s)
    // a stale entry within budget: refreshed, one unit spent
    ensures ticker in s.cache && !IsFresh(s.cache[ticker], today) && s.refreshCount < RefreshBudget ==>
      r.companyName == NameOrUnknown(fetched) &&
      r.state == CacheState(s.cache[ticker := CachedCompanyData(r.companyName, now)], s.refreshCount + 1)
    // a missing ticker: refreshed whatever the budget, nothing spent
    ensures ticker !in s.cache ==>
      r.companyName == NameOrUnknown(fetched) &&
      r.state == CacheState(s.cache[ticker := CachedCompanyData(r.companyName, now)], s.refreshCount)
    // a stale entry past the budget: the stale name, nothing changes
    ensures ticker in s.cache && !IsFresh(s.cache[ticker], today) && s.refreshCount >= RefreshBudget ==>
      r == Answer(s.cache[ticker].companyName, s)
  {
    if ticker in s.cache && IsFresh(s.cache[ticker], today) then
      Answer(s.cache[ticker].companyName, s)
    else if ticker in s.cache && s.refreshCount < RefreshBudget then
      var (name, cache') := Refresh(s.cache, ticker, now, fetched);
      Answer(name, CacheState(cache', s.refreshCount + 1))
    else if ticker !in s.cache then
      var (name, cache') := Refresh(s.cache, ticker, now, fetched);
      Answer(name, CacheState(cache', s.refreshCount))
    else
      Answer(s.cache[ticker].companyName, s)
  }

  /** One lookup never takes the refresh count past the budget, never lowers
      it, and spends at most one unit. */
  lemma LookupKeepsBudget(s: CacheState, ticker: string, today: int, now: int, fetched: Option<string>)
    requires 0 <= s.refreshCount <= RefreshBudget
    ensures var r := CompanyNameLookup(s, ticker, today, now, fetched);
      && s.refreshCount <= r.state.refreshCount <= RefreshBudget
      && r.state.refreshCount <= s.refreshCount + 1
  {
  }

  /** One lookup leaves the ticker cached under the name it answered, and
      drops no cached ticker. */
  lemma LookupCachesTicker(s: CacheState, ticker: string, today: int, now: int, fetched: Option<string>)
    ensures var r := CompanyNameLookup(s, ticker, today, now, fetched);
      && ticker in r.state.cache && r.state.cache[ticker].companyName == r.companyName
      && s.cache.Keys <= r.state.cache.Keys
  {
  }

  /** Whenever a lookup answers from the cache (a fresh hit, or a stale entry
      past the budget) the search result plays no part: no request is made. */
  lemma CachedAnswerIgnoresSearch(s: CacheState, ticker: string, today: int, now: int, f1: Option<string>, f2: Option<string>)
    requires ticker in s.cache
    requires IsFresh(s.cache[ticker], today) || s.refreshCount >= RefreshBudget
    ensures CompanyNameLookup(s, ticker, today, now, f1) == CompanyNameLookup(s, ticker, today, now, f2)
  {
  }

  /** Asking again on the same day gives the same name with no further change.
      Unless the first lookup met a stale entry past the budget (which it
      leaves stale), the entry is fresh afterwards, so the second lookup is a
      fresh hit. */
  lemma RefreshedEntryIsFresh(s: CacheState, ticker: string, today: int, fetched: Option<string>, again: Option<string>)
    ensures var r := CompanyNameLookup(s, ticker, today, today, fetched);
      && CompanyNameLookup(r.state, ticker, today, today, again) == Answer(r.companyName, r.state)
      && ((ticker !in s.cache || IsFresh(s.cache[ticker], today) || s.refreshCount < RefreshBudget) ==>
            ticker in r.state.cache && IsFresh(r.state.cache[ticker], today))
  {
  }

  // ---------------------------------------------------------------------
  // The run over all chart files
  // ---------------------------------------------------------------------

  /** The ticker a chart file stands for. */
  function TickerOf(file: ChartFile): string
  {
    FileNameWithoutExtension(file.fileName)
  }

  /** The blob a chart file is uploaded to. */
  function ChartBlobName(file: ChartFile): string
  {
    ChartBlobPrefix + file.fileName
  }

  /** The manifest record for one chart (UpdateDataJson). */
  function ChartRecord(file: ChartFile, ticker: string, companyName: string): ChartData
  {
    ChartData(ticker, companyName, file.lastWriteDate, ChartBlobName(file), "")
  }

  /** What a run has produced so far: the cache state, the manifest records
      and the blob names uploaded, in order. */
  datatype Progress = Progress(state: CacheState, jsonData: seq<ChartData>, uploads: seq<string>)

  /** A company-name lookup: the answer for a ticker in a given state. */
  type Lookup = (CacheState, string) -> Answer

  /** The lookup a run performs: GetCompanyNameAsync on the run's dates, with
      the search answering for the ticker asked about. */
  function RunLookup(today: int, now: int, search: string -> Option<string>): Lookup
  {
    (s: CacheState, ticker: string) => CompanyNameLookup(s, ticker, today, now, search(ticker))
  }

  /** One pass of the per-file loop: look the ticker up, upload the chart,
      append its record. */
  function ProcessStep(p: Progress, file: ChartFile, lookup: Lookup): Progress
  {
    var ticker := TickerOf(file);
    var a := lookup(p.state, ticker);
    Progress(a.state, p.jsonData + [ChartRecord(file, ticker, a.companyName)], p.uploads + [ChartBlobName(file)])
  }

  /** The progress after the first n files, starting from p. */
  function ProcessFirst(p: Progress, files: seq<ChartFile>, n: nat, lookup: Lookup)
    : Progress
    requires n <= |files|
  {
    if n == 0 then p
    else ProcessStep(ProcessFirst(p, files, n - 1, lookup), files[n - 1], lookup)
  }

  /** After n files the manifest and the upload list have each grown by
      exactly n entries at the end. */
  lemma {:induction false} ProcessFirstLength(p: Progress, files: seq<ChartFile>, n: nat, lookup: Lookup)
    requires n <= |files|
    ensures var q := ProcessFirst(p, files, n, lookup);
      |q.jsonData| == |p.jsonData| + n && |q.uploads| == |p.uploads| + n
  {
    if n > 0 {
      ProcessFirstLength(p, files, n - 1, lookup);
    }
  }

  /** Processing more files only appends: the manifest and the upload list
      after m files are prefixes of those after n >= m files. */
  lemma {:induction false} ProcessFirstPrefix(p: Progress, files: seq<ChartFile>, m: nat, n: nat, lookup: Lookup)
    requires m <= n <= |files|
    ensures var before, after := ProcessFirst(p, files, m, lookup), ProcessFirst(p, files, n, lookup);
      && |before.jsonData| <= |after.jsonData| && after.jsonData[..|before.jsonData|] == before.jsonData
      && |before.uploads| <= |after.uploads| && after.uploads[..|before.uploads|] == before.uploads
  {
    if m < n {
      ProcessFirstPrefix(p, files, m, n - 1, lookup);
      var prev := ProcessFirst(p, files, n - 1, lookup);
      var q := ProcessFirst(p, files, n, lookup);
      assert q.jsonData[..|prev.jsonData|] == prev.jsonData;
      assert q.uploads[..|prev.uploads|] == prev.uploads;
    }
  }

  /** The entries a run adds, one per file in enumeration order: file i's
      record carries its ticker, the name the lookup answered for it at that
      point of the run, its last-write date, "charts/" + its file name and an
      empty comment; and file i is uploaded to "charts/" + its file name. */
  lemma ProcessFirstEntryAt(p: Progress, files: seq<ChartFile>, n: nat, i: nat, lookup: Lookup)
    requires i < n <= |files|
    ensures var q := ProcessFirst(p, files, n, lookup);
      var ticker := TickerOf(files[i]);
      var before := ProcessFirst(p, files, i, lookup);
      && |p.jsonData| + i < |q.jsonData|
      && q.jsonData[|p.jsonData| + i] == ChartData(
           ticker,
           lookup(before.state, ticker).companyName,
           files[i].lastWriteDate,
           ChartBlobPrefix + files[i].fileName,
           "")
      && |p.uploads| + i < |q.uploads|
      && q.uploads[|p.uploads| + i] == ChartBlobPrefix + files[i].fileName
  {
    ProcessFirstLength(p, files, i, lookup);
    ProcessFirstPrefix(p, files, i + 1, n, lookup);
    var before := ProcessFirst(p, files, i, lookup);
    var after := ProcessFirst(p, files, i + 1, lookup);
    var q := ProcessFirst(p, files, n, lookup);
    assert after == ProcessStep(before, files[i], lookup);
    assert q.jsonData[|p.jsonData| + i] == after.jsonData[|p.jsonData| + i];
    assert q.uploads[|p.uploads| + i] == after.uploads[|p.uploads| + i];
  }

  /** A lookup that never takes the refresh count out of the budget and
      never lowers it. */
  ghost predicate KeepsBudget(lookup: Lookup)
  {
    forall s: CacheState, ticker: string :: 0 <= s.refreshCount <= RefreshBudget ==>
      s.refreshCount <= lookup(s, ticker).state.refreshCount <= RefreshBudget
  }

  /** A lookup that leaves the ticker it was asked about cached and drops no
      cached ticker. */
  ghost predicate CachesTicker(lookup: Lookup)
  {
    forall s: CacheState, ticker: string ::
      s.cache.Keys <= lookup(s, ticker).state.cache.Keys && ticker in lookup(s, ticker).state.cache
  }

  /** The run's lookup has both properties. */
  lemma RunLookupBehaves(today: int, now: int, search: string -> Option<string>)
    ensures KeepsBudget(RunLookup(today, now, search))
    ensures CachesTicker(RunLookup(today, now, search))
  {
    var lookup := RunLookup(today, now, search);
    forall s: CacheState, ticker: string
      ensures 0 <= s.refreshCount <= RefreshBudget ==>
        s.refreshCount <= lookup(s, ticker).state.refreshCount <= RefreshBudget
      ensures s.cache.Keys <= lookup(s, ticker).state.cache.Keys && ticker in lookup(s, ticker).state.cache
    {
      if 0 <= s.refreshCount <= RefreshBudget {
        LookupKeepsBudget(s, ticker, today, now, search(ticker));
      }
      LookupCachesTicker(s, ticker, today, now, search(ticker));
    }
  }

  /** However many files are processed, the refresh count stays within the
      budget and never decreases. */
  lemma {:induction false} RunKeepsBudget(p: Progress, files: seq<ChartFile>, n: nat, lookup: Lookup)
    requires n <= |files|
    requires KeepsBudget(lookup)
    requires 0 <= p.state.refreshCount <= RefreshBudget
    ensures var q := ProcessFirst(p, files, n, lookup);
      p.state.refreshCount <= q.state.refreshCount <= RefreshBudget
  {
    if n > 0 {
      RunKeepsBudget(p, files, n - 1, lookup);
      var prev := ProcessFirst(p, files, n - 1, lookup);
      var a := lookup(prev.state, TickerOf(files[n - 1]));
      assert prev.state.refreshCount <= a.state.refreshCount <= RefreshBudget;
    }
  }

  /** After n files every one of their tickers is in the cache, and nothing
      that was cached before has been dropped. */
  lemma {:induction false} RunCachesEveryTicker(p: Progress, files: seq<ChartFile>, n: nat, lookup: Lookup)
    requires n <= |files|
    requires CachesTicker(lookup)
    ensures var q := ProcessFirst(p, files, n, lookup);
      && p.state.cache.Keys <= q.state.cache.Keys
      && forall i :: 0 <= i < n ==> TickerOf(files[i]) in q.state.cache
  {
    if n > 0 {
      RunCachesEveryTicker(p, files, n - 1, lookup);
      var prev := ProcessFirst(p, files, n - 1, lookup);
      var ticker := TickerOf(files[n - 1]);
      var a := lookup(prev.state, ticker);
      assert prev.state.cache.Keys <= a.state.cache.Keys && ticker in a.state.cache;
    }
  }

  // ---------------------------------------------------------------------
  // The program's state
  // ---------------------------------------------------------------------

  /** The program's static state: the company cache, the refresh counter, the
      manifest being built and the blobs uploaded so far. */
  class Program {
    var cache: map<string, CachedCompanyData>
    var refreshCount: int
    var jsonData: seq<ChartData>
    var uploads: seq<string>

    ghost predicate Valid()
      reads this
    {
      0 <= refreshCount <= RefreshBudget
    }

    function State(): CacheState
      reads this
    {
      CacheState(cache, refreshCount)
    }

    function Current(): Progress
      reads this
    {
      Progress(State(), jsonData, uploads)
    }

    /** Start of a run, with the cache as loaded from cache.json (empty when
      there is no such file). */
    constructor (loadedCache: map<string, CachedCompanyData>)
      ensures Valid()
      ensures cache == loadedCache && refreshCount == 0 && jsonData == [] && uploads == []
    {
      cache := loadedCache;
      refreshCount := 0;
      jsonData := [];
      uploads := [];
    }

    /** GetCompanyNameAsync */
    method GetCompanyName(ticker: string, today: int, now: int, fetched: Option<string>) returns (companyName: string)
      requires Valid()
      modifies this`cache, this`refreshCount
      ensures Valid()
      ensures Answer(companyName, State()) == CompanyNameLookup(old(State()), ticker, today, now, fetched)
    {
      if ticker in cache && cache[ticker].lastUpdated + CacheRefreshIntervalDays >= today {
        return cache[ticker].companyName;
      }
      if ticker in cache && refreshCount < RefreshBudget {
        refreshCount := refreshCount + 1;
        companyName := RefreshCompanyName(ticker, now, fetched);
        return;
      }
      if ticker !in cache {
        companyName := RefreshCompanyName(ticker, now, fetched);
        return;
      }
      return cache[ticker].companyName;
    }

    /** RefreshCompanyNameAsync */
    method RefreshCompanyName(ticker: string, now: int, fetched: Option<string>) returns (companyName: string)
      modifies this`cache
      ensures companyName == NameOrUnknown(fetched)
      ensures cache == old(cache)[ticker := CachedCompanyData(companyName, now)]
    {
      companyName := if fetched.Some? then fetched.value else UnknownCompany;
      cache := cache[ticker := CachedCompanyData(companyName, now)];
    }

    /** UploadToAzureBlobAsync, recorded as the blob name. */
    method UploadToBlob(blobName: string)
      modifies this`uploads
      ensures uploads == old(uploads) + [blobName]
    {
      uploads := uploads + [blobName];
    }

    /** UpdateDataJson: append exactly one record, leaving the earlier ones. */
    method UpdateDataJson(file: ChartFile, ticker: string, companyName: string)
      modifies this`jsonData
      ensures jsonData == old(jsonData) + [ChartRecord(file, ticker, companyName)]
    {
      var chartData := ChartData(ticker, companyName, file.lastWriteDate, ChartBlobPrefix + file.fileName, "");
      jsonData := jsonData + [chartData];
    }

    /** One pass of the loop in ProcessChartsAsync: look up the company name
      of the file's ticker, upload the chart, append its record. */
    method ProcessChart(chartFile: ChartFile, today: int, now: int, search: string -> Option<string>)
      requires Valid()
      modifies this
      ensures Valid()
      ensures Current() == ProcessStep(old(Current()), chartFile, RunLookup(today, now, search))
    {
      var ticker := FileNameWithoutExtension(chartFile.fileName);
      var companyName := GetCompanyName(ticker, today, now, search(ticker));
      UploadToBlob(ChartBlobPrefix + chartFile.fileName);
      UpdateDataJson(chartFile, ticker, companyName);
    }

    /** ProcessChartsAsync: every chart file in enumeration order, then the
      manifest's own upload. */
    method ProcessCharts(chartFiles: seq<ChartFile>, today: int, now: int, search: string -> Option<string>)
      requires Valid()
      modifies this
      ensures Valid()
      ensures var q := ProcessFirst(old(Current()), chartFiles, |chartFiles|, RunLookup(today, now, search));
        Current() == q.(uploads := q.uploads + [DataJsonBlob])
    {
      ghost var start := Current();
      for i := 0 to |chartFiles|
        invariant Valid()
        invariant Current() == ProcessFirst(start, chartFiles, i, RunLookup(today, now, search))
      {
        ProcessChart(chartFiles[i], today, now, search);
      }
      UploadToBlob(DataJsonBlob);
    }
  }
}
