/** Scrape aggregation (`scrape_jobs`). The browser and the search engine are
    inputs: whether the driver started, and for each keyword, in order, the
    URLs the search yielded, each with the outcome of fetching it, and the
    point (if any) at which the search raised. */
module Scraper {
  import opened Wrappers
  import opened Strings
  import opened Recency

  /** Fetching one URL: the page's text, or a browser or parsing error. */
  datatype FetchOutcome = Page(text: string) | FetchError

  /** One search result with what fetching it gave. */
  datatype Candidate = Candidate(url: string, fetch: FetchOutcome)

  /** One search call: the URLs it would yield, and `Some(n)` when asking it
      for the URL after the first `n` raises instead. */
  datatype SearchRun = SearchRun(results: seq<Candidate>, raisesAfter: Option<nat>)

  /** Words whose presence marks a page as a job posting. */
  const HiringTerms: seq<string> := ["apply now", "vacancy", "hiring", "job", "careers"]

  predicate Relevant(t: string)
  {
    exists i :: 0 <= i < |HiringTerms| && Contains(t, HiringTerms[i])
  }

  /** A fetched page that mentions hiring and looks recent. */
  predicate Accepts(c: Candidate)
  {
    c.fetch.Page? && Relevant(Lower(c.fetch.text)) && LooksRecent(c.fetch.text)
  }

  /** The URLs a search run actually hands to the loop before it ends or raises. */
  function Yielded(run: SearchRun): (r: seq<Candidate>)
    ensures r <= run.results
    ensures run.raisesAfter.None? ==> r == run.results
  {
    match run.raisesAfter
    case None => run.results
    case Some(n) => if n < |run.results| then run.results[..n] else run.results
  }

  /** The accepted URLs among `cs`, in the order yielded. */
  function AcceptedUrls(cs: seq<Candidate>): seq<string>
  {
    if cs == [] then []
    else (if Accepts(cs[0]) then [cs[0].url] else []) + AcceptedUrls(cs[1..])
  }

  /** The map after the first `n` keywords have been processed: each key's
      entry is set afresh by its latest occurrence. */
  function Aggregate(keywords: seq<string>, runs: seq<SearchRun>, n: nat): map<string, seq<string>>
    requires |runs| == |keywords| && n <= |keywords|
  {
    if n == 0 then map[]
    else Aggregate(keywords, runs, n - 1)[keywords[n - 1] := AcceptedUrls(Yielded(runs[n - 1]))]
  }

  /** What `scrape_jobs` returns. */
  function ScrapeResults(driverStarted: bool, keywords: seq<string>, runs: seq<SearchRun>): map<string, seq<string>>
    requires |runs| == |keywords|
  {
    if driverStarted then Aggregate(keywords, runs, |keywords|) else map[]
  }

  /** `scrape_jobs`: every keyword's entry is set to the empty list before its
      search runs; each yielded URL whose fetch succeeded and whose page text
      is relevant and recent is appended; a failed fetch skips only its URL and
      a raising search ends only its own keyword. */
  method ScrapeJobs(driverStarted: bool, keywords: seq<string>, runs: seq<SearchRun>)
    returns (results: map<string, seq<string>>)
    requires |runs| == |keywords|
    ensures results == ScrapeResults(driverStarted, keywords, runs)
    ensures !driverStarted ==> results == map[]
    ensures driverStarted ==> results.Keys == set k | k in keywords
  {
    if !driverStarted {
      return map[];
    }
    results := map[];
    for i := 0 to |keywords|
      invariant results == Aggregate(keywords, runs, i)
      invariant results.Keys == set k | k in keywords[..i]
    {
      var keyword := keywords[i];
      results := results[keyword := []];
      var run := runs[i];
      var j := 0;
      while j < |run.results|
        invariant 0 <= j <= |run.results|
        invariant run.raisesAfter.Some? ==> j <= run.raisesAfter.value
        invariant results == Aggregate(keywords, runs, i)[keyword := AcceptedUrls(run.results[..j])]
      {
        if run.raisesAfter == Some(j) {
          // the search raised: the URLs accepted so far stay
          break;
        }
        var candidate := run.results[j];
        ghost var before := results;
        assert keyword in results && results[keyword] == AcceptedUrls(run.results[..j]);
        match candidate.fetch {
          case FetchError =>
            assert before[keyword] + [] == before[keyword];
          case Page(page) =>
            var text := Lower(page);
            var recent := IsRecentJobPosting(text);
            LooksRecentOfLower(page);
            assert Accepts(candidate) <==> Relevant(text) && recent;
            if Relevant(text) && recent {
              results := results[keyword := results[keyword] + [candidate.url]];
            } else {
              assert before[keyword] + [] == before[keyword];
            }
        }
        assert results == before[keyword := before[keyword] + (if Accepts(candidate) then [candidate.url] else [])];
        assert AcceptedUrls([candidate]) == if Accepts(candidate) then [candidate.url] else [];
        AcceptedUrlsConcat(run.results[..j], [candidate]);
        assert run.results[..j + 1] == run.results[..j] + [candidate];
        j := j + 1;
      }
      assert run.results[..j] == Yielded(run);
      assert keywords[..i + 1] == keywords[..i] + [keyword];
    }
    assert keywords[..|keywords|] == keywords;
  }

  /** Filtering distributes over concatenation: the URLs accepted from a run
      are those of its first part followed by those of the rest. */
  lemma {:induction false} AcceptedUrlsConcat(a: seq<Candidate>, b: seq<Candidate>)
    ensures AcceptedUrls(a + b) == AcceptedUrls(a) + AcceptedUrls(b)
  {
    if a == [] {
      assert a + b == b;
    } else {
      assert (a + b)[1..] == a[1..] + b;
      AcceptedUrlsConcat(a[1..], b);
    }
  }

  /** A URL is accepted exactly when some candidate with that URL was fetched
      and passed both tests. */
  lemma {:induction false} AcceptedUrlsMembers(cs: seq<Candidate>, u: string)
    ensures u in AcceptedUrls(cs) <==> exists j :: 0 <= j < |cs| && cs[j].url == u && Accepts(cs[j])
  {
    if cs != [] {
      AcceptedUrlsMembers(cs[1..], u);
      if j :| 0 <= j < |cs[1..]| && cs[1..][j].url == u && Accepts(cs[1..][j]) {
        assert cs[j + 1] == cs[1..][j];
      }
      if j :| 0 <= j < |cs| && cs[j].url == u && Accepts(cs[j]) {
        if j > 0 {
          assert cs[1..][j - 1] == cs[j];
        }
      }
    }
  }

  /** A failed fetch removes only its own URL: those before and after it are
      judged as if it were not there. */
  lemma FailedFetchSkipped(before: seq<Candidate>, url: string, after: seq<Candidate>)
    ensures AcceptedUrls(before + [Candidate(url, FetchError)] + after)
            == AcceptedUrls(before) + AcceptedUrls(after)
  {
    AcceptedUrlsConcat(before + [Candidate(url, FetchError)], after);
    AcceptedUrlsConcat(before, [Candidate(url, FetchError)]);
  }

  /** A search that raises after `n` URLs keeps the URLs accepted among those
      `n`: a prefix of what the full search would have given. */
  lemma SearchFailureKeepsPrefix(results: seq<Candidate>, n: nat)
    requires n <= |results|
    ensures AcceptedUrls(Yielded(SearchRun(results, Some(n)))) == AcceptedUrls(results[..n])
    ensures AcceptedUrls(results[..n]) <= AcceptedUrls(results)
  {
    assert Yielded(SearchRun(results, Some(n))) == results[..n];
    var a, b := results[..n], results[n..];
    assert a + b == results;
    AcceptedUrlsConcat(a, b);
    assert AcceptedUrls(results) == AcceptedUrls(a) + AcceptedUrls(b);
  }

  /** The keys of the result are exactly the keywords processed. */
  lemma {:induction false} AggregateKeys(keywords: seq<string>, runs: seq<SearchRun>, n: nat)
    requires |runs| == |keywords| && n <= |keywords|
    ensures Aggregate(keywords, runs, n).Keys == set k | k in keywords[..n]
  {
    if n > 0 {
      AggregateKeys(keywords, runs, n - 1);
      assert keywords[..n] == keywords[..n - 1] + [keywords[n - 1]];
    }
  }

  /** A keyword's entry is what its last search accepted: later keywords
      leave it alone, and an earlier occurrence of the same keyword is
      overwritten. */
  lemma {:induction false} AggregateEntry(keywords: seq<string>, runs: seq<SearchRun>, n: nat, i: nat)
    requires |runs| == |keywords| && i < n <= |keywords|
    requires forall j :: i < j < n ==> keywords[j] != keywords[i]
    ensures keywords[i] in Aggregate(keywords, runs, n)
    ensures Aggregate(keywords, runs, n)[keywords[i]] == AcceptedUrls(Yielded(runs[i]))
  {
    if i < n - 1 {
      AggregateEntry(keywords, runs, n - 1, i);
    }
  }

  /** For a keyword listed once, its entry is the accepted URLs of its own
      search, whatever happened to the other keywords. */
  lemma ScrapeEntry(keywords: seq<string>, runs: seq<SearchRun>, i: nat)
    requires |runs| == |keywords| && i < |keywords|
    requires forall j :: 0 <= j < |keywords| && j != i ==> keywords[j] != keywords[i]
    ensures keywords[i] in ScrapeResults(true, keywords, runs)
    ensures ScrapeResults(true, keywords, runs)[keywords[i]] == AcceptedUrls(Yielded(runs[i]))
  {
    AggregateEntry(keywords, runs, |keywords|, i);
  }

  /** Failures are isolated per keyword: an entry depends only on the searches
      made for that keyword, so changing any other keyword's search (making it
      raise, making its fetches fail) leaves the entry as it was. */
  lemma {:induction false} AggregateIsolation(keywords: seq<string>, runs: seq<SearchRun>, runs': seq<SearchRun>, n: nat, k: string)
    requires |runs| == |keywords| == |runs'| && n <= |keywords|
    requires forall j :: 0 <= j < n && keywords[j] == k ==> runs[j] == runs'[j]
    ensures k in Aggregate(keywords, runs, n) <==> k in Aggregate(keywords, runs', n)
    ensures k in Aggregate(keywords, runs, n) ==> Aggregate(keywords, runs, n)[k] == Aggregate(keywords, runs', n)[k]
  {
    if n > 0 {
      AggregateIsolation(keywords, runs, runs', n - 1, k);
    }
  }

  /** A URL accepted twice in one search is recorded twice, whatever lies
      around or between the two candidates and whatever their pages were: the
      loop does not deduplicate. */
  lemma RepeatedUrlKept(before: seq<Candidate>, a: Candidate, middle: seq<Candidate>, b: Candidate, after: seq<Candidate>)
    requires Accepts(a) && Accepts(b) && a.url == b.url
    ensures AcceptedUrls(before + [a] + middle + [b] + after)
            == AcceptedUrls(before) + [a.url] + AcceptedUrls(middle) + [a.url] + AcceptedUrls(after)
  {
    assert AcceptedUrls([a]) == [a.url];
    assert AcceptedUrls([b]) == [a.url];
    AcceptedUrlsConcat(before + [a] + middle + [b], after);
    AcceptedUrlsConcat(before + [a] + middle, [b]);
    AcceptedUrlsConcat(before + [a], middle);
    AcceptedUrlsConcat(before, [a]);
  }

  /** A repeat of an accepted URL whose own fetch failed, or whose page fails
      a test, adds nothing: the URL is recorded once. */
  lemma RejectedRepeatDropped(a: Candidate, b: Candidate)
    requires Accepts(a) && !Accepts(b) && a.url == b.url
    ensures AcceptedUrls([a, b]) == [a.url]
  {
    assert [a, b][1..] == [b];
    assert AcceptedUrls([b]) == [];
  }
}
