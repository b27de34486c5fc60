/** The orchestration in application.ts around the per-repository
    synchronization: the options gate of `main`, the discovery of the forks
    page by page, and the per-fork detail requests. The repository directory
    service is an oracle from (username, page) or (username, name) to its
    answer. */
module Application {
  import opened Base
  import opened Settings
  import opened GitHub

  // ---------------------------------------------------------------------------
  // main

  datatype Launch = Started | Thrown(message: string)

  /** `main()`: invalid options throw "Invalid options" before anything is
      requested; valid options start the run. */
  function CheckOptions(o: Options): (r: Launch)
    ensures r == Started <==> IsValid(o)
    ensures r != Started ==> r == Thrown("Invalid options")
  {
    if IsValid(o) then Started else Thrown("Invalid options")
  }

  /** A run never starts without a user name, a token and a directory. */
  lemma MissingOptionStopsLaunch(o: Options)
    requires !Truthy(o.username) || !Truthy(o.apiToken) || !Truthy(o.directoryPath)
    ensures CheckOptions(o) == Thrown("Invalid options")
  {
  }

  // ---------------------------------------------------------------------------
  // getForkedRepositories

  /** The forks of a list, in their order: the list with every entry whose
      `fork` flag is not `true` removed. Defined from the end, as entries are
      pushed onto the accumulator. */
  function FilterForks(s: seq<RepoResult>): (r: seq<RepoResult>)
    ensures |r| <= |s|
    ensures forall i :: 0 <= i < |r| ==> r[i].fork
    decreases |s|
  {
    if s == [] then []
    else FilterForks(s[..|s| - 1]) + (if s[|s| - 1].fork then [s[|s| - 1]] else [])
  }

  /** The entries of a page; a failed page has none. */
  function PageEntries(p: PageResult): seq<RepoResult> {
    if p.Page? then p.repos else []
  }

  /** A page ends the discovery: it failed, or it was empty. */
  predicate EndsDiscovery(p: PageResult) {
    p.PageFailed? || p.repos == []
  }

  /** The forks found on pages 1 to n, in page order. */
  function ForksUpTo(getRepos: (string, int) -> PageResult, username: string, n: nat): seq<RepoResult> {
    if n == 0 then [] else ForksUpTo(getRepos, username, n - 1) + FilterForks(PageEntries(getRepos(username, n)))
  }

  datatype Discovery = Found(forks: seq<RepoResult>) | DiscoveryFailed(text: string)

  /** Page n is the first page that ends the discovery. */
  ghost predicate FirstEndingPage(getRepos: (string, int) -> PageResult, username: string, n: int) {
    && 1 <= n
    && EndsDiscovery(getRepos(username, n))
    && forall p :: 1 <= p < n ==> !EndsDiscovery(getRepos(username, p))
  }

  /** What the discovery settles to when page n ends it: the forks of the
      pages before, or the failure of page n. */
  function DiscoveryResult(getRepos: (string, int) -> PageResult, username: string, n: nat): Discovery
    requires 1 <= n
  {
    match getRepos(username, n)
    case PageFailed(text) => DiscoveryFailed(text)
    case Page(_) => Found(ForksUpTo(getRepos, username, n - 1))
  }

  /** The page numbers 1 to n, in order. */
  function Pages(n: nat): (ps: seq<int>)
    ensures |ps| == n
    ensures forall i :: 0 <= i < n ==> ps[i] == i + 1
  {
    if n == 0 then [] else Pages(n - 1) + [n]
  }

  /** `getForkedRepositories()`: request pages 1, 2, ... until one is empty
      or fails, collecting the forks of every page on the way. An empty page
      resolves with all forks collected; a failed page rejects with its
      error. */
  method GetForkedRepositories(getRepos: (string, int) -> PageResult, username: string)
    returns (outcome: Discovery, ghost requested: seq<int>)
    requires exists k :: 1 <= k && EndsDiscovery(getRepos(username, k))
    ensures FirstEndingPage(getRepos, username, |requested|)
    ensures requested == Pages(|requested|)
    ensures outcome == DiscoveryResult(getRepos, username, |requested|)
    ensures forall n :: FirstEndingPage(getRepos, username, n) ==> outcome == DiscoveryResult(getRepos, username, n)
  {
    ghost var last :| 1 <= last && EndsDiscovery(getRepos(username, last));
    var repositories: seq<RepoResult> := [];
    var page := 1;
    var answer := getRepos(username, page);
    requested := [page];
    while !EndsDiscovery(answer)
      invariant 1 <= page <= last
      invariant answer == getRepos(username, page)
      invariant requested == Pages(page)
      invariant forall p :: 1 <= p < page ==> !EndsDiscovery(getRepos(username, p))
      invariant repositories == ForksUpTo(getRepos, username, page - 1)
      decreases last - page
    {
      ForksUpToNext(getRepos, username, page, repositories);
      repositories := PushForks(repositories, answer.repos);
      page := page + 1;
      answer := getRepos(username, page);
      requested := requested + [page];
    }
    if answer.PageFailed? {
      outcome := DiscoveryFailed(answer.text);
    } else {
      outcome := Found(repositories);
    }
    forall n | FirstEndingPage(getRepos, username, n) ensures n == page {
      FirstEndingPageUnique(getRepos, username, n, page);
    }
  }

  /** Only one page is the first to end the discovery. */
  lemma FirstEndingPageUnique(getRepos: (string, int) -> PageResult, username: string, n: int, m: int)
    requires FirstEndingPage(getRepos, username, n) && FirstEndingPage(getRepos, username, m)
    ensures n == m
  {
  }

  lemma ForksUpToNext(getRepos: (string, int) -> PageResult, username: string, page: nat,
                      repositories: seq<RepoResult>)
    requires 1 <= page && getRepos(username, page).Page?
    requires repositories == ForksUpTo(getRepos, username, page - 1)
    ensures repositories + FilterForks(getRepos(username, page).repos) == ForksUpTo(getRepos, username, page)
  {
  }

  /** The `for` loop over one page: every entry whose `fork` flag is `true`
      is pushed onto the accumulator. */
  method PushForks(repositories: seq<RepoResult>, repos: seq<RepoResult>) returns (r: seq<RepoResult>)
    ensures r == repositories + FilterForks(repos)
  {
    r := repositories;
    for i := 0 to |repos|
      invariant r == repositories + FilterForks(repos[..i])
    {
      FilterForksStep(repos, i);
      if repos[i].fork == true {
        r := r + [repos[i]];
      }
    }
    assert repos[..|repos|] == repos;
  }

  lemma FilterForksStep(s: seq<RepoResult>, i: nat)
    requires i < |s|
    ensures FilterForks(s[..i + 1]) == FilterForks(s[..i]) + (if s[i].fork then [s[i]] else [])
  {
    assert s[..i + 1][..i] == s[..i];
  }

  /** An entry is kept exactly when it is a fork, as often as it occurs. */
  lemma {:induction false} FilterForksCount(s: seq<RepoResult>, x: RepoResult)
    ensures multiset(FilterForks(s))[x] == if x.fork then multiset(s)[x] else 0
    decreases |s|
  {
    if s != [] {
      var init, y := s[..|s| - 1], s[|s| - 1];
      FilterForksCount(init, x);
      assert s == init + [y];
    }
  }

  /** The forks keep their order. */
  lemma {:induction false} FilterForksInOrder(s: seq<RepoResult>)
    ensures IsSubsequence(FilterForks(s), s)
    decreases |s|
  {
    if s != [] {
      var init, y := s[..|s| - 1], s[|s| - 1];
      FilterForksInOrder(init);
      assert s == init + [y];
      if y.fork {
        assert FilterForks(s) == FilterForks(init) + [y];
        SubsequenceSnocBoth(FilterForks(init), init, y);
      } else {
        assert FilterForks(s) == FilterForks(init) + [] == FilterForks(init);
        SubsequenceSnocRight(FilterForks(init), init, y);
        assert IsSubsequence(FilterForks(init), init + [y]);
      }
    }
  }

  /** Filtering two lists one after the other is filtering their
      concatenation. */
  lemma {:induction false} FilterForksAppend(s: seq<RepoResult>, t: seq<RepoResult>)
    ensures FilterForks(s + t) == FilterForks(s) + FilterForks(t)
    decreases |t|
  {
    if t == [] {
      assert s + t == s;
    } else {
      var init, y := t[..|t| - 1], t[|t| - 1];
      assert (s + t)[..|s + t| - 1] == s + init;
      FilterForksAppend(s, init);
    }
  }

  /** An entry is among the forks of a list exactly when it is a fork of
      the list. */
  lemma FilterForksMember(s: seq<RepoResult>, x: RepoResult)
    ensures x in FilterForks(s) <==> x.fork && x in s
  {
    FilterForksCount(s, x);
    assert x in FilterForks(s) <==> multiset(FilterForks(s))[x] > 0;
    assert x in s <==> multiset(s)[x] > 0;
  }

  /** The forks found up to page n are exactly the entries of those pages
      that are forks. */
  lemma {:induction false} ForksUpToMembers(getRepos: (string, int) -> PageResult, username: string,
                                            n: nat, x: RepoResult)
    ensures x in ForksUpTo(getRepos, username, n) <==>
      x.fork && exists p :: 1 <= p <= n && x in PageEntries(getRepos(username, p))
  {
    if n > 0 {
      ForksUpToMembers(getRepos, username, n - 1, x);
      FilterForksMember(PageEntries(getRepos(username, n)), x);
    }
  }

  // ---------------------------------------------------------------------------
  // getRepositoryDetails

  datatype Details = AllFetched(repos: seq<DetailedRepoResult>) | FetchFailed(text: string)

  /** `getRepositoryDetails(repos)`: one `getRepo(username, name)` request
      per fork, all of them issued, in the order of the list. The result
      lists every answer in that order when all succeed; otherwise it fails
      with the error of one of the failed requests. */
  method GetRepositoryDetails(getRepo: (string, string) -> DetailResult, username: string,
                              forks: seq<RepoResult>)
    returns (outcome: Details, ghost requested: seq<string>)
    ensures |requested| == |forks|
    ensures forall i :: 0 <= i < |forks| ==> requested[i] == forks[i].name
    ensures outcome.AllFetched? <==> forall i :: 0 <= i < |forks| ==> getRepo(username, forks[i].name).Detail?
    ensures outcome.AllFetched? ==>
      && |outcome.repos| == |forks|
      && forall i :: 0 <= i < |forks| ==> outcome.repos[i] == getRepo(username, forks[i].name).repo
    ensures outcome.FetchFailed? ==>
      exists i :: 0 <= i < |forks| && getRepo(username, forks[i].name) == DetailFailed(outcome.text)
  {
    var results: seq<DetailedRepoResult> := [];
    var failure: Option<string> := None;
    requested := [];
    for i := 0 to |forks|
      invariant |requested| == i
      invariant forall j :: 0 <= j < i ==> requested[j] == forks[j].name
      invariant failure.None? <==> forall j :: 0 <= j < i ==> getRepo(username, forks[j].name).Detail?
      invariant failure.None? ==>
        && |results| == i
        && forall j :: 0 <= j < i ==> results[j] == getRepo(username, forks[j].name).repo
      invariant failure.Some? ==>
        exists j :: 0 <= j < i && getRepo(username, forks[j].name) == DetailFailed(failure.value)
    {
      var answer := getRepo(username, forks[i].name);
      requested := requested + [forks[i].name];
      match answer
      case Detail(repo) =>
        if failure.None? {
          results := results + [repo];
        }
      case DetailFailed(text) =>
        if failure.None? {
          failure := Some(text);
        }
    }
    if failure.None? {
      outcome := AllFetched(results);
    } else {
      outcome := FetchFailed(failure.value);
    }
  }
}
