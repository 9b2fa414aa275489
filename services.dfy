/** Ingestion (internal/services/repository_service.go) without the network
    and the goroutines: paginated collection of repositories that have a
    primary language, per-repository language lookup, newest-first sort, and
    the transformation into cached records.

    The search capability is a finite sequence of pages indexed by the page
    counter the service computes (0, 1, 2, ...); pages past its end are empty.
    The language lookups are a function from an entry's position in the
    collected list, and the repository at that position, to either a map or
    an error, so two equal hits may get different outcomes. */
module Services {
  import opened Wrappers
  import opened Models

  /** `PerPage` of the search options. */
  const PerPage: nat := 100
  /** How many repositories one ingestion collects at most. */
  const TargetCount: nat := 100

  /** The fields of a search hit that the service reads. A missing owner,
      name or timestamp already reads as Go's zero value; the license may be
      missing (or have no name). */
  datatype Repository = Repository(
    ownerLogin: string,
    name: string,
    fullName: string,
    language: string,
    licenseName: Option<string>,
    createdAt: Timestamp,
    updatedAt: Timestamp,
    pushedAt: Timestamp,
    stargazersCount: int,
    forksCount: int,
    openIssuesCount: int
  )

  /** One answer of the search capability. */
  datatype SearchPage = Page(repositories: seq<Repository>) | SearchFailed(reason: string)

  datatype ServiceError = SearchError(reason: string)

  function PageAt(pages: seq<SearchPage>, n: nat): SearchPage {
    if n < |pages| then pages[n] else Page([])
  }

  function ItemsOf(p: SearchPage): seq<Repository> {
    if p.Page? then p.repositories else []
  }

  // ---------------------------------------------------------------------
  // Reference definition of fetchReposWithLanguage
  // ---------------------------------------------------------------------

  /** The hits with a non-empty primary language, in order. */
  function WithLanguage(rs: seq<Repository>): seq<Repository> {
    if rs == [] then []
    else (if rs[0].language != "" then [rs[0]] else []) + WithLanguage(rs[1..])
  }

  /** Only hits of the input, and only those with a language, survive. */
  lemma {:induction false} WithLanguageSound(rs: seq<Repository>, x: Repository)
    ensures x in WithLanguage(rs) <==> x.language != "" && x in rs
  {
    if rs != [] {
      WithLanguageSound(rs[1..], x);
      assert rs == [rs[0]] + rs[1..];
    }
  }

  lemma {:induction false} WithLanguageAppend(a: seq<Repository>, b: seq<Repository>)
    ensures WithLanguage(a + b) == WithLanguage(a) + WithLanguage(b)
  {
    if a != [] {
      WithLanguageAppend(a[1..], b);
      assert (a + b)[1..] == a[1..] + b;
    } else {
      assert a + b == b;
    }
  }

  /** The hits of pages 0 .. k-1, in order. */
  function Concat(pages: seq<SearchPage>, k: nat): seq<Repository> {
    if k == 0 then [] else Concat(pages, k - 1) + ItemsOf(PageAt(pages, k - 1))
  }

  /** What pages 0 .. k-1 contribute, before the cut at `TargetCount`. */
  function Collected(pages: seq<SearchPage>, k: nat): seq<Repository> {
    WithLanguage(Concat(pages, k))
  }

  /** The first `n` elements of `s`, or all of `s` when it is shorter. */
  function Take<T>(s: seq<T>, n: nat): (r: seq<T>)
    ensures r <= s
    ensures |s| <= n ==> r == s
    ensures |s| >= n ==> |r| == n
  {
    if |s| <= n then s else s[..n]
  }

  /** After page `j` the service asks for page `j + 1`: page `j` was
      answered, was full, and the collection is still short of the target. */
  predicate Continues(pages: seq<SearchPage>, j: nat) {
    && PageAt(pages, j).Page?
    && |PageAt(pages, j).repositories| >= PerPage
    && |Collected(pages, j + 1)| < TargetCount
  }

  function StopFrom(pages: seq<SearchPage>, j: nat): (k: nat)
    ensures j <= k && !Continues(pages, k)
    ensures forall i :: j <= i < k ==> Continues(pages, i)
    decreases |pages| - j
  {
    if Continues(pages, j) then StopFrom(pages, j + 1) else j
  }

  /** The last page requested: every earlier page lets the walk continue,
      this one does not. */
  function StopPage(pages: seq<SearchPage>): (k: nat)
    ensures !Continues(pages, k)
    ensures forall i :: 0 <= i < k ==> Continues(pages, i)
  {
    StopFrom(pages, 0)
  }

  lemma StopPageUnique(pages: seq<SearchPage>, k: nat)
    requires !Continues(pages, k)
    requires forall i :: 0 <= i < k ==> Continues(pages, i)
    ensures StopPage(pages) == k
  {
  }

  /** What `fetchReposWithLanguage` returns: the error of the last page
      requested, or the first `TargetCount` repositories with a language from
      the pages requested. */
  function FetchOutcome(pages: seq<SearchPage>): Result<seq<Repository>, ServiceError> {
    var k := StopPage(pages);
    match PageAt(pages, k)
    case SearchFailed(reason) => Failure(SearchError(reason))
    case Page(_) => Success(Take(Collected(pages, k + 1), TargetCount))
  }

  // ---------------------------------------------------------------------
  // fetchReposWithLanguage
  // ---------------------------------------------------------------------

  /** Requests pages in order, appending the hits that have a language until
      `TargetCount` are held or a page comes back shorter than `PerPage`; a
      search error aborts the walk. */
  method FetchReposWithLanguage(pages: seq<SearchPage>)
    returns (r: Result<seq<Repository>, ServiceError>)
    ensures r == FetchOutcome(pages)
  {
    var allRepos: seq<Repository> := [];
    var page: nat := 0;
    while |allRepos| < TargetCount
      invariant page <= |pages|
      invariant allRepos == Take(Collected(pages, page), TargetCount)
      invariant |allRepos| < TargetCount ==> forall j :: 0 <= j < page ==> Continues(pages, j)
      invariant |allRepos| >= TargetCount ==>
                  page >= 1 && StopPage(pages) == page - 1 && PageAt(pages, page - 1).Page?
      decreases |pages| - page
    {
      var result := PageAt(pages, page);
      if result.SearchFailed? {
        StopPageUnique(pages, page);
        return Failure(SearchError(result.reason));
      }
      var items := result.repositories;
      ghost var start := allRepos;
      var i := 0;
      while i < |items|
        invariant 0 <= i <= |items|
        invariant allRepos == start + WithLanguage(items[..i])
        invariant |allRepos| < TargetCount
      {
        WithLanguageStep(items, i);
        if items[i].language != "" {
          allRepos := allRepos + [items[i]];
          if |allRepos| == TargetCount {
            TakeFull(start, items, i);
            break;
          }
        }
        i := i + 1;
      }
      PageDone(pages, page, start, items, allRepos);
      if |items| < PerPage {
        StopPageUnique(pages, page);
        return Success(allRepos);
      }
      NextPage(pages, page, allRepos);
      page := page + 1;
    }
    return Success(allRepos);
  }

  /** After the walk over page `page`, whether or not it stopped at the
      target, the collection is the cut of everything up to that page. */
  lemma PageDone(pages: seq<SearchPage>, page: nat, start: seq<Repository>,
                 items: seq<Repository>, allRepos: seq<Repository>)
    requires PageAt(pages, page) == Page(items)
    requires start == Take(Collected(pages, page), TargetCount) && |start| < TargetCount
    requires allRepos == Take(start + WithLanguage(items), TargetCount) ||
             (allRepos == start + WithLanguage(items[..|items|]) && |allRepos| < TargetCount)
    ensures allRepos == Take(Collected(pages, page + 1), TargetCount)
  {
    assert items[..|items|] == items;
    CollectedNext(pages, page);
  }

  /** Moving to the next page keeps the walk's invariant. */
  lemma NextPage(pages: seq<SearchPage>, page: nat, allRepos: seq<Repository>)
    requires PageAt(pages, page).Page? && |PageAt(pages, page).repositories| >= PerPage
    requires allRepos == Take(Collected(pages, page + 1), TargetCount)
    requires forall j :: 0 <= j < page ==> Continues(pages, j)
    ensures page < |pages|
    ensures |allRepos| < TargetCount ==> forall j :: 0 <= j < page + 1 ==> Continues(pages, j)
    ensures |allRepos| >= TargetCount ==> StopPage(pages) == page
  {
    if |allRepos| >= TargetCount {
      StopPageUnique(pages, page);
    }
  }

  lemma WithLanguageStep(items: seq<Repository>, i: nat)
    requires i < |items|
    ensures WithLanguage(items[..i + 1]) ==
              WithLanguage(items[..i]) + (if items[i].language != "" then [items[i]] else [])
  {
    assert items[..i + 1] == items[..i] + [items[i]];
    WithLanguageAppend(items[..i], [items[i]]);
  }

  /** Reaching the target in the middle of a page keeps exactly the first
      `TargetCount` of what the page would contribute. */
  lemma TakeFull(start: seq<Repository>, items: seq<Repository>, i: nat)
    requires i < |items| && items[i].language != ""
    requires |start + WithLanguage(items[..i]) + [items[i]]| == TargetCount
    ensures start + WithLanguage(items[..i]) + [items[i]] ==
              Take(start + WithLanguage(items), TargetCount)
  {
    WithLanguageStep(items, i);
    assert items == items[..i + 1] + items[i + 1..];
    WithLanguageAppend(items[..i + 1], items[i + 1..]);
    var prefix := start + WithLanguage(items[..i + 1]);
    var rest := WithLanguage(items[i + 1..]);
    assert start + WithLanguage(items) == prefix + rest;
    TakePrefix(prefix, rest, TargetCount);
  }

  lemma TakePrefix<T>(p: seq<T>, q: seq<T>, n: nat)
    requires |p| == n
    ensures Take(p + q, n) == p
  {
    assert (p + q)[..n] == p;
  }

  lemma CollectedNext(pages: seq<SearchPage>, k: nat)
    requires PageAt(pages, k).Page?
    ensures Collected(pages, k + 1) == Collected(pages, k) + WithLanguage(PageAt(pages, k).repositories)
  {
    WithLanguageAppend(Concat(pages, k), ItemsOf(PageAt(pages, k)));
  }

  // ---------------------------------------------------------------------
  // Properties of the collection
  // ---------------------------------------------------------------------

  /** At most `TargetCount` repositories, each with a primary language. */
  lemma FetchBounded(pages: seq<SearchPage>)
    ensures FetchOutcome(pages).Success? ==>
              |FetchOutcome(pages).value| <= TargetCount &&
              forall x :: x in FetchOutcome(pages).value ==> x.language != ""
  {
    var k := StopPage(pages);
    var all := Collected(pages, k + 1);
    forall x | x in Take(all, TargetCount)
      ensures x.language != ""
    {
      WithLanguageSound(Concat(pages, k + 1), x);
    }
  }

  lemma {:induction false} ConcatPrefix(pages: seq<SearchPage>, k: nat, m: nat)
    requires k <= m
    ensures Concat(pages, k) <= Concat(pages, m)
    decreases m - k
  {
    if k < m {
      ConcatPrefix(pages, k, m - 1);
    }
  }

  lemma {:induction false} WithLanguagePrefix(a: seq<Repository>, b: seq<Repository>)
    requires a <= b
    ensures WithLanguage(a) <= WithLanguage(b)
  {
    assert b == a + b[|a|..];
    WithLanguageAppend(a, b[|a|..]);
  }

  /** The hits of the whole source, in order, that have a language. */
  function Stream(pages: seq<SearchPage>): seq<Repository> {
    WithLanguage(Concat(pages, |pages|))
  }

  /** A successful collection is an in-order prefix of the source's hits with
      a language. It is all of them up to the first short page when it holds
      fewer than `TargetCount`, and then the last page requested was short. */
  lemma FetchIsPrefixOfStream(pages: seq<SearchPage>)
    ensures FetchOutcome(pages).Success? ==> FetchOutcome(pages).value <= Stream(pages)
    ensures FetchOutcome(pages).Success? && |FetchOutcome(pages).value| < TargetCount ==>
              FetchOutcome(pages).value == Collected(pages, StopPage(pages) + 1) &&
              |ItemsOf(PageAt(pages, StopPage(pages)))| < PerPage
  {
    var k := StopPage(pages);
    if FetchOutcome(pages).Success? {
      var all := Collected(pages, k + 1);
      ConcatPastEnd(pages, k + 1);
      if k + 1 <= |pages| {
        ConcatPrefix(pages, k + 1, |pages|);
        WithLanguagePrefix(Concat(pages, k + 1), Concat(pages, |pages|));
      } else {
        ConcatPrefix(pages, |pages|, k + 1);
      }
    }
  }

  /** Pages past the end of the source add nothing. */
  lemma {:induction false} ConcatPastEnd(pages: seq<SearchPage>, k: nat)
    ensures k >= |pages| ==> Concat(pages, k) == Concat(pages, |pages|)
    decreases k
  {
    if k > |pages| {
      ConcatPastEnd(pages, k - 1);
    }
  }

  /** A search error on the last page requested aborts the walk with that
      error and no repositories; every earlier page was answered. */
  lemma FetchFailsOnlyOnSearchError(pages: seq<SearchPage>)
    ensures FetchOutcome(pages).Failure? <==> PageAt(pages, StopPage(pages)).SearchFailed?
    ensures FetchOutcome(pages).Failure? ==>
              FetchOutcome(pages).error == SearchError(PageAt(pages, StopPage(pages)).reason)
    ensures forall j :: 0 <= j < StopPage(pages) ==> PageAt(pages, j).Page?
  {
    forall j | 0 <= j < StopPage(pages)
      ensures PageAt(pages, j).Page?
    {
      assert Continues(pages, j);
    }
  }

  /** A first page holding `TargetCount` repositories with a language is the
      whole answer, whatever follows it: no second page is requested. */
  lemma FullFirstPageSuffices(pages: seq<SearchPage>)
    requires |pages| >= 1 && pages[0].Page? && |pages[0].repositories| == TargetCount
    requires forall x :: x in pages[0].repositories ==> x.language != ""
    ensures StopPage(pages) == 0
    ensures FetchOutcome(pages) == Success(pages[0].repositories)
  {
    AllHaveLanguage(pages[0].repositories);
    assert Concat(pages, 1) == pages[0].repositories;
    StopPageUnique(pages, 0);
  }

  /** A short first page whose hits all have a language is returned whole,
      even though it is below the target. */
  lemma ShortFirstPageReturnedWhole(pages: seq<SearchPage>)
    requires |pages| >= 1 && pages[0].Page? && |pages[0].repositories| < PerPage
    requires forall x :: x in pages[0].repositories ==> x.language != ""
    ensures FetchOutcome(pages) == Success(pages[0].repositories)
  {
    AllHaveLanguage(pages[0].repositories);
    assert Concat(pages, 1) == pages[0].repositories;
    StopPageUnique(pages, 0);
  }

  lemma {:induction false} AllHaveLanguage(rs: seq<Repository>)
    requires forall x :: x in rs ==> x.language != ""
    ensures WithLanguage(rs) == rs
  {
    if rs != [] {
      AllHaveLanguage(rs[1..]);
    }
  }

  // ---------------------------------------------------------------------
  // Language details
  // ---------------------------------------------------------------------

  /** A repository and its languages; `None` is the nil map left by a failed
      lookup. */
  datatype RepoInfo = RepoInfo(repo: Repository, languages: Option<map<string, int>>)

  /** The outcomes of the remote per-repository language queries: `lookup(i, r)`
      is what the query made for entry `i` of the collected list, holding
      `r`, returned. */
  type LanguageLookup = (nat, Repository) -> Result<map<string, int>, string>

  /** `fetchLanguageDetails`: the looked-up map, or nil when the lookup
      failed. */
  function FetchRepoLanguages(lookup: LanguageLookup, i: nat, repo: Repository): (langs: Option<map<string, int>>)
    ensures langs.None? <==> lookup(i, repo).Failure?
    ensures langs.Some? ==> langs.value == lookup(i, repo).value
  {
    match lookup(i, repo)
    case Success(m) => Some(m)
    case Failure(_) => None
  }

  /** `FetchLanguageDetails`, one repository after another: every entry's
      languages are replaced by the outcome of its own lookup. */
  method FetchLanguageDetails(infos: array<RepoInfo>, lookup: LanguageLookup)
    modifies infos
    ensures forall i :: 0 <= i < infos.Length ==>
              infos[i] == old(infos[i]).(languages := FetchRepoLanguages(lookup, i, old(infos[i]).repo))
  {
    for i := 0 to infos.Length
      invariant forall j :: 0 <= j < i ==>
                  infos[j] == old(infos[j]).(languages := FetchRepoLanguages(lookup, j, old(infos[j]).repo))
      invariant forall j :: i <= j < infos.Length ==> infos[j] == old(infos[j])
    {
      infos[i] := infos[i].(languages := FetchRepoLanguages(lookup, i, infos[i].repo));
    }
  }

  // ---------------------------------------------------------------------
  // Newest-first sort
  // ---------------------------------------------------------------------

  predicate NewestFirst(s: seq<RepoInfo>) {
    forall i, j :: 0 <= i < j < |s| ==> s[i].repo.createdAt >= s[j].repo.createdAt
  }

  method Swap(a: array<RepoInfo>, i: nat, j: nat)
    requires i < a.Length && j < a.Length
    modifies a
    ensures a[..] == old(a[..])[i := old(a[j])][j := old(a[i])]
    ensures multiset(a[..]) == multiset(old(a[..]))
  {
    a[i], a[j] := a[j], a[i];
  }

  /** `sort.Slice` by creation time, newest first. The sort is not stable, so
      nothing is promised about the order of equal timestamps. */
  method SortNewestFirst(a: array<RepoInfo>)
    modifies a
    ensures NewestFirst(a[..])
    ensures multiset(a[..]) == multiset(old(a[..]))
  {
    for i := 0 to a.Length
      invariant forall k, l :: 0 <= k < l < i ==> a[k].repo.createdAt >= a[l].repo.createdAt
      invariant multiset(a[..]) == multiset(old(a[..]))
    {
      var j := i;
      while j > 0 && a[j - 1].repo.createdAt < a[j].repo.createdAt
        invariant 0 <= j <= i
        invariant forall k, l :: 0 <= k < l <= i && l != j ==> a[k].repo.createdAt >= a[l].repo.createdAt
        invariant multiset(a[..]) == multiset(old(a[..]))
      {
        Swap(a, j - 1, j);
        j := j - 1;
      }
    }
  }

  // ---------------------------------------------------------------------
  // GetTodaysPublicRepos
  // ---------------------------------------------------------------------

  /** Each collected repository with the outcome of its own lookup. */
  function Enriched(rs: seq<Repository>, lookup: LanguageLookup): seq<RepoInfo> {
    seq(|rs|, i requires 0 <= i < |rs| => RepoInfo(rs[i], FetchRepoLanguages(lookup, i, rs[i])))
  }

  /** Collects the repositories, gives each an empty languages map, replaces
      it by the lookup's outcome, and sorts newest first. A search error is
      passed on unchanged. */
  method GetTodaysPublicRepos(pages: seq<SearchPage>, lookup: LanguageLookup)
    returns (r: Result<seq<RepoInfo>, ServiceError>)
    ensures FetchOutcome(pages).Failure? ==> r == Failure(FetchOutcome(pages).error)
    ensures FetchOutcome(pages).Success? ==>
              && r.Success?
              && multiset(r.value) == multiset(Enriched(FetchOutcome(pages).value, lookup))
              && NewestFirst(r.value)
              && |r.value| <= TargetCount
              && forall x :: x in r.value ==> x.repo.language != ""
  {
    var fetched := FetchReposWithLanguage(pages);
    if fetched.Failure? {
      return Failure(fetched.error);
    }
    var repos := fetched.value;
    var infos := new RepoInfo[|repos|];
    for i := 0 to |repos|
      invariant forall j :: 0 <= j < i ==> infos[j] == RepoInfo(repos[j], Some(map[]))
    {
      infos[i] := RepoInfo(repos[i], Some(map[]));
    }
    FetchLanguageDetails(infos, lookup);
    assert infos[..] == Enriched(repos, lookup);
    SortNewestFirst(infos);
    FetchBounded(pages);
    forall x | x in infos[..] ensures x.repo.language != "" {
      assert x in multiset(infos[..]);
      var k :| 0 <= k < |repos| && Enriched(repos, lookup)[k] == x;
      assert repos[k] in repos;
    }
    return Success(infos[..]);
  }

  // ---------------------------------------------------------------------
  // Transformation
  // ---------------------------------------------------------------------

  datatype TransformError = TransformError(reason: string)

  /** The language map of a record: one entry per looked-up language, nothing
      for a failed lookup. */
  function LanguageRecords(langs: Option<map<string, int>>): (r: map<string, Language>)
    ensures langs.None? ==> r == map[]
    ensures langs.Some? ==> r.Keys == langs.value.Keys
    ensures langs.Some? ==> forall l :: l in r ==> r[l].bytes == langs.value[l]
  {
    match langs
    case None => map[]
    case Some(m) => map l | l in m :: Language(m[l])
  }

  /** `transformSingleRepo`: copies the hit's fields, turns the byte counts
      into Language records and a missing license into the empty name. It
      never fails. */
  function TransformSingleRepo(info: RepoInfo): (r: Result<CustomRepository, TransformError>)
    ensures r.Success?
    ensures r.value.languages == LanguageRecords(info.languages)
    ensures r.value.license == info.repo.licenseName.GetOr("")
    ensures r.value.fullName == info.repo.fullName && r.value.owner == info.repo.ownerLogin
    ensures r.value.repository == info.repo.name
    ensures r.value.createdAt == info.repo.createdAt && r.value.updatedAt == info.repo.updatedAt
    ensures r.value.pushedAt == info.repo.pushedAt
    ensures r.value.stars == info.repo.stargazersCount && r.value.forks == info.repo.forksCount
    ensures r.value.issues == info.repo.openIssuesCount
  {
    var repo := info.repo;
    Success(CustomRepository(
      fullName := repo.fullName,
      owner := repo.ownerLogin,
      repository := repo.name,
      languages := LanguageRecords(info.languages),
      license := repo.licenseName.GetOr(""),
      createdAt := repo.createdAt,
      updatedAt := repo.updatedAt,
      pushedAt := repo.pushedAt,
      stars := repo.stargazersCount,
      forks := repo.forksCount,
      issues := repo.openIssuesCount))
  }

  /** Reading the byte counts back out of a record gives the looked-up map,
      or the empty map after a failed lookup. */
  lemma LanguageRecordsRoundTrip(langs: Option<map<string, int>>)
    ensures (map l | l in LanguageRecords(langs) :: LanguageRecords(langs)[l].bytes) ==
              langs.GetOr(map[])
  {
  }

  /** `TransformToCustomRepositories`, one index after another: result `i`
      is the transform of input `i`. Since no single transform fails, neither
      does the whole. */
  method TransformToCustomRepositories(infos: seq<RepoInfo>)
    returns (r: Result<seq<CustomRepository>, TransformError>)
    ensures r.Success? && |r.value| == |infos|
    ensures forall i :: 0 <= i < |infos| ==> TransformSingleRepo(infos[i]) == Success(r.value[i])
  {
    var customRepos := new CustomRepository[|infos|];
    for i := 0 to |infos|
      invariant forall j :: 0 <= j < i ==> TransformSingleRepo(infos[j]) == Success(customRepos[j])
    {
      var customRepo := TransformSingleRepo(infos[i]);
      customRepos[i] := customRepo.value;
    }
    return Success(customRepos[..]);
  }
}
