/** The search endpoint's read side (internal/api/handlers/search_handler.go):
    the three query predicates, their conjunction over the query map, the
    order-preserving filter, and the response built from a cache read. */
module Handlers {
  import opened Models
  import opened GoStrings
  import Cache
  import Services

  /** Decoded query string: each key with the values given for it, in order. */
  type QueryParams = map<string, seq<string>>

  predicate IsFilterKey(key: string) {
    key == "lang" || key == "license" || key == "stars"
  }

  /** `values[0]` is read for every recognised key present, so each of them
      carries at least one value (as every decoded query string does). */
  predicate WellFormedQuery(params: QueryParams) {
    && ("lang" in params ==> |params["lang"]| > 0)
    && ("license" in params ==> |params["license"]| > 0)
    && ("stars" in params ==> |params["stars"]| > 0)
  }

  // ---------------------------------------------------------------------
  // The three predicates
  // ---------------------------------------------------------------------

  /** `repo.Languages[lang].Bytes`: a missing key reads as the zero Language. */
  function BytesFor(repo: CustomRepository, lang: string): int {
    if lang in repo.languages then repo.languages[lang].bytes else 0
  }

  predicate MatchesLanguage(repo: CustomRepository, lang: string) {
    lang == "" || BytesFor(repo, lang) > 0
  }

  predicate MatchesLicense(repo: CustomRepository, license: string) {
    license == "" || Contains(ToLower(repo.license), ToLower(license))
  }

  predicate MatchesStars(repo: CustomRepository, stars: string) {
    stars == "" || (Atoi(stars).Some? && repo.stars >= Atoi(stars).value)
  }

  /** An empty language always matches; otherwise the languages map must hold
      exactly that key (no case folding) with a positive byte count. */
  lemma MatchesLanguageExactKey(repo: CustomRepository, lang: string)
    ensures MatchesLanguage(repo, lang) <==>
              lang == "" || (lang in repo.languages && repo.languages[lang].bytes > 0)
  {
  }

  /** An empty license filter always matches; otherwise the lowercased filter
      must occur somewhere in the lowercased license name. */
  lemma MatchesLicenseSubstring(repo: CustomRepository, license: string)
    ensures MatchesLicense(repo, license) <==>
              license == "" ||
              exists i: nat :: OccursAt(ToLower(repo.license), ToLower(license), i)
  {
    ContainsIffOccurs(ToLower(repo.license), ToLower(license));
  }

  /** On a transformed record, the language filter sees the looked-up byte
      counts; a record whose lookup failed matches no non-empty language. */
  lemma TransformedLanguageMatch(info: Services.RepoInfo, lang: string)
    ensures MatchesLanguage(Services.TransformSingleRepo(info).value, lang) <==>
              lang == "" ||
              (info.languages.Some? && lang in info.languages.value && info.languages.value[lang] > 0)
  {
  }

  /** A repository without a license fails every non-empty license filter. */
  lemma NoLicenseFailsLicenseFilter(repo: CustomRepository, license: string)
    requires repo.license == "" && license != ""
    ensures !MatchesLicense(repo, license)
  {
    assert |ToLower(license)| > |ToLower(repo.license)|;
  }

  /** The license filter ignores the case of its argument. */
  lemma MatchesLicenseIgnoresCase(repo: CustomRepository, license: string)
    ensures MatchesLicense(repo, license) == MatchesLicense(repo, ToLower(license))
  {
    ToLowerIdempotent(license);
    if license != "" {
      assert |ToLower(license)| == |license|;
    }
  }

  /** A threshold written in decimal keeps exactly the repositories with at
      least that many stars. */
  lemma MatchesStarsThreshold(repo: CustomRepository, n: int)
    requires MinInt <= n <= MaxInt
    ensures MatchesStars(repo, FormatInt(n)) <==> repo.stars >= n
  {
    AtoiFormatInt(n);
  }

  /** A threshold that does not parse rejects every repository. */
  lemma UnparsableStarsRejects(repo: CustomRepository, stars: string)
    requires stars != "" && Atoi(stars).None?
    ensures !MatchesStars(repo, stars)
  {
  }

  // ---------------------------------------------------------------------
  // matchesFilters
  // ---------------------------------------------------------------------

  /** The reference meaning of a query: every recognised key present
      constrains through its first value, and nothing else does. */
  predicate Matches(repo: CustomRepository, params: QueryParams)
    requires WellFormedQuery(params)
  {
    && ("lang" in params ==> MatchesLanguage(repo, params["lang"][0]))
    && ("license" in params ==> MatchesLicense(repo, params["license"][0]))
    && ("stars" in params ==> MatchesStars(repo, params["stars"][0]))
  }

  /** What one entry of the query map demands of a repository. */
  predicate KeyPasses(repo: CustomRepository, key: string, values: seq<string>)
    requires IsFilterKey(key) ==> |values| > 0
  {
    if key == "lang" then MatchesLanguage(repo, values[0])
    else if key == "license" then MatchesLicense(repo, values[0])
    else if key == "stars" then MatchesStars(repo, values[0])
    else true
  }

  /** `matchesFilters`: visits the query map's entries in an arbitrary order
      and stops at the first recognised one that fails. The result does not
      depend on the order chosen. */
  method MatchesFilters(repo: CustomRepository, params: QueryParams) returns (ok: bool)
    requires WellFormedQuery(params)
    ensures ok == Matches(repo, params)
  {
    var remaining := params.Keys;
    while remaining != {}
      invariant remaining <= params.Keys
      invariant forall key :: key in params && key !in remaining ==> KeyPasses(repo, key, params[key])
      decreases remaining
    {
      var key :| key in remaining;
      var values := params[key];
      if key == "lang" {
        if !MatchesLanguage(repo, values[0]) {
          return false;
        }
      } else if key == "license" {
        if !MatchesLicense(repo, values[0]) {
          return false;
        }
      } else if key == "stars" {
        if !MatchesStars(repo, values[0]) {
          return false;
        }
      }
      remaining := remaining - {key};
    }
    assert "lang" in params ==> KeyPasses(repo, "lang", params["lang"]);
    assert "license" in params ==> KeyPasses(repo, "license", params["license"]);
    assert "stars" in params ==> KeyPasses(repo, "stars", params["stars"]);
    return true;
  }

  /** A repository matches a query iff every entry of it passes; an entry
      whose key is not recognised always passes. */
  lemma MatchesIffEveryKeyPasses(repo: CustomRepository, params: QueryParams)
    requires WellFormedQuery(params)
    ensures Matches(repo, params) <==>
              forall key :: key in params ==> KeyPasses(repo, key, params[key])
  {
    if Matches(repo, params) {
      forall key | key in params
        ensures KeyPasses(repo, key, params[key])
      {
      }
    } else {
      if "lang" in params && !MatchesLanguage(repo, params["lang"][0]) {
        assert !KeyPasses(repo, "lang", params["lang"]);
      } else if "license" in params && !MatchesLicense(repo, params["license"][0]) {
        assert !KeyPasses(repo, "license", params["license"]);
      } else {
        assert !KeyPasses(repo, "stars", params["stars"]);
      }
    }
  }

  /** Adding or replacing an entry whose key is not recognised changes
      nothing. */
  lemma UnknownKeyIgnored(repo: CustomRepository, params: QueryParams, key: string, values: seq<string>)
    requires WellFormedQuery(params) && !IsFilterKey(key)
    ensures WellFormedQuery(params[key := values])
    ensures Matches(repo, params[key := values]) == Matches(repo, params)
  {
  }

  /** Only the first value of a recognised key is consulted. */
  lemma OnlyFirstValueUsed(repo: CustomRepository, params: QueryParams, key: string,
                           first: string, rest: seq<string>)
    requires WellFormedQuery(params) && key in params && |params[key]| > 0 && params[key][0] == first
    ensures WellFormedQuery(params[key := [first] + rest])
    ensures Matches(repo, params[key := [first] + rest]) == Matches(repo, params)
  {
  }

  // ---------------------------------------------------------------------
  // filterRepos
  // ---------------------------------------------------------------------

  /** The repositories that match, in their original order. */
  function Matching(repos: seq<CustomRepository>, params: QueryParams): seq<CustomRepository>
    requires WellFormedQuery(params)
  {
    if repos == [] then []
    else
      var last := repos[|repos| - 1];
      Matching(repos[..|repos| - 1], params) + (if Matches(last, params) then [last] else [])
  }

  /** `filterRepos`: appends each matching repository to a fresh list. */
  method FilterRepos(repos: seq<CustomRepository>, params: QueryParams)
    returns (filtered: seq<CustomRepository>)
    requires WellFormedQuery(params)
    ensures filtered == Matching(repos, params)
  {
    filtered := [];
    for i := 0 to |repos|
      invariant filtered == Matching(repos[..i], params)
    {
      var ok := MatchesFilters(repos[i], params);
      if ok {
        filtered := filtered + [repos[i]];
      }
      assert repos[..i + 1][..i] == repos[..i];
    }
    assert repos[..|repos|] == repos;
  }

  /** The filter's output is the input at a strictly increasing list of
      positions, and a position is on that list iff its repository matches:
      an order-preserving subsequence holding exactly the matches. */
  lemma {:induction false} MatchingSelectsMatches(repos: seq<CustomRepository>, params: QueryParams)
    returns (idx: seq<nat>)
    requires WellFormedQuery(params)
    ensures |idx| == |Matching(repos, params)|
    ensures forall k :: 0 <= k < |idx| ==> idx[k] < |repos| && Matching(repos, params)[k] == repos[idx[k]]
    ensures forall k, l :: 0 <= k < l < |idx| ==> idx[k] < idx[l]
    ensures forall i :: 0 <= i < |repos| ==> (i in idx <==> Matches(repos[i], params))
  {
    if repos == [] {
      idx := [];
    } else {
      var n := |repos| - 1;
      var front := repos[..n];
      var idx0 := MatchingSelectsMatches(front, params);
      assert forall i :: 0 <= i < n ==> front[i] == repos[i];
      if Matches(repos[n], params) {
        idx := idx0 + [n];
      } else {
        idx := idx0;
      }
    }
  }

  /** Everything in the output is a matching input, and every matching input
      is in the output. */
  lemma MatchingMembership(repos: seq<CustomRepository>, params: QueryParams, repo: CustomRepository)
    requires WellFormedQuery(params)
    ensures repo in Matching(repos, params) <==> repo in repos && Matches(repo, params)
  {
    var idx := MatchingSelectsMatches(repos, params);
    var out := Matching(repos, params);
    if repo in out {
      var k :| 0 <= k < |out| && out[k] == repo;
      assert repos[idx[k]] == repo;
      assert idx[k] in idx;
    }
    if repo in repos && Matches(repo, params) {
      var i :| 0 <= i < |repos| && repos[i] == repo;
      assert i in idx;
      var k :| 0 <= k < |idx| && idx[k] == i;
      assert out[k] == repo;
    }
  }

  /** No recognised key, or only empty arguments for them: nothing is
      constrained. */
  predicate NoConstraint(params: QueryParams) {
    && ("lang" in params ==> params["lang"] != [] && params["lang"][0] == "")
    && ("license" in params ==> params["license"] != [] && params["license"][0] == "")
    && ("stars" in params ==> params["stars"] != [] && params["stars"][0] == "")
  }

  /** An unconstraining query (in particular the empty map, or one holding
      only unrecognised keys) returns the whole input unchanged. */
  lemma {:induction false} MatchingIdentity(repos: seq<CustomRepository>, params: QueryParams)
    requires NoConstraint(params)
    ensures WellFormedQuery(params)
    ensures Matching(repos, params) == repos
  {
    if repos != [] {
      MatchingIdentity(repos[..|repos| - 1], params);
      assert Matches(repos[|repos| - 1], params);
    }
  }

  /** Filtering an already filtered list changes nothing. */
  lemma {:induction false} MatchingIdempotent(repos: seq<CustomRepository>, params: QueryParams)
    requires WellFormedQuery(params)
    ensures Matching(Matching(repos, params), params) == Matching(repos, params)
  {
    if repos != [] {
      var n := |repos| - 1;
      var front := Matching(repos[..n], params);
      MatchingIdempotent(repos[..n], params);
      if Matches(repos[n], params) {
        var out := front + [repos[n]];
        assert Matching(repos, params) == out;
        assert out[..|out| - 1] == front;
        assert Matching(out, params) == Matching(front, params) + [repos[n]];
      } else {
        assert Matching(repos, params) == front;
      }
    }
  }

  /** `stars=50` over star counts 10, 50 and 51 keeps the last two. */
  lemma StarsFilterExample(a: CustomRepository, b: CustomRepository, c: CustomRepository)
    requires a.stars == 10 && b.stars == 50 && c.stars == 51
    ensures Matching([a, b, c], map["stars" := ["50"]]) == [b, c]
  {
    var params := map["stars" := ["50"]];
    assert FormatInt(50) == "50";
    MatchesStarsThreshold(a, 50);
    MatchesStarsThreshold(b, 50);
    MatchesStarsThreshold(c, 50);
    assert [a, b, c][..2] == [a, b];
    assert [a, b][..1] == [a];
    assert [a][..0] == [];
    assert Matching([a], params) == [];
    assert Matching([a, b], params) == [b];
    assert Matching([a, b, c], params) == [b] + [c];
  }

  /** `lang=Go` does not match a repository whose only key is "go". */
  lemma LanguageIsCaseSensitive(repo: CustomRepository)
    requires repo.languages == map["go" := Language(1000)]
    ensures !Matches(repo, map["lang" := ["Go"]])
    ensures Matches(repo, map["lang" := ["go"]])
  {
    assert "Go" != "go";
  }

  /** `stars=abc` alone selects nothing. */
  lemma UnparsableStarsSelectsNothing(repos: seq<CustomRepository>)
    ensures Matching(repos, map["stars" := ["abc"]]) == []
  {
    var params := map["stars" := ["abc"]];
    assert !IsDigit('a');
    assert Atoi("abc").None?;
    var idx := MatchingSelectsMatches(repos, params);
    if idx != [] {
      assert false;
    }
  }

  // ---------------------------------------------------------------------
  // Handle
  // ---------------------------------------------------------------------

  /** Body of the search endpoint's JSON answer. */
  datatype SearchResponse = SearchResponse(
    lastUpdated: Timestamp,
    totalResults: int,
    repositories: seq<CustomRepository>
  )

  class SearchHandler {
    const cache: Cache.Cache

    constructor (cache: Cache.Cache)
      ensures this.cache == cache
    {
      this.cache := cache;
    }

    /** Reads the cache once and answers with the matching repositories,
        their count and the cache's timestamp. */
    method Handle(params: QueryParams) returns (response: SearchResponse)
      requires WellFormedQuery(params)
      ensures response.lastUpdated == cache.lastFetch
      ensures response.repositories == Matching(cache.repos, params)
      ensures response.totalResults == |response.repositories|
    {
      var repos, lastFetch := cache.Get();
      var filtered := FilterRepos(repos, params);
      response := SearchResponse(lastFetch, |filtered|, filtered);
    }
  }
}
