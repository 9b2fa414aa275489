# Public-repository search service: ingestion, snapshot cache and filters

A Dafny model of the core of a Go service. The service collects up to 100
recently created public repositories from a code-hosting search API. It
looks up each repository's per-language byte counts and sorts the
repositories newest first. It then turns them into `CustomRepository`
records and stores them in an in-memory cache. Its search endpoint answers
`GET /api/search?lang=&license=&stars=` from that cache.

Modules, one per Go package of the core:

- `Wrappers` (wrappers.dfy): `Option`, standing for a Go nil, and
  `Result`, standing for a Go `(value, error)` pair.
- `Models` (models.dfy): the `CustomRepository` record. Timestamps are
  integers, and Go's zero `time.Time` is `ZeroTime` (0).
- `GoStrings` (gostrings.dfy): the library calls the filters depend on.
  These are `strings.ToLower` (ASCII letters), `strings.Contains`, and
  `strconv.Atoi` on a 64-bit `int`: an optional sign, then at least one
  decimal digit, with a value inside the int64 range.
- `Handlers` (handlers.dfy): the three predicates, `matchesFilters`,
  `filterRepos` and `Handle`.
- `Services` (services.dfy): the page walk of `fetchReposWithLanguage`,
  the language lookups, the newest-first sort, `GetTodaysPublicRepos` and
  the transformation into records.
- `Cache` (cache.dfy): the `Cache` class with its two fields.

How the environment is represented:

- The search capability is a finite sequence of pages. It is indexed by the
  page counter the service computes: 0 first, then +1 per request. A page
  is either a list of hits or a search error. Pages past the end of the
  sequence are empty, so the walk always ends.
- The per-repository language lookups are one function. It takes an
  entry's position in the collected list and the repository there, and
  gives a map or an error. Two equal hits at different positions can
  therefore get different outcomes.
- The clock reading that `Cache.Set` stores is a parameter.
- The parallel lookups and transforms become sequential loops with the same
  per-index effect.

Behaviour of the Go code that the model keeps:

- The sort is `sort.Slice`, which is not stable. The model promises only
  newest-first order and a permutation, never the order of equal
  timestamps.
- Repositories are not de-duplicated across pages, so nothing claims that
  they are distinct.
- A failed lookup leaves a nil map, not an empty one. The transformation
  then produces an empty language map.
- The query keys are `lang`, `license` and `stars`. For each one, only its
  first value is read.
- `transformSingleRepo` has no error path, so `TransformToCustomRepositories`
  always succeeds.

## Model

| member | source | states |
|---|---|---|
| `GoStrings.ToLowerIdempotent` | internal/api/handlers/search_handler.go:119 | `ToLower` (ASCII `strings.ToLower`): lowercasing an already lowercased string changes nothing |
| `GoStrings.ContainsIffOccurs` | internal/api/handlers/search_handler.go:119 | `Contains` (`strings.Contains`) holds of `s` and `sub` iff `sub` occurs in `s` at some offset |
| `GoStrings.Atoi` | internal/api/handlers/search_handler.go:131 | a parsed value always lies in the 64-bit `int` range |
| `GoStrings.AtoiAccepts` | internal/api/handlers/search_handler.go:131 | for every string: `Atoi(s)` is `Some(n)` iff `n` is in the 64-bit range and `s` is `|n|` in decimal after any number of leading zeros, preceded by nothing, by `+` (when `n >= 0`) or by `-` (when `n <= 0`) |
| `GoStrings.AtoiFormatInt` | internal/api/handlers/search_handler.go:131 | every 64-bit integer written in decimal parses back to itself |
| `Handlers.MatchesLanguageExactKey` | internal/api/handlers/search_handler.go:98-109 | `MatchesLanguage`: an empty language matches; otherwise the repository matches iff its map has exactly that key with more than 0 bytes (an absent key reads as 0) |
| `Handlers.TransformedLanguageMatch` | internal/api/handlers/search_handler.go:104 | on a transformed record, a non-empty language matches iff the lookup succeeded and gave that language a positive count; a failed lookup matches no language |
| `Handlers.MatchesLicenseSubstring` | internal/api/handlers/search_handler.go:112-124 | `MatchesLicense`: an empty license filter matches; otherwise the lowercased filter must occur in the lowercased license name |
| `Handlers.NoLicenseFailsLicenseFilter` | internal/api/handlers/search_handler.go:115-123 | a repository with an empty license fails every non-empty license filter |
| `Handlers.MatchesLicenseIgnoresCase` | internal/api/handlers/search_handler.go:119 | the license filter gives the same answer for an argument and its lowercase form |
| `Handlers.MatchesStarsThreshold` | internal/api/handlers/search_handler.go:127-141 | `MatchesStars`: a decimal threshold n keeps exactly the repositories with at least n stars |
| `Handlers.UnparsableStarsRejects` | internal/api/handlers/search_handler.go:131-134 | a non-empty threshold that does not parse rejects every repository |
| `Handlers.MatchesFilters` | internal/api/handlers/search_handler.go:75-95 | visiting the query map's keys in any order, with an early `false`, gives exactly the conjunction of the recognised predicates present |
| `Handlers.MatchesIffEveryKeyPasses` | internal/api/handlers/search_handler.go:76-94 | a repository matches iff every query entry passes, and an entry with an unrecognised key always passes |
| `Handlers.UnknownKeyIgnored` | internal/api/handlers/search_handler.go:77-92 | adding or replacing an entry with an unrecognised key does not change the verdict |
| `Handlers.OnlyFirstValueUsed` | internal/api/handlers/search_handler.go:79-87 | values after the first of a recognised key do not change the verdict |
| `Handlers.FilterRepos` | internal/api/handlers/search_handler.go:62-72 | the appending loop returns `Matching(repos, params)` |
| `Handlers.MatchingSelectsMatches` | internal/api/handlers/search_handler.go:62-72 | the output is the input at strictly increasing positions, and a position is selected iff its repository matches |
| `Handlers.MatchingMembership` | internal/api/handlers/search_handler.go:65-69 | a repository is in the output iff it is in the input and matches |
| `Handlers.MatchingIdentity` | internal/api/handlers/search_handler.go:75-95 | a query with no recognised key, or only empty arguments, returns the input unchanged |
| `Handlers.MatchingIdempotent` | internal/api/handlers/search_handler.go:62-72 | filtering the filtered list again changes nothing |
| `Handlers.StarsFilterExample` | internal/api/handlers/search_handler.go:127-141 | `stars=50` over star counts 10, 50 and 51 keeps the last two, in order |
| `Handlers.LanguageIsCaseSensitive` | internal/api/handlers/search_handler.go:104 | `lang=Go` rejects a repository whose only language key is `go`, and `lang=go` accepts it |
| `Handlers.UnparsableStarsSelectsNothing` | internal/api/handlers/search_handler.go:131-134 | `stars=abc` selects no repository |
| `Handlers.SearchHandler.constructor` | internal/api/handlers/search_handler.go:25-30 | the handler reads the cache it was given |
| `Handlers.SearchHandler.Handle` | internal/api/handlers/search_handler.go:40-59 | the response holds the filtered cache contents, their count, and the cache's timestamp |
| `Cache.Cache.constructor` | internal/cache/cache.go:19-21 | a new cache holds no repositories and the zero timestamp |
| `Cache.Cache.Set` | internal/cache/cache.go:25-33 | both fields are replaced by the new list and the given instant; nothing earlier survives |
| `Cache.Cache.Get` | internal/cache/cache.go:36-41 | returns exactly the stored pair and changes nothing (no modifies clause), so consecutive reads agree |
| `Services.WithLanguageSound` | internal/services/repository_service.go:104-106 | `WithLanguage`, the per-page language filter: a hit is in its output iff it is in the input and has a non-empty language |
| `Services.StopPage` | internal/services/repository_service.go:98-118 | the last page requested is the first one after which the walk does not continue; every earlier page was answered, full, and left the count below 100 |
| `Services.FetchReposWithLanguage` | internal/services/repository_service.go:73-123 | the page walk with its early exits returns `FetchOutcome(pages)` |
| `Services.FetchBounded` | internal/services/repository_service.go:98-109 | a successful walk returns at most 100 repositories, each with a non-empty language |
| `Services.FetchIsPrefixOfStream` | internal/services/repository_service.go:98-118 | a successful walk returns an in-order prefix of the source's hits that have a language; if it returns fewer than 100, it holds every such hit up to the last page requested, and that page was short |
| `Services.FetchFailsOnlyOnSearchError` | internal/services/repository_service.go:99-102 | the walk fails iff the last page requested was a search error, and the error carries that page's reason; all earlier pages were answered |
| `Services.FullFirstPageSuffices` | internal/services/repository_service.go:104-109 | a first page of 100 hits that all have a language is the whole answer, and no second page is requested |
| `Services.ShortFirstPageReturnedWhole` | internal/services/repository_service.go:113-115 | a first page shorter than `PerPage`, whose hits all have a language, is returned whole, even though it holds fewer than 100 |
| `Services.FetchRepoLanguages` | internal/services/repository_service.go:146-154 | a failed lookup for entry `i` gives nil (`None`); a successful one gives the looked-up map |
| `Services.FetchLanguageDetails` | internal/services/repository_service.go:126-143 | the languages of the entry at position `i` are replaced by the outcome of the lookup made for position `i`, and nothing else changes |
| `Services.SortNewestFirst` | internal/services/repository_service.go:64-67 | after the in-place sort, creation times do not increase along the array, and the array is a permutation of its old contents |
| `Services.GetTodaysPublicRepos` | internal/services/repository_service.go:43-70 | a search error is passed on unchanged; otherwise the result is a newest-first permutation of the collected repositories, each paired with the outcome of the lookup made for its position, at most 100 of them, all with a language |
| `Services.LanguageRecords` | internal/services/repository_service.go:190-193 | the record's language map has the looked-up keys with the byte counts copied, or is empty after a failed lookup |
| `Services.LanguageRecordsRoundTrip` | internal/services/repository_service.go:190-193 | reading the byte counts back out of the record gives the looked-up map, or the empty map |
| `Services.TransformSingleRepo` | internal/services/repository_service.go:186-209 | never fails; copies each field, turns the language map as above, and gives a missing license the empty name |
| `Services.TransformToCustomRepositories` | internal/services/repository_service.go:157-183 | succeeds with a list of the input's length whose element i is the transform of input i |

## Left out

- Network calls to the hosting API (repository search, language listing,
  client construction) are foreign I/O. They become the page sequence and
  the lookup function.
- Goroutines, the `sync.WaitGroup`, the 100-slot request semaphore, the
  cache's `sync.RWMutex` and the handler's `sync.Mutex` exist for
  concurrency. The model runs the same per-index work sequentially, so it
  does not capture interleavings or the atomicity of the cache swap.
- The model does not include `time.Now()`, the five-minute creation window,
  or the RFC 3339 query string. Timestamps are integers supplied by the
  caller.
- Unicode behaviour of `strings.ToLower` is out of scope: only ASCII letters
  are lowercased.
- The page counter starts at 0, and the client library leaves page 0 out of
  the request. How the remote side numbers pages is not modelled: page `n`
  of the model is whatever the source returns for counter value `n`.
- `Services.TransformToCustomRepositories`: the error channel and its
  "first error" return are not modelled, because `transformSingleRepo`
  never returns an error, so that path cannot be taken.
- Logging and printing are left out.
- JSON marshalling of the response, HTTP routing (including the constant
  `/ping` reply), configuration loading, process startup and the
  standalone debug script in `main.go` are not part of this model.
