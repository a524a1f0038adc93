# Mutual-fund overlap comparer: a Dafny model of its core

The application lets a user pick mutual-fund schemes, fetches their
pairwise portfolio overlap and expense ratios from a data provider, and
draws a heatmap. This project models the four pieces of `app.py` that hold
logic. Network replies and clock readings are parameters.

- **Overlap matrix builder** (`Heatmap`, from `create_heatmap`). A method
  allocates an n×n `array2<Overlap>`. A nested `for` loop makes one fetch
  per position pair i < j and writes the result to (i, j) and (j, i). A
  `forall` statement then sets the diagonal to 100. The method also returns
  the list of position pairs it fetched, in call order. Lemmas about that
  list give the number of calls, which pairs are fetched, and their order.
- **Scheme search** (`Search`, from `search_schemes`). The query is
  lower-cased, entries whose lower-cased name contains it are kept in
  directory order, and the list is cut to 20.
- **Scheme directory cache** (`SchemeCache`, from `get_all_schemes`). The
  two globals become a class `Cache` with fields `schemes` and
  `lastFetched`. Its method is specified by the pure step `Lookup` on a
  `CacheState` value, and the refresh rule is proved about `Lookup`.
- **Compare request and reply sentinels** (`Compare`, `Upstream`). Display
  names fall back to `"Scheme <id>"`. Fewer than two ids give a 400 error.
  One expense ratio is fetched per id. Provider envelopes become a value,
  or NaN (`Unavailable`) for overlap and `"N/A"` for expense ratios.

Python dicts keep insertion order, and assigning to an existing key keeps
its position. `OrderedDict` models a dict as a sequence of pairs with
exactly that behaviour. It is used for the scheme directory and the
expense-ratio map. `IntText` models `str(int)` and proves that it can be
parsed back, so distinct ids never share a placeholder name or an
expense-map key.

Three details of `app.py` shape the model:
- `get_all_schemes` has no `try` (app.py:23-24), so a failed list-all call
  propagates as an exception; a failed call never yields an empty
  directory. The directory is empty only when the reply has no `data` key
  or an empty `data` list (app.py:26).
- The clock is read at app.py:21 only when a directory is present (the `or`
  short-circuits), and at app.py:28 only on a refresh. So it is read twice
  only on a stale refresh. `Lookup` takes both readings as parameters:
  `now`, for the age check, and `doneAt`, the reading it stores. A reading
  the source does not take is ignored.
- The handler looks up the directory and resolves names before the length
  check (app.py:118-121). So a rejected request can still refresh the cache.
  `Compare.Compare` states this.

Files: `wrappers.dfy`, `ordered_dict.dfy`, `int_text.dfy`, `upstream.dfy`,
`search.dfy`, `scheme_cache.dfy`, `heatmap.dfy`, `compare.dfy`.

## Model

| member | source | states |
|---|---|---|
| `OrderedDict.Get` | app.py:119 | `d.get(k)`: a found value is stored under `k` in `d`; nothing is found exactly when no entry has key `k` |
| `OrderedDict.GetIff` | app.py:119 | in a dict with unique keys, `Get` returns `v` exactly when `(k, v)` is an entry |
| `OrderedDict.Put` | app.py:25-27 | `d[k] = v` keeps keys unique, replaces an existing key's value in place, and appends a new key at the end |
| `OrderedDict.PutEntries` | app.py:25-27 | after `d[k] = v`, entries for other keys are unchanged and `k` holds exactly `v` |
| `OrderedDict.FromPairs` | app.py:25-27 | a dict comprehension yields a dict with unique keys |
| `OrderedDict.FromPairsKeys` | app.py:25-27 | a key is in the comprehension's dict exactly when some source pair has that key |
| `OrderedDict.FromPairsLastWins` | app.py:25-27 | the value stored for a key is that of the last source pair with the key |
| `OrderedDict.FromDistinctPairs` | app.py:25-27 | pairs with distinct keys give the same sequence as the dict, in the same order |
| `IntText.IntString` | app.py:119 | `str(id)` is never empty |
| `IntText.ParseIntString` | app.py:119 | `int(str(i)) == i` for every integer, negatives included |
| `IntText.IntStringInjective` | app.py:125 | distinct ids have distinct `str(id)` keys |
| `Upstream.Field` | app.py:37-41 | a reply yields a field exactly when the call succeeded, the status is "success", `data` is an object and the field is present; every other case, exceptions included, falls back |
| `Upstream.OverlapOf` | app.py:32-41 | the overlap is NaN exactly when the call failed, the status is not "success", `data` is missing or not an object, or `PortfolioOverlapPercent` is absent; otherwise it is that field |
| `Upstream.ExpenseOf` | app.py:102-111 | the expense ratio is "N/A" in every failure case and the `expenseRatio` field otherwise; a result other than "N/A" comes from a successful reply |
| `Upstream.ExpenseNullIsKept` | app.py:107-108 | a success reply whose `expenseRatio` is JSON null yields null, not "N/A" |
| `Search.ContainsIff` | app.py:95 | `needle in hay` holds exactly when `needle` occurs at some position of `hay` |
| `Search.FilterMembers` | app.py:95 | the comprehension keeps exactly the directory entries whose lower-cased name contains the query |
| `Search.FilterAppend` | app.py:95 | filtering commutes with concatenation, so matches keep directory order |
| `Search.FilterEmptyQuery` | app.py:95 | the empty query keeps every entry |
| `Search.SearchResults` | app.py:93-97 | at most 20 results; exactly the first min(20, k) of the k order-preserving matches; each result is a directory entry whose lower-cased name contains the lower-cased query |
| `Search.SearchComplete` | app.py:95-97 | with at most 20 matches, every matching entry is returned |
| `Search.SearchEmptyQuery` | app.py:93-97 | a missing or empty `q` returns the first 20 directory entries |
| `Search.LowerUpper` | app.py:93 | lower-casing is idempotent and undoes upper-casing (ASCII) |
| `Search.SearchCaseInsensitive` | app.py:93-97 | a query, its upper-cased form and its lower-cased form give identical results |
| `Search.SearchSchemes` | app.py:91-98 | the handler's results are `SearchResults` over the directory from the cache lookup, and it leaves the cache in the state `Lookup` gives |
| `SchemeCache.DirectoryOf` | app.py:25-27 | the fetched directory has unique scheme ids |
| `SchemeCache.DirectoryOfMissingData` | app.py:26 | a reply without `data`, or with an empty `data` list, gives the empty directory |
| `SchemeCache.DirectoryOfNames` | app.py:25-27 | an id maps to a name exactly when the reply lists that pair and no later record has that id |
| `SchemeCache.Lookup` | app.py:18-29 | the cache afterwards holds the directory returned, and it is either unchanged or stamped with the post-fetch time |
| `SchemeCache.CacheHit` | app.py:21-29 | with a directory present and `now - last <= 3600`, the stored directory is returned and both fields are unchanged |
| `SchemeCache.CacheRefresh` | app.py:21-28 | with no directory, or `now - last > 3600`, the whole directory is replaced by the reply's `data` list and the timestamp by the post-fetch time |
| `SchemeCache.HitIgnoresProvider` | app.py:21 | while the cache is fresh, the provider's answer and the clock after it do not matter |
| `SchemeCache.FirstCallFetches` | app.py:14-21 | the first call after start-up always fetches |
| `SchemeCache.FreshAfterFetch` | app.py:21-28 | within 3600 s of a fetch, later calls return that directory and change nothing, whatever the provider would answer |
| `SchemeCache.RefetchAfterWindow` | app.py:21-28 | more than 3600 s after the last fetch, the next call fetches and restamps |
| `SchemeCache.ServedDirectoryIsFresh` | app.py:21-28 | if the clock does not go back during a fetch, the directory returned is at most 3600 s old |
| `SchemeCache.Cache.constructor` | app.py:14-15 | the cache starts with no directory and timestamp 0, and satisfies `Valid()` (a stored directory has unique ids) |
| `SchemeCache.Cache.GetAllSchemes` | app.py:18-29 | it reports whether it refreshed, which happens exactly when `Stale` holds, and its result and new fields are those of `Lookup`; a hit changes nothing; it keeps `Valid()` and returns a directory with unique ids |
| `Heatmap.PairsBeforeCount` | app.py:49-51 | the first i rows of the loop make i(2n-i-1)/2 fetches |
| `Heatmap.FetchCount` | app.py:49-51 | the builder fetches exactly n(n-1)/2 times |
| `Heatmap.PairsBeforeMembers` | app.py:49-51 | the first i rows fetch exactly the pairs (p, q) with p < i and p < q < n |
| `Heatmap.FetchOrderMembers` | app.py:49-51 | every pair i < j < n is fetched, and no other pair |
| `Heatmap.PairsBeforeSorted` | app.py:49-51 | the pairs of the first i rows come in row-major order, all with row below i |
| `Heatmap.FetchOrderRowMajor` | app.py:49-51 | fetches come in strictly row-major order, so no pair is fetched twice |
| `Heatmap.CreateOverlapMatrix` | app.py:44-56 | the matrix is newly allocated and n×n; for i < j, M[i][j] is `fetch(ids[i], ids[j])`, even with duplicate ids; M is symmetric; every diagonal entry is 100; the calls returned are exactly `FetchOrder(n)` |
| `Compare.FallbackNameInjective` | app.py:119 | distinct unknown ids get distinct `"Scheme <id>"` names |
| `Compare.SchemeNames` | app.py:119 | one name per id, in id order: the directory's name when the id is known, otherwise `"Scheme <id>"` |
| `Compare.SchemeNamesKnown` | app.py:119 | an id the directory knows gets exactly the stored name |
| `Compare.ExpenseRatios` | app.py:125 | the expense map has unique keys |
| `Compare.ExpenseRatiosEntries` | app.py:125 | its keys are exactly `str(id)` for the selected ids, and each holds that id's ratio or "N/A" |
| `Compare.ExpenseRatiosDistinct` | app.py:125 | distinct ids give one entry per id, in the order of the ids |
| `Compare.Compare` | app.py:116-135 | the cache is looked up first; fewer than 2 ids give exactly the 400 error; otherwise the names, the expense map and a newly allocated symmetric matrix with fetched off-diagonal cells and a diagonal of 100 |
| `Compare.TwoSchemeScenario` | app.py:44-56 | ids 101, 102 with an overlap reply of 42.5 give the matrix [[100, 42.5], [42.5, 100]] |
| `Compare.OneSchemeScenario` | app.py:121-122 | a single id gives 400 with "Please select at least 2 schemes" |

## Left out

- HTTP calls (`requests.get`, the 10-second timeout), JSON decoding, Flask routing, `jsonify` and `render_template`: provider replies are the datatypes `Reply` and `SchemeList`, and responses are the datatype `Response`.
- Plotting and image encoding (app.py:59-83): these call an external library. The compare response carries the matrix and the names instead of a base64 PNG.
- Rate-limiting sleeps (app.py:54, 126) and the real clock: timing is not functional behaviour, and clock readings are parameters.
- Floating point: overlap percentages are `real` values in `Percent`, and NaN is the constructor `Unavailable`. No arithmetic is done on them. The overlap field is modelled as a number; a provider sending null or a string there is not modelled. The expense field may be any JSON value (`JsonValue`), with arrays and objects as one opaque case.
- Concurrent requests and the unguarded refresh race on the cache globals.
- Failures in `get_all_schemes` (app.py:23-27) are uncaught: a network error, a body that is not JSON, a null `data`, or a record without `SchemeId`/`SchemeName`. These crash the request and are not modelled. The reply is always a well-formed `SchemeList`.
- Search.Lower: only ASCII letters are case-folded; Python's full Unicode `str.lower()` is not modelled.
- Compare.Compare: request ids are integers. The model does not cover a missing JSON body, or `int(id)` raising on a non-numeric id. A non-string `status` is modelled as a string other than "success".
- Compare.Compare: the upstream reply functions are deterministic, so the repeated expense fetch for a duplicated id is not distinguished from a single one.
- Heatmap.CreateOverlapMatrix: `fetch` is a deterministic function, so repeated provider calls for the same id pair give the same cell value. With ids `[7, 7, 8]` the source asks for (7, 8) twice, and one call could fail while the other succeeds; the model forces `M[0, 2] == M[1, 2]`.
