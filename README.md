# blunt: view-model assembly, modelled in Dafny

blunt is a small server-rendered movie browser over the TMDB catalogue API.
Its HTTP handlers (main.go) fetch catalogue records and shape them into the
data its templates render. This project models that shaping and proves what
it guarantees:

- **Search** (`search`): every movie hit and every person hit becomes one row.
  A movie row links to `/movie/<id>`, shows the poster and a year label. A
  person row links to `/castMember/<id>`, shows the profile picture and no year.
  The rows are merged and sorted in place, most popular first.
- **Filmography** (`castMember`): credits without a release date are dropped.
  The rest are sorted in place, most recent first, with a comparator that
  returns 0 when a date fails to parse and -1 on equal dates.
- **Relationship graphs** (`castMemberGraph`, `subGraphPerson`, `movieGraph`,
  `subGraphMovie`): the person variants first sort the filmography by
  popularity. Then all four take the first five credits and turn each into a
  node of id and image URL.
- **Presentation helpers** (tmdb/tmdb.go): `BuildPosterPath` prefixes the image
  CDN base. `GetReleaseYear` labels an empty date "unknown" and otherwise
  keeps the text before the first '-'.

Files and modules:

- `wrappers.dfy`: `Wrappers` (Option).
- `gostrings.dfy`: `GoStrings`, which models `strings.Split` and `fmt`'s `%d`.
  `Join` is not a model of `strings.Join`, which the source does not call. It is
  defined as the inverse of `Split`, for the lists of at least one field that
  `Split` returns.
- `gotime.dfy`: `GoTime`, which models `time.Parse(time.DateOnly, ·)` and
  `Time.Before`.
- `goslices.dfy`: `GoSlices`, which models `cmp.Compare` and
  `slices.SortFunc`. The sort is an in-place insertion sort over an `array`.
  It is proved to permute, and to sort whenever the comparator is consistent
  with a descending key on the elements.
- `tmdb.dfy`: `Tmdb`, with the catalogue records and the two helpers.
- `handlers.dfy`: `Handlers`, with the handlers' append loops and sorts as
  methods, proved against specification functions.

Where the two source files disagree (they come from different revisions of
the repository), the model follows main.go. `SearchPeople`, the person search
record, a `Popularity` field on filmography credits and an `Id` on credits
responses are used by main.go but are absent from tmdb/tmdb.go. The records
are given the fields main.go reads.

This revision has no placeholder image for an empty path and no configurable
label for an empty date. `BuildPosterPath("")` is the bare CDN base, and
`GetReleaseYear("")` is always "unknown". The model follows the code. Go's
sort is not stable, so no order among equal popularities is promised.

## Model

| member | source | states |
|---|---|---|
| `Tmdb.BuildPosterPath` | tmdb/tmdb.go:244-246 | the URL is the CDN base followed by exactly the given path; an empty path gives the bare base, with no placeholder |
| `Tmdb.BuildPosterPathInjective` | tmdb/tmdb.go:245 | distinct paths give distinct URLs |
| `Tmdb.GetReleaseYear` | tmdb/tmdb.go:248-254 | "" gives "unknown"; any other date gives its longest prefix without '-' (a prefix, dash-free, ending at the end or just before a '-') |
| `Tmdb.ReleaseYearOfDate` | tmdb/tmdb.go:253 | `y + "-" + rest` with dash-free `y` gives `y`; a date starting with '-' gives "", not "unknown" |
| `Tmdb.ReleaseYearWithoutDash` | tmdb/tmdb.go:253 | a non-empty date without '-' is its own label |
| `Tmdb.ReleaseYearExample` | tmdb/tmdb.go:253 | "2020-05-01" gives "2020" |
| `Tmdb.ReleaseYearUnknown` | tmdb/tmdb.go:249-253 | "unknown" comes only from the empty date or from a date whose first field is literally "unknown" |
| `Tmdb.ReleaseYearOfParsedDate` | tmdb/tmdb.go:253 | for a date `time.Parse(time.DateOnly, ·)` accepts, the label is the four-digit year the parser reads |
| `GoStrings.Split` | tmdb/tmdb.go:253 | `strings.Split` with a one-character separator: at least one field, no field holds the separator, the first field is the longest separator-free prefix |
| `GoStrings.JoinSplit` | tmdb/tmdb.go:253 | joining the fields of a split gives the string back |
| `GoStrings.SplitJoin` | tmdb/tmdb.go:253 | splitting a join of separator-free fields gives the fields back |
| `GoStrings.FormatInt` | main.go:73 | `%d` of an id (here and at line 83): a leading '-' exactly when it is negative, then a decimal numeral whose value is its magnitude |
| `GoStrings.FormatNat` | main.go:73 | `%d` of a non-negative number is a non-empty digit string with no leading zero |
| `GoStrings.FormatNatValue` | main.go:73 | reading the `%d` numeral back gives the number |
| `GoStrings.FormatIntInjective` | main.go:83 | `%d` prints distinct integers as distinct strings |
| `GoTime.ParseDate` | main.go:142-149 | an accepted date has the shape DDDD-DD-DD and denotes a real day (month 1..12, day within the month, leap years counted) |
| `GoTime.ParseFormat` | main.go:142 | parsing the text of a valid date gives the date back |
| `GoTime.FormatParse` | main.go:146 | an accepted string is exactly the text of the date it yields |
| `GoTime.Before` | main.go:151 | on valid dates, `Time.Before` is the order of the single numeric key year·10000 + month·100 + day |
| `GoSlices.Compare` | main.go:93 | `cmp.Compare` is -1, 0 or +1, negative exactly when x < y and zero exactly when equal |
| `GoSlices.InsertAt` | main.go:91-95 | one insertion step of the in-place sort: the array stays a permutation, the prefix up to `i` becomes sorted when the comparator is consistent, and the part after `i` is untouched |
| `GoSlices.SortFunc` | main.go:91-95 | the array after the sort is a permutation of the array before; if the comparator is consistent with a descending key on every element, it is non-increasing by that key |
| `GoSlices.SortSlice` | main.go:140-157 | the slice after the sort holds the same elements; if the comparator is consistent with a descending key on all of them, it is non-increasing by that key |
| `GoSlices.TopKDominates` | main.go:177-185 | in a list sorted by a key, every element outside the first k is at most every element inside them |
| `GoSlices.NonIncreasingUnique` | main.go:91-95 | two sorted permutations of each other with pairwise distinct keys are equal |
| `Handlers.MovieRow` | main.go:72-78 | a movie row links to "/movie/" followed by the `%d` of the id, shows the CDN URL of the poster, the original title, the popularity, and the year label ("unknown" for an empty date, otherwise the longest dash-free prefix of the date) |
| `Handlers.PersonRow` | main.go:82-88 | a person row links to "/castMember/" followed by the `%d` of the id, shows the CDN URL of the profile picture, the name, the popularity and an empty year |
| `Handlers.SearchRows` | main.go:69-89 | the two append loops yield the movie rows in API order followed by the person rows in API order |
| `Handlers.RowsByPopularity` | main.go:92-94 | the search comparator is -1, 0 or +1; negative exactly when the first row is more popular, zero exactly on equal popularity |
| `Handlers.RowsByPopularityDescending` | main.go:92-94 | the search comparator is consistent with descending popularity on every pair of rows |
| `Handlers.Search` | main.go:69-95 | exactly \|movies\| + \|people\| rows, a permutation of the movie rows followed by the person rows, non-increasing by popularity |
| `Handlers.SearchLinksDistinct` | main.go:73-83 | a movie link never equals a person link, and links of the same kind are equal only for equal ids |
| `Handlers.SearchOrderDetermined` | main.go:91-95 | when popularities are pairwise distinct, the search order is unique |
| `Handlers.Dated` | main.go:133-138 | the kept credits are no more than the input, and each is a credit of the input with a non-empty release date |
| `Handlers.DatedAppend` | main.go:133-138 | the filter commutes with concatenation, so kept credits keep their relative order |
| `Handlers.DatedCount` | main.go:133-138 | a credit is kept, as often as it occurs, exactly when its release date is non-empty |
| `Handlers.FilterDated` | main.go:133-138 | the filter loop computes exactly the dated credits in input order, all with non-empty dates |
| `Handlers.ByReleaseDate` | main.go:141-156 | the comparator is 0 exactly when a date fails to parse, +1 exactly when the first date is before the second, otherwise -1 |
| `Handlers.ByReleaseDateNotStrict` | main.go:151-155 | equal dates compare as -1 in both orders, and a credit is less than itself: not a strict weak ordering |
| `Handlers.ByReleaseDateDescending` | main.go:141-156 | on credits whose dates parse, the comparator is consistent with a most-recent-first order |
| `Handlers.DatedMembers` | main.go:133-138 | a rearrangement of the kept credits holds only dated credits of the input |
| `Handlers.MostRecentFirst` | main.go:151-155 | a list non-increasing by date key has no entry dated before a later entry |
| `Handlers.Filmography` | main.go:133-157 | the filmography is a permutation of the dated credits; if every date parses, no entry is dated before a later one |
| `Handlers.TopChildren` | main.go:185-192 | the totalised selection yields min(5, \|cast\|) children, child i being the node of credit i |
| `Handlers.TopChildrenShort` | main.go:185 | with fewer than five credits, the totalised selection keeps all of them |
| `Handlers.CreditNode` | main.go:186-189 | the node of a filmography credit carries the movie's id and the CDN URL of its poster |
| `Handlers.CastNode` | main.go:220-223 | the node of a cast member carries the person's id and the CDN URL of their profile picture |
| `Handlers.FirstFive` | main.go:183-192 | with at least five credits, the loop over `cast[0:5]` yields exactly five children, equal to the totalised selection |
| `Handlers.CreditsByPopularity` | main.go:178-180 | the graph comparator (also at lines 269-271) is -1, 0 or +1; negative exactly when the first credit is more popular, zero exactly on equal popularity |
| `Handlers.CreditsByPopularityDescending` | main.go:178-180 | the graph comparator is consistent with descending popularity on every pair of credits |
| `Handlers.RankByPopularity` | main.go:177-181 | the sorted filmography is a permutation of the input and non-increasing by popularity |
| `Handlers.PersonChildren` | main.go:177-192 | five children, child i the node (movie id, poster URL) of the i-th credit after the sort; every credit left out is at most as popular as every credit chosen |
| `Handlers.CastMemberGraph` | main.go:162-200 | the parent is the person's id and profile URL, the five children are the most popular movies, kind "person" |
| `Handlers.SubGraphPerson` | main.go:259-286 | the five most popular movies under the person `credits.id`, kind "movie" |
| `Handlers.MovieGraph` | main.go:202-234 | the parent is the movie's id and poster URL, the children are the first five cast members in API order (id and profile URL), kind "movie" |
| `Handlers.SubGraphMovie` | main.go:236-257 | the first five cast members in API order under the movie `credits.id`, kind "person" |

## Left out

- Catalogue fetches (`SearchMovies`, `MovieDetails`, `Credits`, `People`, `PeopleCredits`, tmdb/tmdb.go:70-242): network I/O, environment lookup and JSON decoding. Their responses are the inputs of the handler methods.
- Startup and routing (main.go:18-46): reading config.yaml, registering handlers and serving HTTP.
- Rendering through `components.*`: the template code is not part of this model. The methods return the data passed to the templates.
- The `movie` handler (main.go:100-116) passes its records to a template unchanged, so there is nothing to model.
- The `w.WriteHeader(500)` error branches: these are I/O signalling. The methods model the path on which every fetch succeeded.
- Popularity is `real`, not IEEE `float64`. NaN, infinities and rounding are not modelled. Ids are unbounded `int`, not `int64`.
- Go's slice `[0:5]` panics on fewer than five credits. The graph methods require at least five credits, and `TopChildren` gives the totalised selection.
- `GoSlices.SortFunc`: Go's pattern-defeating quicksort is modelled by an insertion sort. The contract promises only permutation and sortedness, so the order among equal keys is not fixed. With a comparator that is inconsistent (a date that fails to parse), the contract promises only a permutation.
- `GoTime.ParseDate` leaves out time zones and clock times. The layout has neither, so every accepted date is midnight UTC.
