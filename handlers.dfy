/**
 * The view models the HTTP handlers of main.go assemble from catalogue
 * records before handing them to the templates: the merged search list, the
 * dated and date-ordered filmography, and the five children of a
 * relationship graph.
 *
 * The handlers build their lists with append loops and sort them in place with
 * `slices.SortFunc`; the methods below do the same, on a sequence that grows
 * and an array that is sorted, and are proved against the specification
 * functions beside them.
 */
module Handlers {
  import opened GoStrings
  import opened GoTime
  import opened GoSlices
  import opened Wrappers
  import opened Tmdb

  /** One row of the search page. */
  datatype SearchResult = SearchResult(
    href: string, imagePath: string, name: string, year: string, popularity: real)

  /** One node of a relationship graph. */
  datatype GraphElement = GraphElement(id: int, imagePath: string)

  /**
   * What a graph handler renders: the full graph with its parent node, or a
   * sub-graph that names its parent by id only. `kind` is the label the
   * handler passes to the template.
   */
  datatype GraphView =
    | Graph(parent: GraphElement, children: seq<GraphElement>, kind: string)
    | SubGraph(children: seq<GraphElement>, kind: string, parentId: int)

  // ---------------------------------------------------------------------------
  // Search: rows for movie and person hits, merged and ranked by popularity.
  // ---------------------------------------------------------------------------

  /** The row of a movie hit: a link to its page, its poster and its year label. */
  function MovieRow(m: MovieSearchResult): (r: SearchResult)
    ensures IsPrefix("/movie/", r.href) && r.href[7..] == FormatInt(m.id)
    ensures IsPrefix(PosterBase, r.imagePath) && r.imagePath[|PosterBase|..] == m.posterPath
    ensures r.name == m.originalTitle && r.popularity == m.popularity
    ensures m.releaseDate == "" ==> r.year == "unknown"
    ensures m.releaseDate != "" ==>
      IsPrefix(r.year, m.releaseDate) && '-' !in r.year
      && (|r.year| == |m.releaseDate| || m.releaseDate[|r.year|] == '-')
  {
    SearchResult("/movie/" + FormatInt(m.id), BuildPosterPath(m.posterPath), m.originalTitle,
                 GetReleaseYear(m.releaseDate), m.popularity)
  }

  /** The row of a person hit: a link to their page, their profile picture and no year. */
  function PersonRow(p: PersonSearchResult): (r: SearchResult)
    ensures IsPrefix("/castMember/", r.href) && r.href[12..] == FormatInt(p.id)
    ensures IsPrefix(PosterBase, r.imagePath) && r.imagePath[|PosterBase|..] == p.profilePath
    ensures r.name == p.name && r.year == "" && r.popularity == p.popularity
  {
    SearchResult("/castMember/" + FormatInt(p.id), BuildPosterPath(p.profilePath), p.name, "", p.popularity)
  }

  function MovieRows(movies: seq<MovieSearchResult>): (rows: seq<SearchResult>)
    ensures |rows| == |movies|
  {
    seq(|movies|, i requires 0 <= i < |movies| => MovieRow(movies[i]))
  }

  function PersonRows(people: seq<PersonSearchResult>): (rows: seq<SearchResult>)
    ensures |rows| == |people|
  {
    seq(|people|, i requires 0 <= i < |people| => PersonRow(people[i]))
  }

  lemma MovieRowsSnoc(movies: seq<MovieSearchResult>, i: int)
    requires 0 <= i < |movies|
    ensures MovieRows(movies[..i + 1]) == MovieRows(movies[..i]) + [MovieRow(movies[i])]
  {
  }

  lemma PersonRowsSnoc(people: seq<PersonSearchResult>, i: int)
    requires 0 <= i < |people|
    ensures PersonRows(people[..i + 1]) == PersonRows(people[..i]) + [PersonRow(people[i])]
  {
  }

  function RowPopularity(r: SearchResult): real {
    r.popularity
  }

  /** The search comparator: `cmp.Compare(b.Popularity, a.Popularity)`. */
  function RowsByPopularity(a: SearchResult, b: SearchResult): (r: int)
    ensures r == -1 || r == 0 || r == 1
    ensures r < 0 <==> a.popularity > b.popularity
    ensures r == 0 <==> a.popularity == b.popularity
  {
    Compare(b.popularity, a.popularity)
  }

  function AnyRow(r: SearchResult): bool {
    true
  }

  /** The search comparator orders every pair of rows by descending popularity. */
  lemma RowsByPopularityDescending()
    ensures DescendingBy(RowsByPopularity, RowPopularity, AnyRow)
  {
    forall x, y ensures (RowsByPopularity(x, y) < 0 ==> RowPopularity(x) >= RowPopularity(y))
                        && (RowsByPopularity(x, y) >= 0 ==> RowPopularity(y) >= RowPopularity(x)) {
      var c := Compare(y.popularity, x.popularity);
    }
  }

  /** The search handler's two append loops: the movie rows, then the person rows. */
  method SearchRows(movies: MovieSearchResponse, people: PeopleSearchResponse) returns (rows: seq<SearchResult>)
    ensures rows == MovieRows(movies.results) + PersonRows(people.results)
  {
    rows := [];
    for i := 0 to |movies.results|
      invariant rows == MovieRows(movies.results[..i])
    {
      MovieRowsSnoc(movies.results, i);
      rows := rows + [MovieRow(movies.results[i])];
    }
    assert movies.results[..|movies.results|] == movies.results;
    for i := 0 to |people.results|
      invariant rows == MovieRows(movies.results) + PersonRows(people.results[..i])
    {
      PersonRowsSnoc(people.results, i);
      rows := rows + [PersonRow(people.results[i])];
    }
    assert people.results[..|people.results|] == people.results;
  }

  /**
   * The search handler's view model: one row per movie hit and one per person
   * hit, nothing else, ordered from the most to the least popular.
   */
  method Search(movies: MovieSearchResponse, people: PeopleSearchResponse) returns (results: seq<SearchResult>)
    ensures |results| == |movies.results| + |people.results|
    ensures multiset(results) == multiset(MovieRows(movies.results) + PersonRows(people.results))
    ensures NonIncreasing(results, RowPopularity)
  {
    var rows := SearchRows(movies, people);
    RowsByPopularityDescending();
    results := SortSlice(rows, RowsByPopularity, RowPopularity, AnyRow);
  }

  /** A movie's link and a person's link never coincide, and distinct ids give distinct links. */
  lemma SearchLinksDistinct(m: MovieSearchResult, m': MovieSearchResult, p: PersonSearchResult, p': PersonSearchResult)
    ensures MovieRow(m).href != PersonRow(p).href
    ensures MovieRow(m).href == MovieRow(m').href ==> m.id == m'.id
    ensures PersonRow(p).href == PersonRow(p').href ==> p.id == p'.id
  {
    assert MovieRow(m).href[1] == 'm' && PersonRow(p).href[1] == 'c';
    if MovieRow(m).href == MovieRow(m').href {
      assert FormatInt(m.id) == MovieRow(m).href[7..];
      assert FormatInt(m'.id) == MovieRow(m').href[7..];
      FormatIntInjective(m.id, m'.id);
    }
    if PersonRow(p).href == PersonRow(p').href {
      assert FormatInt(p.id) == PersonRow(p).href[12..];
      assert FormatInt(p'.id) == PersonRow(p').href[12..];
      FormatIntInjective(p.id, p'.id);
    }
  }

  /**
   * When no two hits share a popularity, the search page's order is fully
   * determined: any two lists the search handler may produce are equal.
   */
  lemma SearchOrderDetermined(movies: MovieSearchResponse, people: PeopleSearchResponse,
                              r1: seq<SearchResult>, r2: seq<SearchResult>)
    requires multiset(r1) == multiset(MovieRows(movies.results) + PersonRows(people.results))
    requires multiset(r2) == multiset(MovieRows(movies.results) + PersonRows(people.results))
    requires NonIncreasing(r1, RowPopularity) && NonIncreasing(r2, RowPopularity)
    requires forall i, j :: 0 <= i < j < |r1| ==> r1[i].popularity != r1[j].popularity
    ensures r1 == r2
  {
    NonIncreasingUnique(r1, r2, RowPopularity);
  }

  // ---------------------------------------------------------------------------
  // Filmography: credits with a release date, most recent first.
  // ---------------------------------------------------------------------------

  /** The credits that have a release date, in their original order. */
  function Dated(cast: seq<PeopleCredit>): (kept: seq<PeopleCredit>)
    ensures |kept| <= |cast|
    ensures forall c :: c in kept ==> c in cast && c.releaseDate != ""
    decreases |cast|
  {
    if cast == [] then []
    else
      var last := cast[|cast| - 1];
      Dated(cast[..|cast| - 1]) + (if last.releaseDate != "" then [last] else [])
  }

  /** Filtering commutes with concatenation: the relative order of kept credits is unchanged. */
  lemma {:induction false} DatedAppend(a: seq<PeopleCredit>, b: seq<PeopleCredit>)
    ensures Dated(a + b) == Dated(a) + Dated(b)
    decreases |b|
  {
    if b == [] {
      assert a + b == a;
    } else {
      var last := b[|b| - 1];
      assert (a + b)[..|a + b| - 1] == a + b[..|b| - 1];
      DatedAppend(a, b[..|b| - 1]);
    }
  }

  /** A credit is kept, as often as it occurs, exactly when its release date is not empty. */
  lemma {:induction false} DatedCount(cast: seq<PeopleCredit>, c: PeopleCredit)
    ensures multiset(Dated(cast))[c] == if c.releaseDate != "" then multiset(cast)[c] else 0
    decreases |cast|
  {
    if cast != [] {
      var init := cast[..|cast| - 1];
      DatedCount(init, c);
      assert cast == init + [cast[|cast| - 1]];
      assert multiset(cast) == multiset(init) + multiset{cast[|cast| - 1]};
    }
  }

  /** The filter loop of the filmography handler. */
  method FilterDated(cast: seq<PeopleCredit>) returns (kept: seq<PeopleCredit>)
    ensures kept == Dated(cast)
    ensures forall c :: c in kept ==> c.releaseDate != ""
  {
    kept := [];
    for i := 0 to |cast|
      invariant kept == Dated(cast[..i])
    {
      if cast[i].releaseDate != "" {
        kept := kept + [cast[i]];
      }
      assert cast[..i + 1][..i] == cast[..i];
    }
    assert cast[..|cast|] == cast;
    forall c | c in kept ensures c.releaseDate != "" {
      DatedCount(cast, c);
    }
  }

  predicate DateParses(c: PeopleCredit) {
    ParseDate(c.releaseDate).Some?
  }

  /** Every dated credit of `cast` has a date `time.Parse(time.DateOnly, ·)` accepts. */
  predicate AllDatesParse(cast: seq<PeopleCredit>) {
    forall i :: 0 <= i < |cast| && cast[i].releaseDate != "" ==> DateParses(cast[i])
  }

  /** The release date of a credit as a number that orders dates chronologically (0 if unparseable). */
  function ReleaseKey(c: PeopleCredit): real {
    match ParseDate(c.releaseDate)
    case Some(d) => DateKey(d) as real
    case None => 0.0
  }

  /**
   * The filmography comparator: 0 when either date fails to parse, +1 when
   * `a` is dated before `b`, and -1 otherwise, equal dates included.
   */
  function ByReleaseDate(a: PeopleCredit, b: PeopleCredit): (r: int)
    ensures r == -1 || r == 0 || r == 1
    ensures r == 0 <==> !DateParses(a) || !DateParses(b)
    ensures r == 1 <==> DateParses(a) && DateParses(b)
                        && Before(ParseDate(a.releaseDate).value, ParseDate(b.releaseDate).value)
  {
    match ParseDate(a.releaseDate)
    case None => 0
    case Some(timeA) =>
      match ParseDate(b.releaseDate)
      case None => 0
      case Some(timeB) => if Before(timeA, timeB) then 1 else -1
  }

  /**
   * The comparator is not a strict weak order: a credit compares as less
   * than itself, and both orders of two credits with the same date give -1.
   */
  lemma ByReleaseDateNotStrict(a: PeopleCredit, b: PeopleCredit)
    requires DateParses(a) && a.releaseDate == b.releaseDate
    ensures ByReleaseDate(a, a) == -1
    ensures ByReleaseDate(a, b) == -1 && ByReleaseDate(b, a) == -1
  {
  }

  /** On credits whose dates parse, the comparator puts later dates first. */
  lemma ByReleaseDateDescending()
    ensures DescendingBy(ByReleaseDate, ReleaseKey, DateParses)
  {
    forall x, y | DateParses(x) && DateParses(y)
      ensures (ByReleaseDate(x, y) < 0 ==> ReleaseKey(x) >= ReleaseKey(y))
              && (ByReleaseDate(x, y) >= 0 ==> ReleaseKey(y) >= ReleaseKey(x))
    {
    }
  }

  /** A rearrangement of the dated credits holds only dated credits of the input. */
  lemma DatedMembers(cast: seq<PeopleCredit>, s: seq<PeopleCredit>)
    requires multiset(s) == multiset(Dated(cast))
    ensures forall c :: c in s ==> c in cast && c.releaseDate != ""
    ensures AllDatesParse(cast) ==> forall c :: c in s ==> DateParses(c)
  {
    forall c | c in s ensures c in cast && c.releaseDate != "" {
      assert c in multiset(s);
      DatedCount(cast, c);
      assert c in multiset(cast);
    }
  }

  /** Non-increasing by `ReleaseKey`, on parsed dates, is "never earlier than a later entry". */
  lemma MostRecentFirst(s: seq<PeopleCredit>)
    requires forall c :: c in s ==> DateParses(c)
    requires NonIncreasing(s, ReleaseKey)
    ensures forall i, j :: 0 <= i < j < |s| ==>
      DateParses(s[i]) && DateParses(s[j])
      && !Before(ParseDate(s[i].releaseDate).value, ParseDate(s[j].releaseDate).value)
  {
    forall i, j | 0 <= i < j < |s|
      ensures DateParses(s[i]) && DateParses(s[j])
              && !Before(ParseDate(s[i].releaseDate).value, ParseDate(s[j].releaseDate).value)
    {
      assert s[i] in s && s[j] in s;
      assert ReleaseKey(s[i]) >= ReleaseKey(s[j]);
    }
  }

  /**
   * The filmography of the person page: exactly the dated credits, and, when
   * every one of their dates parses, from the most to the least recent.
   */
  method Filmography(credits: PeopleCreditsResponse) returns (cast: seq<PeopleCredit>)
    ensures multiset(cast) == multiset(Dated(credits.cast))
    ensures forall c :: c in cast ==> c.releaseDate != ""
    ensures AllDatesParse(credits.cast) ==>
      forall i, j :: 0 <= i < j < |cast| ==>
        DateParses(cast[i]) && DateParses(cast[j])
        && !Before(ParseDate(cast[i].releaseDate).value, ParseDate(cast[j].releaseDate).value)
  {
    var kept := FilterDated(credits.cast);
    DatedMembers(credits.cast, kept);
    ByReleaseDateDescending();
    cast := SortSlice(kept, ByReleaseDate, ReleaseKey, DateParses);
    DatedMembers(credits.cast, cast);
    if AllDatesParse(credits.cast) {
      MostRecentFirst(cast);
    }
  }

  // ---------------------------------------------------------------------------
  // Relationship graphs: the first five credits, after ranking where the handler ranks.
  // ---------------------------------------------------------------------------

  /** The graph node of a filmography credit: the movie's id and poster. */
  function CreditNode(c: PeopleCredit): (n: GraphElement)
    ensures n.id == c.id
    ensures IsPrefix(PosterBase, n.imagePath) && n.imagePath[|PosterBase|..] == c.posterPath
  {
    GraphElement(c.id, BuildPosterPath(c.posterPath))
  }

  /** The graph node of a cast member: the person's id and profile picture. */
  function CastNode(c: MovieCastMember): (n: GraphElement)
    ensures n.id == c.id
    ensures IsPrefix(PosterBase, n.imagePath) && n.imagePath[|PosterBase|..] == c.profilePath
  {
    GraphElement(c.id, BuildPosterPath(c.profilePath))
  }

  function Min(a: int, b: int): int {
    if a < b then a else b
  }

  /**
   * The children of a graph node: the nodes of the first five credits, or of
   * all of them when there are fewer than five.
   */
  function TopChildren<T>(cast: seq<T>, node: T -> GraphElement): (children: seq<GraphElement>)
    ensures |children| == Min(5, |cast|)
    ensures forall i :: 0 <= i < |children| ==> children[i] == node(cast[i])
  {
    seq(Min(5, |cast|), i requires 0 <= i < Min(5, |cast|) => node(cast[i]))
  }

  /**
   * The handlers' loop over `cast[0:5]`. Go panics on a slice of fewer than
   * five credits, so five are required; with them, the loop agrees with the
   * totalised `TopChildren`.
   */
  method FirstFive<T>(cast: seq<T>, node: T -> GraphElement) returns (children: seq<GraphElement>)
    requires |cast| >= 5
    ensures |children| == 5
    ensures children == TopChildren(cast, node)
  {
    children := [];
    for i := 0 to 5
      invariant |children| == i
      invariant forall k :: 0 <= k < i ==> children[k] == node(cast[k])
    {
      children := children + [node(cast[i])];
    }
  }

  function CreditPopularity(c: PeopleCredit): real {
    c.popularity
  }

  /** The person graphs' comparator: `cmp.Compare(b.Popularity, a.Popularity)`. */
  function CreditsByPopularity(a: PeopleCredit, b: PeopleCredit): (r: int)
    ensures r == -1 || r == 0 || r == 1
    ensures r < 0 <==> a.popularity > b.popularity
    ensures r == 0 <==> a.popularity == b.popularity
  {
    Compare(b.popularity, a.popularity)
  }

  function AnyCredit(c: PeopleCredit): bool {
    true
  }

  lemma CreditsByPopularityDescending()
    ensures DescendingBy(CreditsByPopularity, CreditPopularity, AnyCredit)
  {
    forall x, y ensures (CreditsByPopularity(x, y) < 0 ==> CreditPopularity(x) >= CreditPopularity(y))
                        && (CreditsByPopularity(x, y) >= 0 ==> CreditPopularity(y) >= CreditPopularity(x)) {
      var c := Compare(y.popularity, x.popularity);
    }
  }

  /** The in-place popularity sort of a filmography: the same credits, most popular first. */
  method RankByPopularity(cast: seq<PeopleCredit>) returns (ranked: seq<PeopleCredit>)
    ensures multiset(ranked) == multiset(cast)
    ensures NonIncreasing(ranked, CreditPopularity)
  {
    CreditsByPopularityDescending();
    ranked := SortSlice(cast, CreditsByPopularity, CreditPopularity, AnyCredit);
  }

  /**
   * The children of a person node: the five most popular movies of the
   * filmography. `ranked` is the filmography as the sort leaves it; every
   * credit left out is at most as popular as every credit chosen.
   */
  method PersonChildren(cast: seq<PeopleCredit>) returns (children: seq<GraphElement>, ranked: seq<PeopleCredit>)
    requires |cast| >= 5
    ensures multiset(ranked) == multiset(cast) && NonIncreasing(ranked, CreditPopularity)
    ensures |children| == 5 && children == TopChildren(ranked, CreditNode)
    ensures forall x, i :: x in multiset(cast) - multiset(ranked[..5]) && 0 <= i < 5 ==>
      ranked[i].popularity >= x.popularity
  {
    ranked := RankByPopularity(cast);
    assert |ranked| == |multiset(cast)| == |cast|;
    children := FirstFive(ranked, CreditNode);
    TopKDominates(ranked, CreditPopularity, 5);
    forall x, i | x in multiset(cast) - multiset(ranked[..5]) && 0 <= i < 5
      ensures ranked[i].popularity >= x.popularity
    {
      assert ranked[i] in ranked[..5];
    }
  }

  /**
   * `castMemberGraph`: the person as parent, their five most popular movies
   * as children. `ranked` is the filmography after the in-place sort.
   */
  method CastMemberGraph(person: PeopleResponse, credits: PeopleCreditsResponse)
    returns (view: GraphView, ranked: seq<PeopleCredit>)
    requires |credits.cast| >= 5
    ensures multiset(ranked) == multiset(credits.cast) && NonIncreasing(ranked, CreditPopularity)
    ensures view == Graph(GraphElement(person.id, BuildPosterPath(person.profilePath)),
                          TopChildren(ranked, CreditNode), "person")
    ensures |view.children| == 5
    ensures forall x, i :: x in multiset(credits.cast) - multiset(ranked[..5]) && 0 <= i < 5 ==>
      ranked[i].popularity >= x.popularity
  {
    var children;
    children, ranked := PersonChildren(credits.cast);
    var parent := GraphElement(person.id, BuildPosterPath(person.profilePath));
    view := Graph(parent, children, "person");
  }

  /** `subGraphPerson`: the five most popular movies of the person `credits.id`. */
  method SubGraphPerson(credits: PeopleCreditsResponse) returns (view: GraphView, ranked: seq<PeopleCredit>)
    requires |credits.cast| >= 5
    ensures multiset(ranked) == multiset(credits.cast) && NonIncreasing(ranked, CreditPopularity)
    ensures view == SubGraph(TopChildren(ranked, CreditNode), "movie", credits.id)
    ensures |view.children| == 5
    ensures forall x, i :: x in multiset(credits.cast) - multiset(ranked[..5]) && 0 <= i < 5 ==>
      ranked[i].popularity >= x.popularity
  {
    var children;
    children, ranked := PersonChildren(credits.cast);
    view := SubGraph(children, "movie", credits.id);
  }

  /** `movieGraph`: the movie as parent, the first five of its cast, in the API's order, as children. */
  method MovieGraph(movie: MovieDetailsResponse, credits: MovieCreditsResponse) returns (view: GraphView)
    requires |credits.cast| >= 5
    ensures view == Graph(GraphElement(movie.id, BuildPosterPath(movie.posterPath)),
                          TopChildren(credits.cast, CastNode), "movie")
    ensures |view.children| == 5
  {
    var children := FirstFive(credits.cast, CastNode);
    var parent := GraphElement(movie.id, BuildPosterPath(movie.posterPath));
    view := Graph(parent, children, "movie");
  }

  /** `subGraphMovie`: the first five of the cast of the movie `credits.id`, in the API's order. */
  method SubGraphMovie(credits: MovieCreditsResponse) returns (view: GraphView)
    requires |credits.cast| >= 5
    ensures view == SubGraph(TopChildren(credits.cast, CastNode), "person", credits.id)
    ensures |view.children| == 5
  {
    var children := FirstFive(credits.cast, CastNode);
    view := SubGraph(children, "person", credits.id);
  }

  /** With fewer than five credits, the totalised selection keeps them all. */
  lemma TopChildrenShort<T>(cast: seq<T>, node: T -> GraphElement)
    requires |cast| < 5
    ensures |TopChildren(cast, node)| == |cast|
  {
  }
}
