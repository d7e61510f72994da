/**
 * Records of the catalogue API (tmdb/tmdb.go) and its two presentation helpers,
 * `BuildPosterPath` and `GetReleaseYear`.
 *
 * Records carry the fields the handlers read. Go's `int64` ids are `int` and
 * its `float64` popularity is `real`: the model neither overflows nor rounds.
 */
module Tmdb {
  import opened GoStrings
  import opened GoTime

  datatype MovieSearchResult = MovieSearchResult(
    originalTitle: string, posterPath: string, popularity: real, releaseDate: string, id: int)

  datatype MovieSearchResponse = MovieSearchResponse(results: seq<MovieSearchResult>)

  /** A hit of the person search; the handler reads these four fields of it. */
  datatype PersonSearchResult = PersonSearchResult(
    name: string, profilePath: string, popularity: real, id: int)

  datatype PeopleSearchResponse = PeopleSearchResponse(results: seq<PersonSearchResult>)

  datatype MovieDetailsResponse = MovieDetailsResponse(
    id: int, originalTitle: string, posterPath: string, popularity: real, releaseDate: string,
    tagline: string, runtime: int, originalLanguage: string, overview: string, revenue: int)

  /** A cast member of a movie. */
  datatype MovieCastMember = MovieCastMember(id: int, name: string, character: string, profilePath: string)

  /** The cast of the movie `id`. */
  datatype MovieCreditsResponse = MovieCreditsResponse(id: int, cast: seq<MovieCastMember>)

  datatype PeopleResponse = PeopleResponse(
    id: int, name: string, profilePath: string, birthday: string, deathday: string, biography: string)

  /** A movie in a person's filmography. */
  datatype PeopleCredit = PeopleCredit(
    id: int, originalTitle: string, posterPath: string, releaseDate: string, popularity: real)

  /** The filmography of the person `id`. */
  datatype PeopleCreditsResponse = PeopleCreditsResponse(id: int, cast: seq<PeopleCredit>)

  /** The image CDN that poster and profile paths are relative to. */
  const PosterBase: string := "https://image.tmdb.org/t/p/w600_and_h900_bestv2"

  /**
   * The image URL of a poster or profile path: the CDN base followed by the
   * path, exactly. An empty path gives the bare base; there is no placeholder.
   */
  function BuildPosterPath(posterPath: string): (url: string)
    ensures |url| == |PosterBase| + |posterPath|
    ensures IsPrefix(PosterBase, url) && url[|PosterBase|..] == posterPath
  {
    PosterBase + posterPath
  }

  /** Distinct paths give distinct URLs. */
  lemma BuildPosterPathInjective(p: string, q: string)
    ensures BuildPosterPath(p) == BuildPosterPath(q) ==> p == q
  {
    if BuildPosterPath(p) == BuildPosterPath(q) {
      assert p == BuildPosterPath(p)[|PosterBase|..];
    }
  }

  /**
   * The year label of a release date: "unknown" for the empty date, and
   * otherwise the text before the first '-' (`strings.Split(date, "-")[0]`),
   * that is, the longest prefix of the date without '-'.
   */
  function GetReleaseYear(releaseDate: string): (year: string)
    ensures releaseDate == "" ==> year == "unknown"
    ensures releaseDate != "" ==>
      IsPrefix(year, releaseDate) && '-' !in year
      && (|year| == |releaseDate| || releaseDate[|year|] == '-')
  {
    if releaseDate == "" then "unknown"
    else Split(releaseDate, '-')[0]
  }

  /** There is only one longest dash-free prefix. */
  lemma FirstFieldUnique(s: string, a: string, b: string)
    requires IsPrefix(a, s) && '-' !in a && (|a| == |s| || s[|a|] == '-')
    requires IsPrefix(b, s) && '-' !in b && (|b| == |s| || s[|b|] == '-')
    ensures a == b
  {
  }

  /**
   * A date written `y-rest` with a dash-free `y` has year label `y`; in
   * particular a date that starts with '-' has the empty label, not "unknown".
   */
  lemma ReleaseYearOfDate(y: string, rest: string)
    requires '-' !in y
    ensures GetReleaseYear(y + "-" + rest) == y
  {
    var s := y + "-" + rest;
    assert s[..|y|] == y && s[|y|] == '-';
    FirstFieldUnique(s, GetReleaseYear(s), y);
  }

  /** A non-empty date without '-' is its own year label. */
  lemma ReleaseYearWithoutDash(s: string)
    requires s != "" && '-' !in s
    ensures GetReleaseYear(s) == s
  {
    assert s[..|s|] == s;
    FirstFieldUnique(s, GetReleaseYear(s), s);
  }

  /** The label of "2020-05-01" is "2020". */
  lemma ReleaseYearExample()
    ensures GetReleaseYear("2020-05-01") == "2020"
  {
    ReleaseYearOfDate("2020", "05-01");
    assert "2020" + "-" + "05-01" == "2020-05-01";
  }

  /**
   * "unknown" labels the empty date, and otherwise only a date whose text
   * up to the first '-' is literally "unknown".
   */
  lemma ReleaseYearUnknown(s: string)
    requires GetReleaseYear(s) == "unknown"
    ensures s == "" || (IsPrefix("unknown", s) && (|s| == 7 || s[7] == '-'))
  {
  }

  /**
   * For a date that `time.Parse(time.DateOnly, ·)` accepts, the label is the
   * four-digit year the parser reads.
   */
  lemma ReleaseYearOfParsedDate(s: string)
    requires ParseDate(s).Some?
    ensures GetReleaseYear(s) == Pad4(ParseDate(s).value.year)
  {
    var d := ParseDate(s).value;
    FormatParse(s);
    var y := Pad4(d.year);
    assert s == y + "-" + (Pad2(d.month) + "-" + Pad2(d.day));
    ReleaseYearOfDate(y, Pad2(d.month) + "-" + Pad2(d.day));
  }
}
