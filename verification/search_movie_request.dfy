/** The iTunes search request: which path a search uses, and how decoded
    result records become `Movie` values. */
module SearchMovieRequest {
  import opened Wrappers
  import opened Entities
  import Decimal
  import Networking

  /** `Constant.iTunes.baseURL`. */
  const BaseURL: string := "https://itunes.apple.com"

  const SmallArtwork: string := "/100x100bb"
  const TinyArtwork: string := "/350x350bb"
  const LargeArtwork: string := "/750x750bb"

  /** A decoded element of the iTunes `results` array (only the fields the
      mapper reads). `trackPrice` is kept as the text `String(Double)` gives. */
  datatype MovieResponse = MovieResponse(
    trackId: Option<int>,
    trackName: Option<string>,
    previewUrl: Option<string>,
    artworkUrl100: Option<string>,
    releaseDate: Option<string>,
    longDescription: Option<string>,
    primaryGenreName: Option<string>,
    trackPrice: Option<string>)

  /** `String(0 as Double)`, the price of a record without `trackPrice`. */
  const ZeroPrice: string := "0.0"

  // ---------------------------------------------------------------- path

  /** The request path chosen by `init(keyword:genre:limit:)`. */
  function SearchPath(keyword: string, genre: string, limit: int): (path: string)
    ensures "/search?term=" + (if genre == [] then keyword else genre) <= path
    ensures var tail := "&limit=" + Decimal.IntToString(limit);
            |tail| <= |path| && path[|path| - |tail|..] == tail
  {
    if genre == [] then
      "/search?term=" + keyword + "&media=movie&limit=" + Decimal.IntToString(limit)
    else
      "/search?term=" + genre + "&entity=movie&attribute=genreTerm&limit=" + Decimal.IntToString(limit)
  }

  /** The whole request descriptor: GET on the iTunes base URL, no headers, no body. */
  function Request(keyword: string, genre: string, limit: int): (r: Networking.ApiRequest)
    ensures r.baseURL == BaseURL && r.httpMethod == Networking.Get
    ensures r.path == SearchPath(keyword, genre, limit)
    ensures r.headers == map[] && r.body == map[]
  {
    Networking.ApiRequest(BaseURL, Networking.Get, SearchPath(keyword, genre, limit), map[], map[])
  }

  /** A keyword search is a movie-media search on the keyword; a genre search
      is a genre-term search on the genre; both end in the limit, which reads
      back from the path. */
  lemma SearchPathShape(keyword: string, genre: string, limit: int)
    ensures var path := SearchPath(keyword, genre, limit);
            var term := if genre == [] then keyword else genre;
            var filter := if genre == [] then "&media=movie" else "&entity=movie&attribute=genreTerm";
            var tail := Decimal.IntToString(limit);
            && path == "/search?term=" + term + filter + "&limit=" + tail
            && Decimal.ParseInt(path[|path| - |tail|..]) == Some(limit)
  {
    var path := SearchPath(keyword, genre, limit);
    var tail := Decimal.IntToString(limit);
    assert path[|path| - |tail|..] == tail;
    Decimal.IntToStringRoundTrip(limit);
  }

  /** With a genre, the keyword has no influence on the request. */
  lemma GenreSearchIgnoresKeyword(k1: string, k2: string, genre: string, limit: int)
    requires genre != []
    ensures Request(k1, genre, limit) == Request(k2, genre, limit)
  {
  }

  // ---------------------------------------------------------- substrings

  predicate OccursAt(s: string, pat: string, i: int) {
    0 <= i && i + |pat| <= |s| && s[i..i + |pat|] == pat
  }

  /** The first index at or after `from` where `pat` occurs in `s`. */
  function FirstIndexOf(s: string, pat: string, from: nat): (r: Option<nat>)
    requires from <= |s|
    ensures r.Some? ==> from <= r.value && OccursAt(s, pat, r.value)
    ensures r.Some? ==> forall j :: from <= j < r.value ==> !OccursAt(s, pat, j)
    ensures r.None? ==> forall j :: from <= j <= |s| ==> !OccursAt(s, pat, j)
    decreases |s| - from
  {
    if from + |pat| > |s| then None
    else if s[from..from + |pat|] == pat then Some(from)
    else if from == |s| then None
    else FirstIndexOf(s, pat, from + 1)
  }

  /** `s.range(of: pat)`: the start of the first occurrence, if any. */
  function RangeOf(s: string, pat: string): Option<nat>
  {
    FirstIndexOf(s, pat, 0)
  }

  // --------------------------------------------------------------- mapping

  /** The poster of a result: both sizes start as the artwork URL ("" when
      missing), and the first "/100x100bb" is rewritten to "/350x350bb" in
      `tiny` and "/750x750bb" in `large`. */
  function PosterOf(artwork: Option<string>): (p: Poster)
    ensures p.imageTiny.None? && p.imageLarge.None?
    ensures |p.tiny| == |artwork.GetOr("")| && |p.large| == |artwork.GetOr("")|
    ensures RangeOf(artwork.GetOr(""), SmallArtwork).None? ==> p.tiny == p.large == artwork.GetOr("")
  {
    var url := artwork.GetOr("");
    match RangeOf(url, SmallArtwork)
    case None => Poster(url, url, None, None)
    case Some(i) =>
      Poster(url[..i] + TinyArtwork + url[i + |SmallArtwork|..],
             url[..i] + LargeArtwork + url[i + |SmallArtwork|..], None, None)
  }

  /** `String(releaseDate.prefix(4))`, "" when the date is missing. */
  function YearOf(releaseDate: Option<string>): (year: string)
    ensures var d := releaseDate.GetOr("");
            |year| == (if |d| < 4 then |d| else 4) && year == d[..|year|]
  {
    var d := releaseDate.GetOr("");
    if |d| < 4 then d else d[..4]
  }

  /** The per-record conversion inside `map(_:)`. */
  function MovieOf(r: MovieResponse): (m: Movie)
    ensures !m.favorited
    ensures m.poster.imageTiny.None? && m.poster.imageLarge.None?
    ensures |m.year| <= 4
    ensures r.trackId.None? ==> m.id == "0"
  {
    Movie(
      id := Decimal.IntToString(r.trackId.GetOr(0)),
      title := r.trackName.GetOr(""),
      description := r.longDescription.GetOr(""),
      year := YearOf(r.releaseDate),
      trailer := r.previewUrl.GetOr(""),
      favorited := false,
      price := r.trackPrice.GetOr(ZeroPrice),
      genre := r.primaryGenreName.GetOr(""),
      poster := PosterOf(r.artworkUrl100))
  }

  /** `decoded.results.map { ... }`: one movie per record, in order. */
  function MapResults(results: seq<MovieResponse>): (movies: seq<Movie>)
    ensures |movies| == |results|
    ensures forall i :: 0 <= i < |results| ==> movies[i] == MovieOf(results[i])
  {
    seq(|results|, i requires 0 <= i < |results| => MovieOf(results[i]))
  }

  /** `map(_:)`: JSON decoding (an input here) followed by the conversion;
      a decoding error is passed on as the thrown error's description. */
  function Map(data: Networking.Data, decodeJSON: Networking.Data -> Result<seq<MovieResponse>, string>): (r: Result<seq<Movie>, string>)
    ensures decodeJSON(data).Failure? ==> r == Failure(decodeJSON(data).error)
    ensures decodeJSON(data).Success? ==> r.Success? && |r.value| == |decodeJSON(data).value|
    ensures decodeJSON(data).Success? ==>
              forall i :: 0 <= i < |r.value| ==> r.value[i] == MovieOf(decodeJSON(data).value[i])
  {
    match decodeJSON(data)
    case Failure(e) => Failure(e)
    case Success(results) => Success(MapResults(results))
  }

  // ----------------------------------------------------------- properties

  /** Every mapped movie is not favourited, its id reads back as the track id
      (and is "0" when it is missing), its year is the first four characters of the release
      date at most, and missing texts become "". */
  lemma MovieOfFields(r: MovieResponse)
    ensures var m := MovieOf(r);
            && !m.favorited
            && Decimal.ParseInt(m.id) == Some(r.trackId.GetOr(0))
            && (r.trackId.None? ==> m.id == "0")
            && (r.releaseDate.None? ==> m.year == "")
            && (r.releaseDate.Some? ==> m.year <= r.releaseDate.value && |m.year| <= 4)
            && (r.trackName.None? ==> m.title == "")
            && (r.longDescription.None? ==> m.description == "")
            && (r.previewUrl.None? ==> m.trailer == "")
            && (r.primaryGenreName.None? ==> m.genre == "")
            && (r.trackPrice.None? ==> m.price == ZeroPrice)
  {
    Decimal.IntToStringRoundTrip(r.trackId.GetOr(0));
  }

  /** Records with different track ids never collide on the movie id that
      the favourites store is keyed by. */
  lemma DistinctTrackIdsGiveDistinctIds(a: MovieResponse, b: MovieResponse)
    requires a.trackId.GetOr(0) != b.trackId.GetOr(0)
    ensures MovieOf(a).id != MovieOf(b).id
  {
    Decimal.IntToStringInjective(a.trackId.GetOr(0), b.trackId.GetOr(0));
  }

  /** The poster rewrite: without "/100x100bb" both URLs are the artwork URL;
      otherwise, at its first occurrence `i`, `tiny` holds "/350x350bb" and
      `large` "/750x750bb", and every other character is the artwork URL's. */
  lemma PosterRewrite(artwork: Option<string>)
    ensures var url := artwork.GetOr("");
            var p := PosterOf(artwork);
            && p.imageTiny.None? && p.imageLarge.None?
            && (RangeOf(url, SmallArtwork).None? ==>
                  p.tiny == url && p.large == url && forall j :: 0 <= j <= |url| ==> !OccursAt(url, SmallArtwork, j))
            && (RangeOf(url, SmallArtwork).Some? ==>
                  var i := RangeOf(url, SmallArtwork).value;
                  && (forall j :: 0 <= j < i ==> !OccursAt(url, SmallArtwork, j))
                  && OccursAt(url, SmallArtwork, i)
                  && |p.tiny| == |url| && |p.large| == |url|
                  && OccursAt(p.tiny, TinyArtwork, i) && OccursAt(p.large, LargeArtwork, i)
                  && (forall k :: 0 <= k < |url| && !(i <= k < i + 10) ==> p.tiny[k] == url[k] && p.large[k] == url[k]))
  {
    var url := artwork.GetOr("");
    match RangeOf(url, SmallArtwork)
    case None =>
    case Some(i) =>
      var p := PosterOf(artwork);
      assert p.tiny == url[..i] + TinyArtwork + url[i + 10..];
      assert p.tiny[i..i + 10] == TinyArtwork;
      assert p.large[i..i + 10] == LargeArtwork;
  }

  /** Concrete instances of the rewrite. */
  lemma PosterRewriteExample()
    ensures PosterOf(Some("/100x100bb.jpg")).tiny == "/350x350bb.jpg"
    ensures PosterOf(Some("/100x100bb.jpg")).large == "/750x750bb.jpg"
    ensures PosterOf(Some("poster.jpg")).large == "poster.jpg"
  {
    assert OccursAt("/100x100bb.jpg", SmallArtwork, 0);
    assert "poster.jpg"[0..10][0] != SmallArtwork[0];
  }
}
