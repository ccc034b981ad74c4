/** The favourites repository: an existence-guarded store of movie records
    keyed by id, plus the search that goes through the networking client.
    The CoreData store is a sequence of records in fetch order, which is
    taken to be insertion order. */
module Repository {
  import opened Wrappers
  import opened Entities
  import Networking
  import SearchMovieRequest

  /** A `MoviePersistence` row: every attribute but `favorited` is optional. */
  datatype Record = Record(
    id: Option<string>,
    title: Option<string>,
    desc: Option<string>,
    year: Option<string>,
    trailer: Option<string>,
    posterPathTiny: Option<string>,
    posterPathLarge: Option<string>,
    imageTiny: Option<ImageData>,
    imageLarge: Option<ImageData>,
    favorited: bool,
    genre: Option<string>,
    price: Option<string>)

  /** The `NSError` a failed repository call completes with. */
  datatype RepositoryError = RepositoryError(domain: string, code: int)

  const MovieNotExist := RepositoryError("Movie not exist", -1)
  const MovieAlreadyExists := RepositoryError("Movie already exists", -1)
  const FailureToSave := RepositoryError("Failure to save", -1)

  /** The fetch predicate `id == movie.id`; a record without id never matches. */
  predicate HasId(r: Record, id: string) {
    r.id == Some(id)
  }

  /** No two records share an id. */
  ghost predicate UniqueIds(store: seq<Record>) {
    forall i, j :: 0 <= i < j < |store| && store[i].id.Some? ==> store[i].id != store[j].id
  }

  /** `persistence.fetch(..., predicate: id == movie.id).first`, as an index. */
  function FirstWithId(store: seq<Record>, id: string): (r: Option<nat>)
    ensures r.Some? ==> r.value < |store| && HasId(store[r.value], id)
    ensures r.Some? ==> forall j :: 0 <= j < r.value ==> !HasId(store[j], id)
    ensures r.None? ==> forall j :: 0 <= j < |store| ==> !HasId(store[j], id)
  {
    if store == [] then None
    else if HasId(store[0], id) then Some(0)
    else match FirstWithId(store[1..], id)
      case None => None
      case Some(i) => Some(i + 1)
  }

  /** The attribute assignments of `saveFavorite`: `price` is never written. */
  function RecordOf(m: Movie): (r: Record)
    ensures r.id == Some(m.id) && r.favorited == m.favorited && r.price.None?
  {
    Record(Some(m.id), Some(m.title), Some(m.description), Some(m.year), Some(m.trailer),
           Some(m.poster.tiny), Some(m.poster.large), m.poster.imageTiny, m.poster.imageLarge,
           m.favorited, Some(m.genre), None)
  }

  /** The conversion inside `getFavorites`: a missing attribute reads as "". */
  function MovieOf(r: Record): (m: Movie)
    ensures r.id.Some? ==> m.id == r.id.value
    ensures r.id.None? ==> m.id == ""
    ensures m.favorited == r.favorited
    ensures r.price.None? ==> m.price == ""
  {
    Movie(r.id.GetOr(""), r.title.GetOr(""), r.desc.GetOr(""), r.year.GetOr(""), r.trailer.GetOr(""),
          r.favorited, r.price.GetOr(""), r.genre.GetOr(""),
          Poster(r.posterPathTiny.GetOr(""), r.posterPathLarge.GetOr(""), r.imageTiny, r.imageLarge))
  }

  function Reversed<T>(s: seq<T>): (r: seq<T>)
    ensures |r| == |s|
    ensures forall i :: 0 <= i < |s| ==> r[i] == s[|s| - 1 - i]
  {
    if s == [] then [] else Reversed(s[1..]) + [s[0]]
  }

  /** A saved movie lists back unchanged except for its price, which reads as "". */
  lemma SavedMovieListsBack(m: Movie)
    ensures MovieOf(RecordOf(m)) == m.(price := "")
  {
  }

  /** Adding a record whose id is not stored keeps ids unique. */
  lemma {:induction false} AppendFreshKeepsUnique(store: seq<Record>, r: Record)
    requires UniqueIds(store)
    requires r.id.Some? && FirstWithId(store, r.id.value).None?
    ensures UniqueIds(store + [r])
  {
    var s := store + [r];
    forall i, j | 0 <= i < j < |s| && s[i].id.Some?
      ensures s[i].id != s[j].id
    {
      if j == |store| {
        assert !HasId(store[i], r.id.value);
      }
    }
  }

  /** Removing a record keeps ids unique, and under unique ids removing the
      first record with an id leaves no record with that id. */
  lemma {:induction false} RemoveFirstMatch(store: seq<Record>, id: string, i: nat)
    requires UniqueIds(store)
    requires FirstWithId(store, id) == Some(i)
    ensures UniqueIds(store[..i] + store[i + 1..])
    ensures FirstWithId(store[..i] + store[i + 1..], id).None?
  {
    var s := store[..i] + store[i + 1..];
    assert forall k :: 0 <= k < |s| ==> s[k] == store[if k < i then k else k + 1];
    forall k | 0 <= k < |s|
      ensures !HasId(s[k], id)
    {
      if k >= i {
        assert store[i].id.Some? && store[i].id != store[k + 1].id;
      }
    }
  }

  class MovieRepository {
    /** The persisted favourite records, in fetch order. */
    var records: seq<Record>

    ghost predicate Valid()
      reads this
    {
      UniqueIds(records)
    }

    constructor (stored: seq<Record>)
      ensures records == stored
    {
      records := stored;
    }

    /** `checkFavoriteStatusBy(movie:)`: does some record carry the movie's id? */
    function CheckFavoriteStatusBy(movie: Movie): (favorite: bool)
      reads this
      ensures favorite <==> exists i :: 0 <= i < |records| && HasId(records[i], movie.id)
    {
      FirstWithId(records, movie.id).Some?
    }

    /** `getFavorites()`: one movie per record, newest first. */
    function GetFavorites(): (movies: seq<Movie>)
      reads this
      ensures |movies| == |records|
      ensures forall i :: 0 <= i < |records| ==> movies[i] == MovieOf(records[|records| - 1 - i])
    {
      Reversed(seq(|records|, i requires 0 <= i < |records| reads this => MovieOf(records[i])))
    }

    /** `saveFavorite(movie:)`; `created` is whether `persistence.create` returned a record. */
    method SaveFavorite(movie: Movie, created: bool) returns (result: Result<Movie, RepositoryError>)
      modifies this
      ensures old(CheckFavoriteStatusBy(movie)) ==>
                result == Failure(MovieAlreadyExists) && records == old(records)
      ensures !old(CheckFavoriteStatusBy(movie)) && !created ==>
                result == Failure(FailureToSave) && records == old(records)
      ensures !old(CheckFavoriteStatusBy(movie)) && created ==>
                && result == Success(movie)
                && records == old(records) + [RecordOf(movie)]
                && GetFavorites()[0] == movie.(price := "")
      ensures result.Success? ==> CheckFavoriteStatusBy(movie)
      ensures old(Valid()) ==> Valid()
    {
      var existing := FirstWithId(records, movie.id);
      if existing.Some? {
        return Failure(MovieAlreadyExists);
      }
      if !created {
        return Failure(FailureToSave);
      }
      if UniqueIds(records) {
        AppendFreshKeepsUnique(records, RecordOf(movie));
      }
      records := records + [RecordOf(movie)];
      assert HasId(records[|records| - 1], movie.id);
      return Success(movie);
    }

    /** `delete(movie:)`: removes the first record with the movie's id. */
    method Delete(movie: Movie) returns (result: Result<Movie, RepositoryError>)
      modifies this
      ensures old(FirstWithId(records, movie.id)).None? ==>
                result == Failure(MovieNotExist) && records == old(records)
      ensures old(FirstWithId(records, movie.id)).Some? ==>
                var i := old(FirstWithId(records, movie.id)).value;
                result == Success(movie) && records == old(records[..i] + records[i + 1..])
      ensures old(Valid()) ==> Valid() && !CheckFavoriteStatusBy(movie)
    {
      var existing := FirstWithId(records, movie.id);
      if existing.None? {
        return Failure(MovieNotExist);
      }
      var i := existing.value;
      if UniqueIds(records) {
        RemoveFirstMatch(records, movie.id, i);
      }
      records := records[..i] + records[i + 1..];
      return Success(movie);
    }

    /** `searchMovies(keyword:genre:limit:)`: the search request sent through
        the networking client; `decodeJSON` stands for `JSONDecoder`. */
    method SearchMovies(keyword: string, genre: string, limit: int, connected: bool,
                        urlParses: string -> bool, transport: Networking.UrlRequest -> Networking.TransportReply,
                        decodeJSON: Networking.Data -> Result<seq<SearchMovieRequest.MovieResponse>, string>)
      returns (result: Networking.NetworkResult<seq<Movie>>, sent: Option<Networking.UrlRequest>)
      ensures !connected ==> result == Networking.Failed(Networking.NoInternetError) && sent.None?
      ensures sent.Some? ==>
                && sent.value.url == SearchMovieRequest.BaseURL + SearchMovieRequest.SearchPath(keyword, genre, limit)
                && sent.value.httpMethod == "GET" && sent.value.headerFields == map[]
      ensures result.Succeeded? ==>
                && sent.Some?
                && var reply := transport(sent.value);
                   && reply.data.Some? && decodeJSON(reply.data.value).Success?
                   && result.value == SearchMovieRequest.MapResults(decodeJSON(reply.data.value).value)
                   && forall m :: m in result.value ==> !m.favorited
      ensures var url := SearchMovieRequest.BaseURL + SearchMovieRequest.SearchPath(keyword, genre, limit);
              connected && !urlParses(url) ==> result == Networking.Failed(Networking.InvalidRequestError) && sent.None?
      ensures var url := SearchMovieRequest.BaseURL + SearchMovieRequest.SearchPath(keyword, genre, limit);
              connected && urlParses(url) ==>
                && sent.Some?
                && var reply := transport(sent.value);
                   && (result.Succeeded? <==>
                         && reply.data.Some? && reply.response.Some? && reply.response.value.HttpResponse?
                         && 200 <= reply.response.value.statusCode < 300 && decodeJSON(reply.data.value).Success?)
                   && (reply.data.None? ==> result == Networking.Failed(Networking.NoDataError))
                   && (reply.data.Some? && (reply.response.None? || reply.response.value.OtherResponse?) ==>
                         result == Networking.Failed(Networking.FailedResponseError))
                   && (reply.data.Some? && reply.response.Some? && reply.response.value.HttpResponse?
                       && !(200 <= reply.response.value.statusCode < 300) ==>
                         result == Networking.Failed(Networking.ErrorResponse(Networking.ResError,
                                     reply.response.value.description, reply.response.value.statusCode)))
                   && (reply.data.Some? && reply.response.Some? && reply.response.value.HttpResponse?
                       && 200 <= reply.response.value.statusCode < 300 && decodeJSON(reply.data.value).Failure? ==>
                         result == Networking.Failed(Networking.ErrorResponse(Networking.SerializationError,
                                     decodeJSON(reply.data.value).error, Networking.SerializationErrorCode)))
    {
      var request := SearchMovieRequest.Request(keyword, genre, limit);
      result, sent := Networking.Request(request, connected, urlParses, transport,
                                         d => SearchMovieRequest.Map(d, decodeJSON));
    }
  }
}
