/** The detail screen's view model: `transform` builds the two-section state
    from the movie with its favourite flag read from the store, and routes
    favourite-button taps to the completion. Button taps are method calls. */
module DetailVM {
  import opened Wrappers
  import opened Entities
  import Repository

  datatype DataSourceType = Header(movie: Movie) | Trailers(movie: Movie)

  datatype ButtonType = Buy | Favorite

  class DetailVM {
    /** The repository behind `DetailUseCase.checkFavoriteStatusBy`. */
    const repository: Repository.MovieRepository
    var movie: Option<Movie>
    /** Whether a `favoriteCompletion` closure was supplied. */
    const hasCompletion: bool

    /** `state.dataSources` and `state.poster`. */
    var dataSources: seq<DataSourceType>
    var poster: Option<Poster>
    /** The local `movie` captured by the tap subscription; `None` when
        `transform` returned before subscribing. */
    var captured: Option<Movie>
    /** Every movie handed to `favoriteCompletion`, in call order. */
    var completionCalls: seq<Movie>

    constructor (repository: Repository.MovieRepository, movie: Option<Movie>, hasCompletion: bool)
      ensures this.repository == repository && this.movie == movie && this.hasCompletion == hasCompletion
      ensures dataSources == [] && poster.None? && captured.None? && completionCalls == []
    {
      this.repository := repository;
      this.movie := movie;
      this.hasCompletion := hasCompletion;
      dataSources := [];
      poster := None;
      captured := None;
      completionCalls := [];
    }

    /** `transform(_:cancellables:)`. */
    method Transform()
      modifies this`dataSources, this`poster, this`captured
      ensures movie.None? ==> dataSources == [] && poster.None? && captured.None?
      ensures movie.Some? ==>
                var m := movie.value.(favorited := repository.CheckFavoriteStatusBy(movie.value));
                && dataSources == [Header(m), Trailers(m)]
                && poster == Some(movie.value.poster)
                && captured == Some(m)
    {
      dataSources, poster := [], None;
      if movie.None? {
        captured := None;
        return;
      }
      var m := movie.value;
      m := m.(favorited := repository.CheckFavoriteStatusBy(m));
      dataSources := [Header(m), Trailers(m)];
      poster := Some(m.poster);
      captured := Some(m);
    }

    /** A `buttonDidTap` event: every tap re-reads the favourite flag into the
        captured movie; only a favourite tap calls the completion. */
    method ButtonDidTap(button: ButtonType)
      modifies this`captured, this`completionCalls
      ensures old(captured).None? ==> captured.None? && completionCalls == old(completionCalls)
      ensures old(captured).Some? ==>
                var m := old(captured).value.(favorited := repository.CheckFavoriteStatusBy(old(captured).value));
                && captured == Some(m)
                && completionCalls == old(completionCalls) + (if button == Favorite && hasCompletion then [m] else [])
    {
      if captured.None? {
        return;
      }
      var m := captured.value;
      m := m.(favorited := repository.CheckFavoriteStatusBy(m));
      captured := Some(m);
      if button == Favorite && hasCompletion {
        completionCalls := completionCalls + [m];
      }
    }
  }
}
