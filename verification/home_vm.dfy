/** The home screen's view model: `transform` subscribes to the load and
    favourites events and overwrites the state's sections on each favourites
    event. Events are method calls; the use case's favourites list is an input. */
module HomeVM {
  import opened Entities

  datatype DataSourceType =
    | Favorites(title: string, items: seq<Movie>)
    | Lists(title: string, items: seq<Movie>)

  const FavoritesTitle: string := "Movie you liked"
  const ListsTitle: string := "Popular now"

  /** The two sections a favourites event produces from the use case's list. */
  function FavoriteSections(fav: seq<Movie>): (sections: seq<DataSourceType>)
    ensures |sections| == 2
    ensures sections[0].Favorites? && sections[0].title == FavoritesTitle
    ensures sections[1].Lists? && sections[1].title == ListsTitle
    ensures sections[0].items == fav && sections[1].items == fav
  {
    [Favorites(FavoritesTitle, fav), Lists(ListsTitle, fav)]
  }

  class HomeVM {
    /** What `useCase.getFavorites()` returns. */
    const useCaseFavorites: seq<Movie>
    /** `state.dataSources` of the state `transform` returned. */
    var dataSources: seq<DataSourceType>

    /** `init(useCase:)` followed by `transform`: a fresh state has no sections. */
    constructor (favorites: seq<Movie>)
      ensures useCaseFavorites == favorites && dataSources == []
    {
      useCaseFavorites := favorites;
      dataSources := [];
    }

    /** A `getFavorites` event: the sections are replaced, never appended to. */
    method GetFavorites()
      modifies this`dataSources
      ensures dataSources == FavoriteSections(useCaseFavorites)
    {
      var fav := useCaseFavorites;
      dataSources := [Favorites(FavoritesTitle, fav), Lists(ListsTitle, fav)];
    }

    /** A `didLoad` event forwards a `getFavorites` event. */
    method DidLoad()
      modifies this`dataSources
      ensures dataSources == FavoriteSections(useCaseFavorites)
    {
      GetFavorites();
    }

    /** A `getMovies` event: nothing subscribes to it. */
    method GetMovies()
      ensures dataSources == old(dataSources)
    {
    }
  }
}
