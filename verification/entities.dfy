/** The domain values shared by the request mapper, the favourites
    repository and the view models. */
module Entities {
  import opened Wrappers

  /** Raw image bytes; the model never looks inside them. */
  type ImageData = seq<bv8>

  /** Poster URLs in two sizes, with the image bytes cached at favourite time. */
  datatype Poster = Poster(tiny: string, large: string, imageTiny: Option<ImageData>, imageLarge: Option<ImageData>)

  /** A movie as the app shows it; `id` is its identity. */
  datatype Movie = Movie(
    id: string,
    title: string,
    description: string,
    year: string,
    trailer: string,
    favorited: bool,
    price: string,
    genre: string,
    poster: Poster)
}
