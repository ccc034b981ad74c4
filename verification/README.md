# Movie+iTunes core, modelled in Dafny

This project models the self-contained logic of Movie+iTunes, an iOS client for the
iTunes Search API that lets a user browse movies and keep favourites offline:

- the search request (`SearchMovieRequest`): which path a keyword or genre search uses, and how
  decoded iTunes result records become `Movie` values (defaults, four-character year, poster URL
  rewrite, `favorited = false`);
- the networking client (`Networking`): the guard chain of `request`, the classification in
  `responseHandler`, and `createURLRequest` / `setHeaders`;
- the favourites repository (`MovieRepository`): an existence-guarded store of movie records keyed
  by id, as a class over a sequence of records;
- the hexadecimal colour parser `UIColor(hex:)` and `theme(_:)`, with channels as integers 0..255;
- `SectionedArrayOf`, whose cached count fields are a class invariant;
- the `transform` of the detail and home view models, with Combine events as method calls;
- `topMostViewController` / `topMostTabBarViewController` over a controller tree.

Modules: `Wrappers` (Option, Result), `Decimal` (Swift's `String(Int)` and its inverse),
`Entities` (Movie, Poster), `SearchMovieRequest`, `Networking`, `Repository`, `ColorHex`,
`SectionedArray`, `DetailVM`, `HomeVM`, `TopMostVC`.

Inputs that the source gets from the platform are parameters: network reachability is a
boolean, `URL(string:)` is a predicate on strings, the URL session's reply is a function of the
URL request, `JSONDecoder` is a function from bytes to decoded records or an error message, and
`persistence.create` succeeding is a boolean. The CoreData store is a sequence of records whose
fetch order is taken to be insertion order.

The model follows the code as it stands: the home view
model only reacts to `didLoad` and `getFavorites` (both sections show the use case's fixed list);
`getMovies` has no subscriber; the repository stores `favorited` exactly as passed, so a movie
saved with `favorited == false` lists back with `favorited == false`.

## Model

| member | source | states |
|---|---|---|
| Decimal.NatToString | Movie+iTunes/Modules/Home/Data/Requests/SearchMovieRequest.swift:43 | the decimal rendering is non-empty and all digits, with no leading zero: it starts with '0' only when it is exactly "0" |
| Decimal.IntToString | Movie+iTunes/Modules/Home/Data/Requests/SearchMovieRequest.swift:43 | `String(n)`: a non-negative value is plain digits in canonical form, a negative one is '-' followed by digits not starting with '0' |
| Decimal.NatToStringValue | Movie+iTunes/Modules/Home/Data/Requests/SearchMovieRequest.swift:43 | the digits of a rendering denote the rendered number |
| Decimal.IntToStringRoundTrip | Movie+iTunes/Modules/Home/Data/Requests/SearchMovieRequest.swift:43 | parsing `String(n)` gives back `n`, negative values included |
| Decimal.IntToStringInjective | Movie+iTunes/Modules/Home/Data/Requests/SearchMovieRequest.swift:43 | distinct integers render to distinct strings |
| SearchMovieRequest.SearchPathShape | Movie+iTunes/Modules/Home/Data/Requests/SearchMovieRequest.swift:14-20 | an empty genre gives `/search?term=<keyword>&media=movie&limit=<limit>`, a non-empty one `/search?term=<genre>&entity=movie&attribute=genreTerm&limit=<limit>`; the limit reads back from the end of the path |
| SearchMovieRequest.SearchPath | Movie+iTunes/Modules/Home/Data/Requests/SearchMovieRequest.swift:14-20 | the path starts with `/search?term=` followed by the genre, or the keyword when the genre is empty, and ends with `&limit=` and the limit |
| SearchMovieRequest.GenreSearchIgnoresKeyword | Movie+iTunes/Modules/Home/Data/Requests/SearchMovieRequest.swift:14-20 | with a non-empty genre the keyword does not affect the request |
| SearchMovieRequest.Request | Movie+iTunes/Modules/Home/Data/Requests/SearchMovieRequest.swift:14-30 | the request is a GET on the iTunes base URL with the chosen path, no headers and no body |
| SearchMovieRequest.FirstIndexOf | Movie+iTunes/Modules/Home/Data/Requests/SearchMovieRequest.swift:38 | the index returned is an occurrence of the pattern with none before it; `None` exactly when there is no occurrence |
| SearchMovieRequest.PosterRewrite | Movie+iTunes/Modules/Home/Data/Requests/SearchMovieRequest.swift:36-41 | without "/100x100bb" both URLs are the artwork URL ("" when missing); otherwise at its first occurrence `tiny` holds "/350x350bb" and `large` "/750x750bb", all other characters unchanged, no image bytes |
| SearchMovieRequest.PosterOf | Movie+iTunes/Modules/Home/Data/Requests/SearchMovieRequest.swift:36-41 | the poster carries no image bytes, both URLs have the artwork URL's length, and without "/100x100bb" both are the artwork URL itself |
| SearchMovieRequest.PosterRewriteExample | Movie+iTunes/Modules/Home/Data/Requests/SearchMovieRequest.swift:36-41 | ".../100x100bb.jpg" becomes ".../350x350bb.jpg" and ".../750x750bb.jpg"; a URL without the marker is kept |
| SearchMovieRequest.YearOf | Movie+iTunes/Modules/Home/Data/Requests/SearchMovieRequest.swift:35-46 | the year is the first min(4, length) characters of the release date, "" when it is missing |
| SearchMovieRequest.MapResults | Movie+iTunes/Modules/Home/Data/Requests/SearchMovieRequest.swift:34-54 | exactly one movie per decoded record, in the same order |
| SearchMovieRequest.Map | Movie+iTunes/Modules/Home/Data/Requests/SearchMovieRequest.swift:32-55 | a decoding error is passed on; a successful decode yields exactly one converted movie per record, in order |
| SearchMovieRequest.MovieOfFields | Movie+iTunes/Modules/Home/Data/Requests/SearchMovieRequest.swift:42-52 | a mapped movie is not favourited, its id parses back to the track id and is "0" when the track id is missing, its year is a prefix of at most 4 characters of the release date, missing title, description, trailer and genre are "", a missing price is "0.0" |
| SearchMovieRequest.MovieOf | Movie+iTunes/Modules/Home/Data/Requests/SearchMovieRequest.swift:42-52 | a converted record is never favourited, has no image bytes, a year of at most 4 characters, and id "0" without a track id |
| SearchMovieRequest.DistinctTrackIdsGiveDistinctIds | Movie+iTunes/Modules/Home/Data/Requests/SearchMovieRequest.swift:43 | records with different track ids get different movie ids |
| Networking.AddValue | Networking/Networking.swift:106-110 | adding a header sets a new field, appends the value after a comma to an existing one, and leaves every other field as it was |
| Networking.WithHeaders | Networking/Networking.swift:106-110 | the header fields after adding all headers are exactly the old fields and the header names |
| Networking.SetHeaders | Networking/Networking.swift:106-110 | after adding every header, in any dictionary order, each header key holds its value (appended after a comma to an existing field) and other fields are unchanged; the result is the one `WithHeaders` describes |
| Networking.RawValueInjective | Networking/APIRequest.swift:11-16 | the raw values "GET", "POST", "PUT", "DELETE" of distinct HTTP methods are distinct |
| Networking.CreateURLRequest | Networking/Networking.swift:93-104 | a request exists exactly when `baseURL + path` parses; its URL is that string, its method the raw value of the HTTP method, its header fields the request's headers |
| Networking.CreateURLRequestIgnoresBody | Networking/Networking.swift:93-104 | the request body never reaches the URL request |
| Networking.ResponseHandler | Networking/Networking.swift:62-91 | success exactly when there is data, an HTTP response with status in [200,300) and a successful decode, carrying the decoded value; no data gives `noData` (-1002) whatever the response; data with a missing or non-HTTP response gives `failedResponse` (-1003); data with an HTTP status outside [200,300) gives `resError` with the response description as message and the status as code |
| Networking.ResponseHandlerFailures | Networking/Networking.swift:62-91 | every failure is `noData` -1002, `failedResponse` -1003, `resError` with the non-2xx status as code, or `serializationError` -1006 after a failed decode |
| Networking.DecodeFailureIsSerializationError | Networking/Networking.swift:85-90 | a 2xx reply whose decoding fails gives `serializationError` -1006 with the decoder's message |
| Networking.ResponseHandlerIgnoresError | Networking/Networking.swift:62-91 | the classification does not depend on the transport's error argument |
| Networking.Request | Networking/Networking.swift:34-60 | offline gives `noInternet` -1003 and no transport; online with an unparsable URL gives `invalidResponse` -1001 and no transport; otherwise the built URL request is sent and the reply classified by the response handler; the initial `cancelled` value is never returned |
| Repository.FirstWithId | Movie+iTunes/Modules/Home/Data/Repositories/MovieRepository.swift:79-80 | the index found holds a record with the id and no earlier record has it; `None` exactly when no record has it |
| Repository.Reversed | Movie+iTunes/Modules/Home/Data/Repositories/MovieRepository.swift:148 | the reversal has the same length and element `i` is element `n - 1 - i` of the input |
| Repository.RecordOf | Movie+iTunes/Modules/Home/Data/Repositories/MovieRepository.swift:115-125 | a saved record carries the movie's id and favourite flag, and no price |
| Repository.MovieOf | Movie+iTunes/Modules/Home/Data/Repositories/MovieRepository.swift:137-145 | a listed movie carries the record's id ("" when missing) and favourite flag; a record without price lists with price "" |
| Repository.SavedMovieListsBack | Movie+iTunes/Modules/Home/Data/Repositories/MovieRepository.swift:115-144 | a saved movie lists back identical except for its price, which was never written and reads as "" |
| Repository.AppendFreshKeepsUnique | Movie+iTunes/Modules/Home/Data/Repositories/MovieRepository.swift:96-127 | adding a record whose id is not stored keeps ids unique |
| Repository.RemoveFirstMatch | Movie+iTunes/Modules/Home/Data/Repositories/MovieRepository.swift:77-93 | under unique ids, removing the first record with an id keeps ids unique and leaves no record with that id |
| Repository.MovieRepository.constructor | Movie+iTunes/Modules/Home/Data/Repositories/MovieRepository.swift:61-66 | the repository starts over the records already persisted |
| Repository.MovieRepository.CheckFavoriteStatusBy | Movie+iTunes/Modules/Home/Data/Repositories/MovieRepository.swift:152-158 | true exactly when some stored record carries the movie's id; a read-only query |
| Repository.MovieRepository.GetFavorites | Movie+iTunes/Modules/Home/Data/Repositories/MovieRepository.swift:136-150 | one movie per record, newest first, each converted with missing attributes read as "" |
| Repository.MovieRepository.SaveFavorite | Movie+iTunes/Modules/Home/Data/Repositories/MovieRepository.swift:95-133 | a stored id fails with "Movie already exists" and a failed creation with "Failure to save", both leaving the store unchanged; otherwise exactly one record is appended, the same movie is returned, it is then found by id and lists first with price ""; unique ids are preserved |
| Repository.MovieRepository.Delete | Movie+iTunes/Modules/Home/Data/Repositories/MovieRepository.swift:77-93 | a missing id fails with "Movie not exist" and leaves the store unchanged; otherwise the first matching record is removed and the same movie returned; under unique ids the id is then no longer found |
| Repository.MovieRepository.SearchMovies | Movie+iTunes/Modules/Home/Data/Repositories/MovieRepository.swift:71-75 | the result is the networking client's for the search request: offline gives `noInternet` and nothing is sent; an unparsable URL gives `invalidResponse` -1001 and nothing is sent; otherwise the header-less GET of the iTunes base URL plus the search path is sent, and the reply gives success exactly on data, a 2xx HTTP status and a successful decode (carrying the mapped records, none favourited), `noData`, `failedResponse`, `resError` with the status, or `serializationError` with the decoder's message |
| ColorHex.RemoveHashes | Movie+iTunes/Domain/Extensions/UIColor+Ext.swift:36 | no '#' is left and the result is no longer than the input |
| ColorHex.HashIsIgnored | Movie+iTunes/Domain/Extensions/UIColor+Ext.swift:36 | a '#' anywhere in the string does not change the colour |
| ColorHex.ScanHexInt64 | Movie+iTunes/Domain/Extensions/UIColor+Ext.swift:37-41 | a scanned number fits in 64 bits |
| ColorHex.Byte | Movie+iTunes/Domain/Extensions/UIColor+Ext.swift:43-53 | every byte extracted by mask and shift lies in 0..255 |
| ColorHex.HexColor | Movie+iTunes/Domain/Extensions/UIColor+Ext.swift:30-62 | all channels lie in 0..255; the colour is valid exactly when the hash-free string has 6 or 8 characters and scans; otherwise it is (0,0,0,255) and invalid |
| ColorHex.InitHex | Movie+iTunes/Domain/Extensions/UIColor+Ext.swift:30-62 | the branch-by-branch initializer computes the colour `HexColor` describes |
| ColorHex.ScannedColor | Movie+iTunes/Domain/Extensions/UIColor+Ext.swift:42-54 | for any hash-free string that scans to n, 6 characters give r, g, b from bytes 2, 1, 0 of n with alpha 255, and 8 characters give r, g, b, a from bytes 3, 2, 1, 0 |
| ColorHex.SixDigitRoundTrip | Movie+iTunes/Domain/Extensions/UIColor+Ext.swift:49-54 | the six-digit string written from channels r, g, b (upper-case digits) parses back to r, g, b with alpha 255 |
| ColorHex.EightDigitRoundTrip | Movie+iTunes/Domain/Extensions/UIColor+Ext.swift:42-48 | the eight-digit string written from channels r, g, b, a (upper-case digits) parses back to r, g, b, a |
| ColorHex.Theme | Movie+iTunes/Domain/Extensions/UIColor+Ext.swift:12-18 | `theme(.background)`, whose raw value is "1E1C1C", is the valid opaque colour (0x1E, 0x1C, 0x1C, 255) |
| SectionedArray.ItemCounts | Movie+iTunes/Domain/Utils/SectionedArray.swift:19-21 | one count per section, equal to that section's item count |
| SectionedArray.SectionedArrayOf.constructor | Movie+iTunes/Domain/Utils/SectionedArray.swift:16-26 | a fresh value is empty and already satisfies the cache invariant |
| SectionedArray.SectionedArrayOf.DidSetSectionedData | Movie+iTunes/Domain/Utils/SectionedArray.swift:17-22 | the observer re-establishes `numberOfSection == sectionedData.count` and the per-section counts |
| SectionedArray.SectionedArrayOf.SetSectionedData | Movie+iTunes/Domain/Utils/SectionedArray.swift:16-23 | any assignment of the data leaves the caches consistent with it |
| SectionedArray.SectionedArrayOf.Append | Movie+iTunes/Domain/Utils/SectionedArray.swift:28-31 | the section count grows by one, the new section is last with its item count cached, earlier sections are unchanged |
| SectionedArray.SectionedArrayOf.GetElement | Movie+iTunes/Domain/Utils/SectionedArray.swift:33-35 | bounds checked against the cached counts suffice to reach `sectionedData[section].items[row]` |
| DetailVM.DetailVM.constructor | Movie+iTunes/Modules/Detail/Presentation/DetailVM.swift:20-24 | the view model keeps its movie and completion, with an empty state |
| DetailVM.DetailVM.Transform | Movie+iTunes/Modules/Detail/Presentation/DetailVM.swift:55-86 | with no movie the state is empty with a nil poster and no movie is captured for taps; with a movie the sections are exactly [header(m'), trailers(m')] with m' the movie whose `favorited` is the store status, and the poster is the movie's; `movie` is not modified |
| DetailVM.DetailVM.ButtonDidTap | Movie+iTunes/Modules/Detail/Presentation/DetailVM.swift:70-83 | each tap re-reads `favorited` from the store into the captured movie; a favourite tap calls the completion once with it, a buy tap never; the state and `movie` are not modified |
| HomeVM.FavoriteSections | Movie+iTunes/Modules/Home/Presentation/HomeVM.swift:46-50 | exactly two sections, "Movie you liked" then "Popular now", both with the identical favourites list |
| HomeVM.HomeVM.constructor | Movie+iTunes/Modules/Home/Presentation/HomeVM.swift:30-35 | the initial `dataSources` is empty |
| HomeVM.HomeVM.GetFavorites | Movie+iTunes/Modules/Home/Presentation/HomeVM.swift:43-52 | the sections are replaced by the two favourites sections, so repeating the event keeps two sections |
| HomeVM.HomeVM.DidLoad | Movie+iTunes/Modules/Home/Presentation/HomeVM.swift:37-41 | a load event has the same effect as a favourites event |
| HomeVM.HomeVM.GetMovies | Movie+iTunes/Modules/Home/Presentation/HomeVM.swift:27-55 | a `getMovies` event changes nothing: no one subscribes to it |
| TopMostVC.TopMost | Movie+iTunes/Domain/Extensions/UIApplication+TopMostVC.swift:21-36 | the result lies in the controller's tree, presents nothing and has no visible or selected child |
| TopMostVC.PresentedTakesPriority | Movie+iTunes/Domain/Extensions/UIApplication+TopMostVC.swift:23-25 | a presented controller wins over navigation and tab containment |
| TopMostVC.TopIsFixedPoint | Movie+iTunes/Domain/Extensions/UIApplication+TopMostVC.swift:27-35 | a plain controller, a navigation controller without visible child or a tab controller without selected child, presenting nothing, is its own result |
| TopMostVC.TopMostIdempotent | Movie+iTunes/Domain/Extensions/UIApplication+TopMostVC.swift:21-36 | applying the descent to its own result returns that result |
| TopMostVC.TopMostTabBar | Movie+iTunes/Domain/Extensions/UIApplication+TopMostVC.swift:38-45 | the result lies in the tree and is not a navigation controller with a visible child |
| TopMostVC.TopMostTabBarStopsOutsideNavigation | Movie+iTunes/Domain/Extensions/UIApplication+TopMostVC.swift:38-45 | plain and tab controllers are their own result, whatever they present or select |
| TopMostVC.TopMostTabBarIgnoresPresented | Movie+iTunes/Domain/Extensions/UIApplication+TopMostVC.swift:38-45 | the tab-bar descent never reads `presentedViewController`: for a navigation controller with a visible child, the `presented` field does not affect the result |

## Left out

- ColorHex.ScanHexInt64: Foundation's `Scanner.scanHexInt64` is approximated: it skips leading ASCII whitespace only (not every Unicode whitespace or newline), skips a `0x`/`0X` prefix only when a hexadecimal digit follows, and saturates at `UInt64.max` on overflow.
- ColorHex.HexColor: the `/ 255` conversion to `CGFloat` and the `UIColor` itself are not modelled (floating point); channels stay integers. `hexColor.count` counts grapheme clusters in Swift and characters here.
- SearchMovieRequest.YearOf: `String(year.prefix(4))` takes four grapheme clusters in Swift; the model takes four Unicode scalars, which differs on dates containing combining marks.
- SearchMovieRequest.PosterRewrite: `range(of:)` and `replaceSubrange` work on Swift `Character`s; the model searches and replaces over Unicode scalars, which differs on URLs containing combining marks.
- ColorHex.InitHex: the `#if DEBUG` assertion on `valid` is not modelled; a debug build traps on an invalid string.
- `UIColor(light:dark:)` and `blue0` are not part of this model (trait collections); as written the initializer returns the light colour in both interface styles.
- SearchMovieRequest.MovieOfFields: `price` is `String(trackPrice ?? 0)`, a `Double` rendering; the model takes the rendered text as input and uses "0.0" when it is missing.
- JSON decoding (`JSONDecoder`, `BaseResponse.resultCount`) is an input; response fields the mapper does not read (`artistName`, `trackViewUrl`, `artworkUrl30`, `artworkUrl60`) are omitted.
- Integers are unbounded: 64-bit overflow of `trackId` or `limit` is not modelled.
- Networking.Request: URLSession, `dataTask` and the semaphore are replaced by a reply function; if the client is deallocated before the reply (`[weak self]`), the source never signals the semaphore and blocks, which the model does not capture. Reachability and `URL(string:)` are inputs.
- Networking.SetHeaders: header names are compared exactly; `URLRequest` treats them case-insensitively.
- `NetworkResult.asPublisher`, `Future`, `AnyPublisher` and `CancelBag` are not modelled; results are values and events are method calls.
- CoreData (`CoreDataManager`) is not part of this model, including its `fatalError` paths on load and save failures; the store is a sequence of records whose fetch order is assumed to be insertion order. `saveContext` and the context's pending state are not modelled separately.
- Repository.MovieRepository.GetFavorites: the source wraps the list in a publisher that always succeeds; the model returns the list.
- `getImageData` is not modelled: it is an asynchronous Kingfisher callback.
- DetailVM.DetailVM.Transform: models a single call of `transform`, the one the detail screen makes; the `[weak self]` guard in the tap subscription and the use case object (`DetailUseCase`, a one-line call of the repository's check) are folded into the class.
- HomeVM.HomeVM.GetFavorites: `HomeUseCase.getFavorites()` returns a fixed list, which is a constructor input; the `[weak self]` guard is not modelled.
- SectionedArray.SectionedArrayOf.constructor: only the default initializer is modelled; Swift's memberwise initializer would set `sectionedData` without running `didSet`, leaving the caches at zero.
- `UIApplication.topMostViewController()` / `topMostTabBarViewController()` (key-window lookup) are not part of this model (UIKit); controllers are compared as values, not by identity.
- TopMostVC.TopMostTabBarIgnoresPresented: `visible` stands for the value UIKit's `visibleViewController` returns, which the model treats as a field independent of `presented`; UIKit makes it the controller presented on the navigation controller when there is one, so in the app presenting on a navigation controller does change what `topMostTabBarViewController` returns.
- Not part of this model: UIKit views, view controllers and cells, `ColumnFlowLayout`, Toast and alert countdowns, the Atlas router and dependency managers, `NSObject+Identifier`.
