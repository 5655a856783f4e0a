/**
 * The read-only view of an index document that the catalog pages use, and the hits
 * the index hands back. Every field the pages treat as possibly absent is an Option
 * (for a multi-valued field: None stands for the field missing altogether).
 */
module Documents {
  import opened Optional

  datatype Doc = Doc(
    id: int,
    title: string,
    genres: Option<seq<string>>,
    countries: Option<seq<string>>,
    voteAverage: Option<real>,   // tmdb_vote_average, 0..10
    start: Option<int>,          // first year
    popularity: Option<real>,    // tmdb_popularity
    posterPath: Option<string>   // tmdb_poster_path
  )

  /** One search hit: the relevance score and the document its address resolves to. */
  datatype Hit = Hit(score: real, doc: Doc)

  /** A card shown in a grid: the document's id and title and the poster image address. */
  datatype Card = Card(id: int, title: string, posterUrl: string)

  const TmdbPath := "https://image.tmdb.org/t/p/original"
  const TmdbPathSmall := "https://image.tmdb.org/t/p/w200"

  /** The document's genres; a missing field reads as the empty list. */
  function GenresOf(d: Doc): seq<string> { d.genres.GetOr([]) }

  /** The document's countries; a missing field reads as the empty list. */
  function CountriesOf(d: Doc): seq<string> { d.countries.GetOr([]) }
}
