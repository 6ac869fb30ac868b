/** The film record of the data set, as the pipeline reads it. */
module Films {
  import opened Wrappers
  import Numbers

  /**
   * One entry of the data set. `image_url` and `film_url` are only rendered
   * and are not part of the record here.
   */
  datatype Film = Film(
    title: string,
    releaseYear: int,
    country: Option<string>,
    directors: Option<string>,
    boxOffice: string)

  /** JavaScript truthiness of an optional text field: present and not the empty string. */
  predicate Present(o: Option<string>)
  {
    o.Some? && o.value != ""
  }

  /** The box-office amount in whole dollars, 0 when the text does not parse (NaN). */
  function BoxOffice(f: Film): nat
  {
    Numbers.ParseBoxOffice(f.boxOffice).GetOr(0)
  }
}
