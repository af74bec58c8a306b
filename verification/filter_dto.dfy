/** The query parameters of the movie listing (`FilterMovieDto`) and the
    validation rules the request pipeline enforces before the listing runs. */
module FilterDto {
  import opened Common

  const DefaultPage: int := 1
  const DefaultLimit: int := 10
  const MaxLimit: int := 100
  const LowestRating: int := 1
  const HighestRating: int := 5

  /** Every field is optional; `title` is a partial-match search string and
      the others are integers. */
  datatype FilterMovieDto = FilterMovieDto(
    title: Option<string>,
    genreId: Option<int>,
    actorId: Option<int>,
    minRating: Option<int>,
    page: Option<int>,
    limit: Option<int>)

  /** The class-validator rules: `minRating` in 1..5, `page` at least 1,
      `limit` in 1..100; `genreId` and `actorId` only need to be integers. */
  predicate Valid(f: FilterMovieDto) {
    && (f.minRating.Some? ==> LowestRating <= f.minRating.value <= HighestRating)
    && (f.page.Some? ==> f.page.value >= 1)
    && (f.limit.Some? ==> 1 <= f.limit.value <= MaxLimit)
  }

  /** The page actually served: the requested one, or page 1. */
  function EffectivePage(f: FilterMovieDto): (p: int)
    requires Valid(f)
    ensures p >= 1
    ensures f.page.Some? ==> p == f.page.value
    ensures f.page.None? ==> p == DefaultPage
  {
    f.page.GetOr(DefaultPage)
  }

  /** The page size actually used: the requested one, or 10; never more than 100. */
  function EffectiveLimit(f: FilterMovieDto): (l: int)
    requires Valid(f)
    ensures 1 <= l <= MaxLimit
    ensures f.limit.Some? ==> l == f.limit.value
    ensures f.limit.None? ==> l == DefaultLimit
  {
    f.limit.GetOr(DefaultLimit)
  }

  /** A request without parameters is valid and asks for the first ten movies. */
  lemma EmptyFilterDefaults()
    ensures var f := FilterMovieDto(None, None, None, None, None, None);
            Valid(f) && EffectivePage(f) == 1 && EffectiveLimit(f) == 10
  {
  }
}
