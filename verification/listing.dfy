/** The movie listing of `MoviesService.findAll`, over the rows the title
    query returned with their actors, genres and reviews loaded.  The source
    narrows the rows by title in SQL, then in memory by genre, by actor and,
    once every movie carries its average rating, by minimum rating, and finally
    cuts one page out of what remains.  A filter whose value is falsy (absent,
    `0`, or the empty title) is skipped. */
module Listing {
  import opened Common
  import opened Entities
  import opened Seqs
  import opened Rating
  import opened Pagination
  import opened FilterDto

  /** A movie row with its reviews loaded. */
  datatype LoadedMovie = LoadedMovie(movie: Movie, reviews: seq<Review>)

  /** `{ ...movie, averageRating }`, the rating kept in tenths. */
  datatype RatedMovie = RatedMovie(movie: Movie, reviews: seq<Review>, averageRating: int)

  function Rate(row: LoadedMovie): RatedMovie {
    RatedMovie(row.movie, row.reviews, AverageRating(row.reviews))
  }

  /** JavaScript truthiness of an optional number or string. */
  predicate IdGiven(o: Option<int>) {
    o.Some? && o.value != 0
  }

  predicate TextGiven(o: Option<string>) {
    o.Some? && o.value != ""
  }

  predicate TitleMatches(f: FilterMovieDto, row: LoadedMovie) {
    TextGiven(f.title) ==> Contains(row.movie.title, f.title.value)
  }

  predicate InGenre(f: FilterMovieDto, row: LoadedMovie) {
    IdGiven(f.genreId) ==> f.genreId.value in row.movie.genreIds
  }

  predicate WithActor(f: FilterMovieDto, row: LoadedMovie) {
    IdGiven(f.actorId) ==> f.actorId.value in row.movie.actorIds
  }

  /** `averageRating >= minRating`, compared in tenths. */
  predicate RatedAtLeast(f: FilterMovieDto, m: RatedMovie) {
    IdGiven(f.minRating) ==> m.averageRating >= 10 * f.minRating.value
  }

  /** The conjunction of every filter: the rows the listing reports. */
  predicate Selected(f: FilterMovieDto, row: LoadedMovie) {
    TitleMatches(f, row) && InGenre(f, row) && WithActor(f, row) && RatedAtLeast(f, Rate(row))
  }

  function TitleTest(f: FilterMovieDto): LoadedMovie -> bool {
    row => TitleMatches(f, row)
  }

  function GenreTest(f: FilterMovieDto): LoadedMovie -> bool {
    row => InGenre(f, row)
  }

  function ActorTest(f: FilterMovieDto): LoadedMovie -> bool {
    row => WithActor(f, row)
  }

  function RatingTest(f: FilterMovieDto): RatedMovie -> bool {
    m => RatedAtLeast(f, m)
  }

  function SelectedTest(f: FilterMovieDto): LoadedMovie -> bool {
    row => Selected(f, row)
  }

  /** The reference definition of the listing's result before pagination. */
  function Selection(rows: seq<LoadedMovie>, f: FilterMovieDto): seq<LoadedMovie> {
    Filter(rows, SelectedTest(f))
  }

  // The steps in the order the source applies them.  Each skipped step is
  // the same as filtering by a test that every row passes.

  function ByTitle(rows: seq<LoadedMovie>, f: FilterMovieDto): (r: seq<LoadedMovie>)
    ensures r == Filter(rows, TitleTest(f))
  {
    if TextGiven(f.title) then Filter(rows, TitleTest(f))
    else FilterAll(rows, TitleTest(f)); rows
  }

  function ByGenre(rows: seq<LoadedMovie>, f: FilterMovieDto): (r: seq<LoadedMovie>)
    ensures r == Filter(rows, GenreTest(f))
  {
    if IdGiven(f.genreId) then Filter(rows, GenreTest(f))
    else FilterAll(rows, GenreTest(f)); rows
  }

  function ByActor(rows: seq<LoadedMovie>, f: FilterMovieDto): (r: seq<LoadedMovie>)
    ensures r == Filter(rows, ActorTest(f))
  {
    if IdGiven(f.actorId) then Filter(rows, ActorTest(f))
    else FilterAll(rows, ActorTest(f)); rows
  }

  function ByMinRating(rated: seq<RatedMovie>, f: FilterMovieDto): (r: seq<RatedMovie>)
    ensures r == Filter(rated, RatingTest(f))
    ensures forall m :: m in r <==> m in rated && RatedAtLeast(f, m)
  {
    if IdGiven(f.minRating) then Filter(rated, RatingTest(f))
    else FilterAll(rated, RatingTest(f)); rated
  }

  /** The rated list `findAll` paginates. */
  function Matching(rows: seq<LoadedMovie>, f: FilterMovieDto): seq<RatedMovie> {
    ByMinRating(Map(ByActor(ByGenre(ByTitle(rows, f), f), f), Rate), f)
  }

  function TitleGenreTest(f: FilterMovieDto): LoadedMovie -> bool {
    row => TitleMatches(f, row) && InGenre(f, row)
  }

  function MovieTest(f: FilterMovieDto): LoadedMovie -> bool {
    row => TitleMatches(f, row) && InGenre(f, row) && WithActor(f, row)
  }

  function RatedTest(f: FilterMovieDto): LoadedMovie -> bool {
    row => RatedAtLeast(f, Rate(row))
  }

  /** The three in-memory movie filters narrow the rows to those passing all
      three tests. */
  lemma MovieFilters(rows: seq<LoadedMovie>, f: FilterMovieDto)
    ensures ByActor(ByGenre(ByTitle(rows, f), f), f) == Filter(rows, MovieTest(f))
  {
    FilterFilter(rows, TitleTest(f), GenreTest(f), TitleGenreTest(f));
    FilterFilter(rows, TitleGenreTest(f), ActorTest(f), MovieTest(f));
  }

  /** Rating then filtering by rating is filtering by the rating of the row. */
  lemma RatingFilter(s: seq<LoadedMovie>, f: FilterMovieDto)
    ensures ByMinRating(Map(s, Rate), f) == Map(Filter(s, RatedTest(f)), Rate)
  {
    FilterMap(s, Rate, RatingTest(f), RatedTest(f));
  }

  /** The four filters applied one after the other, with the rating computed
      in between, select exactly the rows passing all four tests, in their
      original order, each with its own average rating. */
  lemma MatchingIsSelection(rows: seq<LoadedMovie>, f: FilterMovieDto)
    ensures Matching(rows, f) == Map(Selection(rows, f), Rate)
  {
    MovieFilters(rows, f);
    RatingFilter(Filter(rows, MovieTest(f)), f);
    FilterFilter(rows, MovieTest(f), RatedTest(f), SelectedTest(f));
  }

  /** `MoviesService.findAll` over the loaded rows: the page asked for of
      the selected movies, each with its average rating. */
  function FindAll(rows: seq<LoadedMovie>, f: FilterMovieDto): (r: Paginated<RatedMovie>)
    requires Valid(f)
    ensures r == Paginate(Map(Selection(rows, f), Rate), EffectivePage(f), EffectiveLimit(f))
    ensures r.meta.total == |Selection(rows, f)|
    ensures r.meta.page == EffectivePage(f) && r.meta.limit == EffectiveLimit(f)
    ensures |r.data| <= r.meta.limit
    ensures forall i :: 0 <= i < |r.data| ==>
              LoadedMovie(r.data[i].movie, r.data[i].reviews) in rows &&
              Selected(f, LoadedMovie(r.data[i].movie, r.data[i].reviews)) &&
              r.data[i].averageRating == AverageRating(r.data[i].reviews)
    ensures r.meta.hasNextPage <==> r.meta.page * r.meta.limit < r.meta.total
    ensures r.meta.hasPrevPage <==> r.meta.page > 1
  {
    var r := Paginate(Matching(rows, f), EffectivePage(f), EffectiveLimit(f));
    MatchingIsSelection(rows, f);
    PageOfSelected(rows, Selection(rows, f), f, EffectivePage(f), EffectiveLimit(f), r);
    r
  }

  lemma PageOfSelected(rows: seq<LoadedMovie>, sel: seq<LoadedMovie>, f: FilterMovieDto, page: int, limit: int,
                        r: Paginated<RatedMovie>)
    requires page >= 1 && limit >= 1
    requires forall i :: 0 <= i < |sel| ==> SelectedTest(f)(sel[i]) && sel[i] in rows
    requires r == Paginate(Map(sel, Rate), page, limit)
    ensures r.meta.total == |sel| && r.meta.page == page && r.meta.limit == limit
    ensures |r.data| <= r.meta.limit
    ensures forall i :: 0 <= i < |r.data| ==>
              LoadedMovie(r.data[i].movie, r.data[i].reviews) in rows &&
              Selected(f, LoadedMovie(r.data[i].movie, r.data[i].reviews)) &&
              r.data[i].averageRating == AverageRating(r.data[i].reviews)
    ensures r.meta.hasNextPage <==> r.meta.page * r.meta.limit < r.meta.total
    ensures r.meta.hasPrevPage <==> r.meta.page > 1
  {
    SkipFacts(page, limit);
    forall i | 0 <= i < |r.data|
      ensures LoadedMovie(r.data[i].movie, r.data[i].reviews) in rows
      ensures Selected(f, LoadedMovie(r.data[i].movie, r.data[i].reviews))
    {
      var row := sel[Skip(page, limit) + i];
      assert SelectedTest(f)(row) && row in rows;
      assert LoadedMovie(r.data[i].movie, r.data[i].reviews) == row;
    }
  }

  /** With no filter set, every loaded row is listed. */
  lemma NoFilterListsEverything(rows: seq<LoadedMovie>, f: FilterMovieDto)
    requires Valid(f)
    requires !TextGiven(f.title) && !IdGiven(f.genreId) && !IdGiven(f.actorId) && !IdGiven(f.minRating)
    ensures Selection(rows, f) == rows
    ensures FindAll(rows, f).meta.total == |rows|
  {
    FilterAll(rows, SelectedTest(f));
  }
}
