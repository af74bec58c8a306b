/** `GenresService`: genres and the movies filed under them. */
module Genres {
  import opened Common
  import opened Entities
  import opened Seqs
  import opened Resolver

  datatype CreateGenreDto = CreateGenreDto(name: string, description: Option<string>, movieIds: Option<seq<int>>)

  datatype UpdateGenreDto = UpdateGenreDto(name: Option<string>, description: Option<string>, movieIds: Option<seq<int>>)

  /** A non-empty list of movie ids fails the count check. */
  predicate UnknownMovies(store: Store, ids: Option<seq<int>>) {
    NonEmptyIds(ids) && !ResolvesExactly(store.movies, ids.value)
  }

  /** Some stored genre already has this name. */
  predicate NameTaken(store: Store, name: string) {
    exists k :: k in store.genres && store.genres[k].name == name
  }

  /** The unique index on `name`: no two genres share a name. */
  predicate NamesUnique(store: Store) {
    forall j, k :: j in store.genres && k in store.genres && store.genres[j].name == store.genres[k].name ==> j == k
  }

  /** `create`: a non-empty `movieIds` list must name only existing movies,
      each once; otherwise the genre has no movies.  The final save is then
      refused by the unique index on `name` when the name is taken.  `id` is
      the key the database assigns. */
  function Create(store: Store, dto: CreateGenreDto, id: int): (r: Result<(Store, Genre)>)
    requires id !in store.genres
    ensures r.Err? <==> UnknownMovies(store, dto.movieIds) || NameTaken(store, dto.name)
    ensures UnknownMovies(store, dto.movieIds) ==> r == Err(NotFound(MovieKind))
    ensures !UnknownMovies(store, dto.movieIds) && NameTaken(store, dto.name) ==> r == Err(UniqueViolation)
    ensures r.Ok? ==>
              var (s, g) := r.value;
              && g == Genre(id, dto.name, dto.description, g.movieIds)
              && (NonEmptyIds(dto.movieIds) ==> g.movieIds == Elems(dto.movieIds.value))
              && (!NonEmptyIds(dto.movieIds) ==> g.movieIds == {})
              && s == store.(genres := store.genres[id := g])
    ensures r.Ok? && NamesUnique(store) ==> NamesUnique(r.value.0)
    ensures r.Ok? && KeysMatch(store) ==> KeysMatch(r.value.0)
    ensures r.Ok? && LinksStored(store) ==> LinksStored(r.value.0)
  {
    var movieIds: Result<set<int>> :=
      if NonEmptyIds(dto.movieIds) then
        var movies := FindByIds(store.movies, dto.movieIds.value);
        CountCheck(store.movies, dto.movieIds.value);
        if |movies| != |dto.movieIds.value| then Err(NotFound(MovieKind))
        else ExactKeys(store.movies, dto.movieIds.value); Ok(movies.Keys)
      else Ok({});
    match movieIds
    case Err(e) => Err(e)
    case Ok(ms) =>
      if NameTaken(store, dto.name) then Err(UniqueViolation)
      else
        var g := Genre(id, dto.name, dto.description, ms);
        Ok((store.(genres := store.genres[id := g]), g))
  }

  /** `findOne`. */
  function FindOne(store: Store, id: int): (r: Result<Genre>)
    ensures r.Ok? <==> id in store.genres
    ensures r.Ok? ==> r.value == store.genres[id]
    ensures r.Err? ==> r.error == NotFound(GenreKind)
  {
    Lookup(store.genres, id, GenreKind)
  }

  /** `update`, as far as the genre object in memory: a given `movieIds`
      list replaces the movies by those that exist, without a count check,
      and `name` and `description` overwrite when given.  What the source
      then saves is the request body without `movieIds`, not this genre, so
      no store is returned. */
  function Update(store: Store, id: int, dto: UpdateGenreDto): (r: Result<Genre>)
    ensures r.Err? <==> id !in store.genres
    ensures r.Err? ==> r.error == NotFound(GenreKind)
    ensures r.Ok? ==>
              var before := store.genres[id];
              && r.value.id == before.id
              && r.value.name == dto.name.GetOr(before.name)
              && r.value.description == (if dto.description.Some? then dto.description else before.description)
              && (dto.movieIds.Some? ==> r.value.movieIds == set k | k in dto.movieIds.value && k in store.movies)
              && (dto.movieIds.None? ==> r.value.movieIds == before.movieIds)
  {
    match FindOne(store, id)
    case Err(e) => Err(e)
    case Ok(g) =>
      var movieIds := if dto.movieIds.Some? then FindByIds(store.movies, dto.movieIds.value).Keys else g.movieIds;
      Ok(g.(movieIds := movieIds,
            name := dto.name.GetOr(g.name),
            description := if dto.description.Some? then dto.description else g.description))
  }

  /** Every movie with genre `id` detached from it. */
  function WithoutGenre(movies: map<int, Movie>, id: int): map<int, Movie> {
    map k | k in movies :: movies[k].(genreIds := movies[k].genreIds - {id})
  }

  /** `remove`: the genre row goes, and the cascade on the movie's join
      table detaches it from every movie. */
  function Remove(store: Store, id: int): (r: Result<Store>)
    ensures r.Err? <==> id !in store.genres
    ensures r.Err? ==> r.error == NotFound(GenreKind)
    ensures r.Ok? ==> r.value.genres == store.genres - {id}
    ensures r.Ok? ==> r.value.actors == store.actors && r.value.reviews == store.reviews && r.value.users == store.users
    ensures r.Ok? ==> r.value.movies.Keys == store.movies.Keys
    ensures r.Ok? ==> forall k :: k in r.value.movies ==>
              r.value.movies[k] == store.movies[k].(genreIds := store.movies[k].genreIds - {id})
    ensures r.Ok? ==> forall k :: k in r.value.movies ==> id !in r.value.movies[k].genreIds
    ensures r.Ok? && KeysMatch(store) ==> KeysMatch(r.value)
    ensures r.Ok? && ReviewsReferToMovies(store) ==> ReviewsReferToMovies(r.value)
    ensures r.Ok? && LinksStored(store) ==> LinksStored(r.value)
  {
    match FindOne(store, id)
    case Err(e) => Err(e)
    case Ok(_) => Ok(store.(genres := store.genres - {id}, movies := WithoutGenre(store.movies, id)))
  }

  /** `findGenresByIds`. */
  function FindGenresByIds(store: Store, ids: seq<int>): (r: map<int, Genre>)
    ensures forall k :: k in r <==> k in ids && k in store.genres
    ensures forall k :: k in r ==> r[k] == store.genres[k]
    ensures |ids| == 0 ==> r == map[]
  {
    FindByIds(store.genres, ids)
  }

  /** An update that sends an empty `movieIds` list detaches every movie,
      while one that omits the list keeps them. */
  lemma EmptyListClearsMovies(store: Store, id: int, name: Option<string>)
    requires id in store.genres
    ensures Update(store, id, UpdateGenreDto(name, None, Some([]))).value.movieIds == {}
    ensures Update(store, id, UpdateGenreDto(name, None, None)).value.movieIds == store.genres[id].movieIds
  {
  }

  /** A created genre can be read back, and removing it restores the genre
      table; with the join tables' foreign keys in place no movie named the
      new key, so the whole store is restored. */
  lemma CreateThenFindAndRemove(store: Store, dto: CreateGenreDto, id: int)
    requires id !in store.genres
    requires Create(store, dto, id).Ok?
    ensures var (s, g) := Create(store, dto, id).value;
            FindOne(s, id) == Ok(g) && Remove(s, id).Ok? && Remove(s, id).value.genres == store.genres
    ensures LinksStored(store) ==> Remove(Create(store, dto, id).value.0, id) == Ok(store)
  {
    var (s, g) := Create(store, dto, id).value;
    assert s.genres - {id} == store.genres;
    if LinksStored(store) {
      DetachFreshGenre(store, id);
    }
  }

  /** Detaching a key no movie is linked to changes no movie. */
  lemma DetachFreshGenre(store: Store, id: int)
    requires LinksStored(store) && id !in store.genres
    ensures WithoutGenre(store.movies, id) == store.movies
  {
    var detached := WithoutGenre(store.movies, id);
    forall k | k in store.movies
      ensures detached[k] == store.movies[k]
    {
      assert id !in store.movies[k].genreIds;
      assert store.movies[k].genreIds - {id} == store.movies[k].genreIds;
    }
    assert detached.Keys == store.movies.Keys;
  }

  /** A second genre with a name already stored is refused. */
  lemma DuplicateNameRefused(store: Store, dto: CreateGenreDto, dto2: CreateGenreDto, id: int, id2: int)
    requires id !in store.genres && Create(store, dto, id).Ok?
    requires dto2.name == dto.name && id2 !in Create(store, dto, id).value.0.genres
    ensures Create(Create(store, dto, id).value.0, dto2, id2).Err?
  {
    var s := Create(store, dto, id).value.0;
    assert s.genres[id].name == dto2.name;
  }
}
