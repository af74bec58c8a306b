/** `ActorsService`: actors and the movies they appear in. */
module Actors {
  import opened Common
  import opened Entities
  import opened Seqs
  import opened Resolver

  datatype CreateActorDto = CreateActorDto(name: string, dateOfBirth: Date, movieIds: Option<seq<int>>)

  datatype UpdateActorDto = UpdateActorDto(name: Option<string>, dateOfBirth: Option<Date>, movieIds: Option<seq<int>>)

  /** `create`: an actor with a non-empty `movieIds` list must name only
      existing movies, each once; without a list, or with an empty one, the
      actor is stored with no movies.  `id` is the key the database assigns. */
  function Create(store: Store, dto: CreateActorDto, id: int): (r: Result<(Store, Actor)>)
    requires id !in store.actors
    ensures r.Err? <==> NonEmptyIds(dto.movieIds) && !ResolvesExactly(store.movies, dto.movieIds.value)
    ensures r.Err? ==> r.error == NotFound(MovieKind)
    ensures r.Ok? ==>
              var (s, a) := r.value;
              && a == Actor(id, dto.name, dto.dateOfBirth, a.movieIds)
              && (NonEmptyIds(dto.movieIds) ==> a.movieIds == Elems(dto.movieIds.value))
              && (!NonEmptyIds(dto.movieIds) ==> a.movieIds == {})
              && s == store.(actors := store.actors[id := a])
    ensures r.Ok? && KeysMatch(store) ==> KeysMatch(r.value.0)
    ensures r.Ok? && LinksStored(store) ==> LinksStored(r.value.0)
  {
    var movieIds: Result<set<int>> :=
      if NonEmptyIds(dto.movieIds) then
        var movies := FindByIds(store.movies, dto.movieIds.value);
        CountCheck(store.movies, dto.movieIds.value);
        if |movies| != |dto.movieIds.value| then Err(NotFound(MovieKind))
        else ExactKeys(store.movies, dto.movieIds.value); Ok(movies.Keys)
      else Ok({});
    match movieIds
    case Err(e) => Err(e)
    case Ok(ms) =>
      var a := Actor(id, dto.name, dto.dateOfBirth, ms);
      Ok((store.(actors := store.actors[id := a]), a))
  }

  /** `findOne`. */
  function FindOne(store: Store, id: int): (r: Result<Actor>)
    ensures r.Ok? <==> id in store.actors
    ensures r.Ok? ==> r.value == store.actors[id]
    ensures r.Err? ==> r.error == NotFound(ActorKind)
  {
    Lookup(store.actors, id, ActorKind)
  }

  /** `update`: a given `movieIds` list (even an empty one) replaces the
      actor's movies by those that exist, without a count check; `name` and
      `dateOfBirth` overwrite when given; the list itself is not copied onto
      the actor. */
  function Update(store: Store, id: int, dto: UpdateActorDto): (r: Result<(Store, Actor)>)
    ensures r.Err? <==> id !in store.actors
    ensures r.Err? ==> r.error == NotFound(ActorKind)
    ensures r.Ok? ==>
              var (s, a) := r.value;
              var before := store.actors[id];
              && a.id == before.id
              && a.name == dto.name.GetOr(before.name)
              && a.dateOfBirth == dto.dateOfBirth.GetOr(before.dateOfBirth)
              && (dto.movieIds.Some? ==> a.movieIds == set k | k in dto.movieIds.value && k in store.movies)
              && (dto.movieIds.None? ==> a.movieIds == before.movieIds)
              && s == store.(actors := store.actors[id := a])
    ensures r.Ok? && KeysMatch(store) ==> KeysMatch(r.value.0)
    ensures r.Ok? && LinksStored(store) ==> LinksStored(r.value.0)
  {
    match FindOne(store, id)
    case Err(e) => Err(e)
    case Ok(a) =>
      var movieIds := if dto.movieIds.Some? then FindByIds(store.movies, dto.movieIds.value).Keys else a.movieIds;
      var u := a.(movieIds := movieIds, name := dto.name.GetOr(a.name), dateOfBirth := dto.dateOfBirth.GetOr(a.dateOfBirth));
      Ok((store.(actors := store.actors[id := u]), u))
  }

  /** Every movie with actor `id` detached from it. */
  function WithoutActor(movies: map<int, Movie>, id: int): map<int, Movie> {
    map k | k in movies :: movies[k].(actorIds := movies[k].actorIds - {id})
  }

  /** `remove`: the actor row goes, and the cascade on the movie's join
      table detaches it from every movie. */
  function Remove(store: Store, id: int): (r: Result<Store>)
    ensures r.Err? <==> id !in store.actors
    ensures r.Err? ==> r.error == NotFound(ActorKind)
    ensures r.Ok? ==> r.value.actors == store.actors - {id}
    ensures r.Ok? ==> r.value.genres == store.genres && r.value.reviews == store.reviews && r.value.users == store.users
    ensures r.Ok? ==> r.value.movies.Keys == store.movies.Keys
    ensures r.Ok? ==> forall k :: k in r.value.movies ==>
              r.value.movies[k] == store.movies[k].(actorIds := store.movies[k].actorIds - {id})
    ensures r.Ok? ==> forall k :: k in r.value.movies ==> id !in r.value.movies[k].actorIds
    ensures r.Ok? && KeysMatch(store) ==> KeysMatch(r.value)
    ensures r.Ok? && ReviewsReferToMovies(store) ==> ReviewsReferToMovies(r.value)
    ensures r.Ok? && LinksStored(store) ==> LinksStored(r.value)
  {
    match FindOne(store, id)
    case Err(e) => Err(e)
    case Ok(_) => Ok(store.(actors := store.actors - {id}, movies := WithoutActor(store.movies, id)))
  }

  /** `findActorsByIds`. */
  function FindActorsByIds(store: Store, ids: seq<int>): (r: map<int, Actor>)
    ensures forall k :: k in r <==> k in ids && k in store.actors
    ensures forall k :: k in r ==> r[k] == store.actors[k]
    ensures |ids| == 0 ==> r == map[]
  {
    FindByIds(store.actors, ids)
  }

  /** A created actor can be read back, and removing it restores the actor
      table; with the join tables' foreign keys in place no movie named the
      new key, so the whole store is restored. */
  lemma CreateThenFindAndRemove(store: Store, dto: CreateActorDto, id: int)
    requires id !in store.actors
    requires Create(store, dto, id).Ok?
    ensures var (s, a) := Create(store, dto, id).value;
            FindOne(s, id) == Ok(a) && Remove(s, id).Ok? && Remove(s, id).value.actors == store.actors
    ensures LinksStored(store) ==> Remove(Create(store, dto, id).value.0, id) == Ok(store)
  {
    var (s, a) := Create(store, dto, id).value;
    assert s.actors - {id} == store.actors;
    if LinksStored(store) {
      DetachFreshActor(store, id);
    }
  }

  /** Detaching a key no movie is linked to changes no movie. */
  lemma DetachFreshActor(store: Store, id: int)
    requires LinksStored(store) && id !in store.actors
    ensures WithoutActor(store.movies, id) == store.movies
  {
    var detached := WithoutActor(store.movies, id);
    forall k | k in store.movies
      ensures detached[k] == store.movies[k]
    {
      assert id !in store.movies[k].actorIds;
      assert store.movies[k].actorIds - {id} == store.movies[k].actorIds;
    }
    assert detached.Keys == store.movies.Keys;
  }

  /** Sending the same update twice has the effect of sending it once. */
  lemma UpdateIdempotent(store: Store, id: int, dto: UpdateActorDto)
    requires id in store.actors
    ensures var (s, a) := Update(store, id, dto).value;
            Update(s, id, dto) == Ok((s, a))
  {
    var (s, a) := Update(store, id, dto).value;
    assert s.movies == store.movies;
    assert s.(actors := s.actors[id := a]) == s;
  }
}
