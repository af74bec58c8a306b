/** `MoviesService`: creating, reading, listing, updating and removing
    movies, and resolving movie ids for the actor and genre services.
    Each operation takes the store and returns either an error or its
    result together with the store after the write; an error leaves the
    store as it was, since no write is issued before the checks pass. */
module Movies {
  import opened Common
  import opened Entities
  import opened Seqs
  import opened Resolver
  import opened Rating
  import opened Pagination
  import opened FilterDto
  import Listing
  import Actors
  import Genres

  /** The body of a create request.  `trailer` is the DTO's field name; the
      entity's column is called `trailerLink`, so the value never reaches it. */
  datatype CreateMovieDto = CreateMovieDto(
    title: string,
    description: string,
    releaseDate: Date,
    poster: Option<string>,
    trailer: Option<string>,
    actorIds: seq<int>,
    genreIds: seq<int>)

  /** Every field of the create body, each optional. */
  datatype UpdateMovieDto = UpdateMovieDto(
    title: Option<string>,
    description: Option<string>,
    releaseDate: Option<Date>,
    poster: Option<string>,
    trailer: Option<string>,
    actorIds: Option<seq<int>>,
    genreIds: Option<seq<int>>)

  function AboutMovie(id: int): Review -> bool {
    (review: Review) => review.movieId == id
  }

  /** The key test matching `AboutMovie` on the review stored under it. */
  function ReviewKeyTest(store: Store, id: int): int -> bool {
    k => k in store.reviews && store.reviews[k].movieId == id
  }

  /** The `reviews` relation of movie `id`: every stored review of that
      movie and nothing else, one entry per stored review. */
  function ReviewsOf(store: Store, id: int): (r: seq<Review>)
    ensures forall i :: 0 <= i < |r| ==> r[i] in store.reviews.Values && r[i].movieId == id
    ensures forall k :: k in store.reviews && store.reviews[k].movieId == id ==> store.reviews[k] in r
    ensures |r| == |set k | k in store.reviews && store.reviews[k].movieId == id|
  {
    var all := Rows(store.reviews);
    var r := Filter(all, AboutMovie(id));
    ReviewsOfComplete(store, id, all, r);
    ReviewsOfCount(store, id, all, r);
    r
  }

  lemma ReviewsOfComplete(store: Store, id: int, all: seq<Review>, r: seq<Review>)
    requires forall k :: k in store.reviews ==> store.reviews[k] in all
    requires r == Filter(all, AboutMovie(id))
    ensures forall k :: k in store.reviews && store.reviews[k].movieId == id ==> store.reviews[k] in r
  {
    forall k | k in store.reviews && store.reviews[k].movieId == id
      ensures store.reviews[k] in r
    {
      var i :| 0 <= i < |all| && all[i] == store.reviews[k];
      assert AboutMovie(id)(all[i]);
    }
  }

  lemma SameKeys(ks: seq<int>, keys: set<int>, q: int -> bool)
    requires forall k :: k in ks <==> k in keys
    ensures (set k | k in ks && q(k)) == (set k | k in keys && q(k))
  {
    var a := set k | k in ks && q(k);
    var b := set k | k in keys && q(k);
    assert forall k :: k in a <==> k in b;
  }

  lemma ReviewsOfCount(store: Store, id: int, all: seq<Review>, r: seq<Review>)
    requires all == Rows(store.reviews) && r == Filter(all, AboutMovie(id))
    ensures |r| == |set k | k in store.reviews && store.reviews[k].movieId == id|
  {
    var ks := SortedKeys(store.reviews.Keys);
    var q := ReviewKeyTest(store, id);
    assert |all| == |ks|;
    forall i | 0 <= i < |ks|
      ensures q(ks[i]) == AboutMovie(id)(all[i])
    {
      assert all[i] == store.reviews[ks[i]];
    }
    FilterCount(ks, all, AboutMovie(id), q);
    SameKeys(ks, store.reviews.Keys, q);
    ReviewKeys(store, id);
  }

  lemma ReviewKeys(store: Store, id: int)
    ensures (set k | k in store.reviews.Keys && ReviewKeyTest(store, id)(k)) ==
            (set k | k in store.reviews && store.reviews[k].movieId == id)
  {
  }

  /** The keys of the movie table, in the order the rows are loaded. */
  function MovieKeys(store: Store): (ks: seq<int>)
    ensures |ks| == |store.movies|
    ensures forall i :: 0 <= i < |ks| ==> ks[i] in store.movies
    ensures forall k :: k in store.movies ==> k in ks
    ensures Distinct(ks)
  {
    assert |store.movies.Keys| == |store.movies|;
    SortedKeys(store.movies.Keys)
  }

  /** A stored movie with its reviews loaded. */
  function Load(store: Store, k: int): Listing.LoadedMovie
    requires k in store.movies
  {
    Listing.LoadedMovie(store.movies[k], ReviewsOf(store, k))
  }

  /** Every movie row with its relations, as `movieRepository.find` returns
      them: each stored movie once, in key order, with its own reviews. */
  function LoadAll(store: Store): (rows: seq<Listing.LoadedMovie>)
    ensures |rows| == |store.movies|
    ensures forall i :: 0 <= i < |rows| ==> rows[i] == Load(store, MovieKeys(store)[i])
    ensures forall k :: k in store.movies ==> Load(store, k) in rows
    ensures forall row :: row in rows ==> row.movie in store.movies.Values
  {
    var ks := MovieKeys(store);
    var rows := seq(|ks|, i requires 0 <= i < |ks| => Load(store, ks[i]));
    LoadedFromStore(store, ks, rows);
    rows
  }

  lemma LoadedFromStore(store: Store, ks: seq<int>, rows: seq<Listing.LoadedMovie>)
    requires forall i :: 0 <= i < |ks| ==> ks[i] in store.movies
    requires forall k :: k in store.movies ==> k in ks
    requires |rows| == |ks| && forall i :: 0 <= i < |ks| ==> rows[i] == Load(store, ks[i])
    ensures forall k :: k in store.movies ==> Load(store, k) in rows
    ensures forall row :: row in rows ==> row.movie in store.movies.Values
  {
    forall row | row in rows
      ensures row.movie in store.movies.Values
    {
      var i :| 0 <= i < |rows| && rows[i] == row;
      assert store.movies[ks[i]] == row.movie;
    }
    forall k | k in store.movies
      ensures Load(store, k) in rows
    {
      var i :| 0 <= i < |ks| && ks[i] == k;
      assert rows[i] == Load(store, k);
    }
  }

  /** The key test matching the listing's selection of the row stored under it. */
  function SelectedKeyTest(store: Store, f: FilterMovieDto): int -> bool {
    k => k in store.movies && Listing.Selected(f, Load(store, k))
  }

  /** `findAll`: the listing over every stored movie.  The total counts the
      stored movies passing every filter; with rows stored under their own
      ids, each listed movie is the stored one and carries exactly its own
      reviews and their average. */
  function FindAll(store: Store, f: FilterMovieDto): (r: Paginated<Listing.RatedMovie>)
    requires Valid(f)
    ensures r.meta.total == |set k | k in store.movies && Listing.Selected(f, Load(store, k))|
    ensures r.meta.total <= |store.movies|
    ensures forall i :: 0 <= i < |r.data| ==>
              r.data[i].movie in store.movies.Values &&
              Listing.Selected(f, Listing.LoadedMovie(r.data[i].movie, r.data[i].reviews)) &&
              r.data[i].averageRating == AverageRating(r.data[i].reviews)
    ensures KeysMatch(store) ==>
              forall i :: 0 <= i < |r.data| ==>
                r.data[i].movie.id in store.movies &&
                store.movies[r.data[i].movie.id] == r.data[i].movie &&
                r.data[i].reviews == ReviewsOf(store, r.data[i].movie.id)
    ensures r == Pagination.Paginate(Seqs.Map(Listing.Selection(LoadAll(store), f), Listing.Rate), EffectivePage(f), EffectiveLimit(f))
    ensures |r.data| <= r.meta.limit
    ensures r.meta.hasNextPage <==> r.meta.page * r.meta.limit < r.meta.total
    ensures r.meta.hasPrevPage <==> r.meta.page > 1
  {
    var rows := LoadAll(store);
    var r := Listing.FindAll(rows, f);
    ListingTotal(store, f, rows);
    ListedRows(store, f, rows, r);
    r
  }

  lemma ListingTotal(store: Store, f: FilterMovieDto, rows: seq<Listing.LoadedMovie>)
    requires rows == LoadAll(store)
    ensures |Listing.Selection(rows, f)| == |set k | k in store.movies && Listing.Selected(f, Load(store, k))|
    ensures |Listing.Selection(rows, f)| <= |store.movies|
  {
    var ks := MovieKeys(store);
    var q := SelectedKeyTest(store, f);
    assert |rows| == |ks|;
    forall i | 0 <= i < |ks|
      ensures q(ks[i]) == Listing.SelectedTest(f)(rows[i])
    {
      assert rows[i] == Load(store, ks[i]);
    }
    FilterCount(ks, rows, Listing.SelectedTest(f), q);
    SameKeys(ks, store.movies.Keys, q);
    SelectedKeys(store, f);
  }

  lemma SelectedKeys(store: Store, f: FilterMovieDto)
    ensures (set k | k in store.movies.Keys && SelectedKeyTest(store, f)(k)) ==
            (set k | k in store.movies && Listing.Selected(f, Load(store, k)))
  {
  }

  lemma ListedRows(store: Store, f: FilterMovieDto, rows: seq<Listing.LoadedMovie>, r: Paginated<Listing.RatedMovie>)
    requires rows == LoadAll(store)
    requires forall i :: 0 <= i < |r.data| ==> Listing.LoadedMovie(r.data[i].movie, r.data[i].reviews) in rows
    ensures forall i :: 0 <= i < |r.data| ==> r.data[i].movie in store.movies.Values
    ensures KeysMatch(store) ==>
              forall i :: 0 <= i < |r.data| ==>
                r.data[i].movie.id in store.movies &&
                store.movies[r.data[i].movie.id] == r.data[i].movie &&
                r.data[i].reviews == ReviewsOf(store, r.data[i].movie.id)
  {
    forall i | 0 <= i < |r.data|
      ensures r.data[i].movie in store.movies.Values
      ensures KeysMatch(store) ==>
                r.data[i].movie.id in store.movies &&
                store.movies[r.data[i].movie.id] == r.data[i].movie &&
                r.data[i].reviews == ReviewsOf(store, r.data[i].movie.id)
    {
      LoadedRow(store, rows, Listing.LoadedMovie(r.data[i].movie, r.data[i].reviews));
    }
  }

  /** A loaded row is a stored movie with that movie's own reviews. */
  lemma LoadedRow(store: Store, rows: seq<Listing.LoadedMovie>, row: Listing.LoadedMovie)
    requires rows == LoadAll(store) && row in rows
    ensures row.movie in store.movies.Values
    ensures KeysMatch(store) ==>
              row.movie.id in store.movies &&
              store.movies[row.movie.id] == row.movie &&
              row.reviews == ReviewsOf(store, row.movie.id)
  {
    var j :| 0 <= j < |rows| && rows[j] == row;
    assert row == Load(store, MovieKeys(store)[j]);
  }

  /** A listing in which no stored movie passes the filters is empty. */
  lemma NothingSelected(store: Store, f: FilterMovieDto)
    requires Valid(f) && forall k :: k in store.movies ==> !Listing.Selected(f, Load(store, k))
    ensures FindAll(store, f).meta.total == 0 && FindAll(store, f).data == []
  {
    var r := FindAll(store, f);
    assert (set k | k in store.movies && Listing.Selected(f, Load(store, k))) == {};
    assert |r.data| <= r.meta.total;
  }

  /** Once an actor is removed, the cascade has detached it from every
      movie, so filtering the listing by that actor lists nothing. */
  lemma RemovedActorListsNothing(store: Store, id: int, f: FilterMovieDto)
    requires id in store.actors && Valid(f) && f.actorId == Some(id) && id != 0
    ensures FindAll(Actors.Remove(store, id).value, f).meta.total == 0
    ensures FindAll(Actors.Remove(store, id).value, f).data == []
  {
    var s := Actors.Remove(store, id).value;
    forall k | k in s.movies
      ensures !Listing.Selected(f, Load(s, k))
    {
      assert id !in s.movies[k].actorIds;
    }
    NothingSelected(s, f);
  }

  /** Once a genre is removed, filtering the listing by that genre lists
      nothing. */
  lemma RemovedGenreListsNothing(store: Store, id: int, f: FilterMovieDto)
    requires id in store.genres && Valid(f) && f.genreId == Some(id) && id != 0
    ensures FindAll(Genres.Remove(store, id).value, f).meta.total == 0
    ensures FindAll(Genres.Remove(store, id).value, f).data == []
  {
    var s := Genres.Remove(store, id).value;
    forall k | k in s.movies
      ensures !Listing.Selected(f, Load(s, k))
    {
      assert id !in s.movies[k].genreIds;
    }
    NothingSelected(s, f);
  }

  /** `findOne`: the movie with its reviews and its average rating. */
  function FindOne(store: Store, id: int): (r: Result<Listing.RatedMovie>)
    ensures r.Err? <==> id !in store.movies
    ensures r.Err? ==> r.error == NotFound(MovieKind)
    ensures r.Ok? ==> r.value.movie == store.movies[id] && r.value.reviews == ReviewsOf(store, id)
    ensures r.Ok? ==> r.value.averageRating == AverageTenths(RatingsOf(r.value.reviews))
    ensures r.Ok? && r.value.reviews == [] ==> r.value.averageRating == 0
    ensures r.Ok? && r.value.reviews != [] && RatingsValid(store) ==> 10 <= r.value.averageRating <= 50
  {
    match Lookup(store.movies, id, MovieKind)
    case Err(e) => Err(e)
    case Ok(m) =>
      var reviews := ReviewsOf(store, id);
      var ratings := RatingsOf(reviews);
      if reviews != [] && RatingsValid(store) then
        assert forall i :: 0 <= i < |ratings| ==> 1 <= ratings[i] <= 5 by {
          forall i | 0 <= i < |ratings|
            ensures 1 <= ratings[i] <= 5
          {
            assert reviews[i] in store.reviews.Values;
          }
        }
        AverageWithinBounds(ratings, 1, 5);
        Ok(Listing.Rate(Listing.LoadedMovie(m, reviews)))
      else
        Ok(Listing.Rate(Listing.LoadedMovie(m, reviews)))
  }

  /** `findMoviesByIds`. */
  function FindMoviesByIds(store: Store, ids: seq<int>): (r: map<int, Movie>)
    ensures forall k :: k in r <==> k in ids && k in store.movies
    ensures forall k :: k in r ==> r[k] == store.movies[k]
    ensures |ids| == 0 ==> r == map[]
  {
    FindByIds(store.movies, ids)
  }

  /** `create`.  Actors are resolved and checked before genres, so a request
      with unknown ids of both kinds reports the actors.  `id` is the key
      the database assigns to the new row. */
  function Create(store: Store, dto: CreateMovieDto, id: int): (r: Result<(Store, Movie)>)
    requires id !in store.movies
    ensures r.Err? <==> !ResolvesExactly(store.actors, dto.actorIds) || !ResolvesExactly(store.genres, dto.genreIds)
    ensures !ResolvesExactly(store.actors, dto.actorIds) ==> r == Err(NotFound(ActorKind))
    ensures ResolvesExactly(store.actors, dto.actorIds) && !ResolvesExactly(store.genres, dto.genreIds) ==>
              r == Err(NotFound(GenreKind))
    ensures r.Ok? ==>
              var (s, m) := r.value;
              && m.id == id
              && m.title == dto.title && m.description == dto.description
              && m.releaseDate == dto.releaseDate && m.poster == dto.poster && m.trailerLink == None
              && m.actorIds == Elems(dto.actorIds) && m.genreIds == Elems(dto.genreIds)
              && s == store.(movies := store.movies[id := m])
    ensures r.Ok? && KeysMatch(store) ==> KeysMatch(r.value.0)
    ensures r.Ok? && LinksStored(store) ==> LinksStored(r.value.0)
    ensures r.Ok? && ReviewsReferToMovies(store) ==> ReviewsReferToMovies(r.value.0)
  {
    var actors := FindByIds(store.actors, dto.actorIds);
    CountCheck(store.actors, dto.actorIds);
    if |actors| != |dto.actorIds| then Err(NotFound(ActorKind))
    else
      var genres := FindByIds(store.genres, dto.genreIds);
      CountCheck(store.genres, dto.genreIds);
      if |genres| != |dto.genreIds| then Err(NotFound(GenreKind))
      else
        ExactKeys(store.actors, dto.actorIds);
        ExactKeys(store.genres, dto.genreIds);
        var m := Movie(id, dto.title, dto.description, dto.releaseDate, dto.poster, None, actors.Keys, genres.Keys);
        Ok((store.(movies := store.movies[id := m]), m))
  }

  /** The movie after `update` has assigned the request's fields: a given id
      list replaces the whole association by the rows that exist, silently
      dropping unknown ids; a given scalar field overwrites; anything absent
      stays.  The `trailer` field has no column and changes nothing. */
  function ApplyUpdate(store: Store, m: Movie, dto: UpdateMovieDto): (u: Movie)
    ensures u.id == m.id && u.trailerLink == m.trailerLink
    ensures dto.actorIds.Some? ==> u.actorIds == set k | k in dto.actorIds.value && k in store.actors
    ensures dto.actorIds.None? ==> u.actorIds == m.actorIds
    ensures dto.genreIds.Some? ==> u.genreIds == set k | k in dto.genreIds.value && k in store.genres
    ensures dto.genreIds.None? ==> u.genreIds == m.genreIds
    ensures u.title == dto.title.GetOr(m.title) && u.description == dto.description.GetOr(m.description)
    ensures u.releaseDate == dto.releaseDate.GetOr(m.releaseDate)
    ensures u.poster == (if dto.poster.Some? then dto.poster else m.poster)
  {
    var actorIds := if dto.actorIds.Some? then FindByIds(store.actors, dto.actorIds.value).Keys else m.actorIds;
    var genreIds := if dto.genreIds.Some? then FindByIds(store.genres, dto.genreIds.value).Keys else m.genreIds;
    m.(actorIds := actorIds, genreIds := genreIds,
       title := dto.title.GetOr(m.title),
       description := dto.description.GetOr(m.description),
       releaseDate := dto.releaseDate.GetOr(m.releaseDate),
       poster := if dto.poster.Some? then dto.poster else m.poster)
  }

  /** `update`: fails only for an unknown movie; never checks the id lists. */
  function Update(store: Store, id: int, dto: UpdateMovieDto): (r: Result<(Store, Movie)>)
    ensures r.Err? <==> id !in store.movies
    ensures r.Err? ==> r.error == NotFound(MovieKind)
    ensures r.Ok? ==>
              var (s, m) := r.value;
              m == ApplyUpdate(store, store.movies[id], dto) && s == store.(movies := store.movies[id := m])
    ensures r.Ok? && KeysMatch(store) ==> KeysMatch(r.value.0)
    ensures r.Ok? && LinksStored(store) ==> LinksStored(r.value.0)
    ensures r.Ok? && ReviewsReferToMovies(store) ==> ReviewsReferToMovies(r.value.0)
  {
    match Lookup(store.movies, id, MovieKind)
    case Err(e) => Err(e)
    case Ok(m) =>
      var u := ApplyUpdate(store, m, dto);
      Ok((store.(movies := store.movies[id := u]), u))
  }

  /** Sending the same update twice has the effect of sending it once. */
  lemma UpdateIdempotent(store: Store, id: int, dto: UpdateMovieDto)
    requires id in store.movies
    ensures var (s, m) := Update(store, id, dto).value;
            Update(s, id, dto) == Ok((s, m))
  {
    var (s, m) := Update(store, id, dto).value;
    assert s.actors == store.actors && s.genres == store.genres;
    assert ApplyUpdate(s, m, dto) == m;
    assert s.(movies := s.movies[id := m]) == s;
  }

  /** An update naming no field leaves the movie and the store unchanged. */
  lemma EmptyUpdateChangesNothing(store: Store, id: int)
    requires id in store.movies
    ensures Update(store, id, UpdateMovieDto(None, None, None, None, None, None, None)) ==
            Ok((store, store.movies[id]))
  {
    assert store.(movies := store.movies[id := store.movies[id]]) == store;
  }

  /** The review table after the cascade of deleting movie `id`. */
  function ReviewsWithout(reviews: map<int, Review>, id: int): map<int, Review> {
    map k | k in reviews && reviews[k].movieId != id :: reviews[k]
  }

  /** `remove`: the movie row goes, and the database's `ON DELETE CASCADE`
      on the review's movie takes the movie's reviews with it. */
  function Remove(store: Store, id: int): (r: Result<Store>)
    ensures r.Err? <==> id !in store.movies
    ensures r.Err? ==> r.error == NotFound(MovieKind)
    ensures r.Ok? ==> r.value.movies == store.movies - {id}
    ensures r.Ok? ==> r.value.actors == store.actors && r.value.genres == store.genres && r.value.users == store.users
    ensures r.Ok? ==> forall k :: k in r.value.reviews <==> k in store.reviews && store.reviews[k].movieId != id
    ensures r.Ok? ==> forall k :: k in r.value.reviews ==> r.value.reviews[k] == store.reviews[k]
    ensures r.Ok? && KeysMatch(store) ==> KeysMatch(r.value)
    ensures r.Ok? && LinksStored(store) ==> LinksStored(r.value)
    ensures r.Ok? && ReviewsReferToMovies(store) ==> ReviewsReferToMovies(r.value)
  {
    match Lookup(store.movies, id, MovieKind)
    case Err(e) => Err(e)
    case Ok(_) => Ok(store.(movies := store.movies - {id}, reviews := ReviewsWithout(store.reviews, id)))
  }

  /** A movie's reviews do not outlive it: after removal no review is about it. */
  lemma RemoveTakesReviews(store: Store, id: int)
    requires id in store.movies
    ensures Remove(store, id).Ok? && ReviewsOf(Remove(store, id).value, id) == []
  {
    NoReviewsAbout(Remove(store, id).value, id);
  }

  /** A movie no review is about has no reviews loaded. */
  lemma NoReviewsAbout(store: Store, id: int)
    requires forall k :: k in store.reviews ==> store.reviews[k].movieId != id
    ensures ReviewsOf(store, id) == []
  {
  }

  /** A created movie is found by id with the stored fields, and removing
      it again restores the store. */
  lemma CreateThenFindAndRemove(store: Store, dto: CreateMovieDto, id: int)
    requires id !in store.movies
    requires Create(store, dto, id).Ok?
    ensures var (s, m) := Create(store, dto, id).value;
            FindOne(s, id).Ok? && FindOne(s, id).value.movie == m && Remove(s, id).Ok?
  {
  }

  /** Removing a created movie restores the store: its key held no movie
      before, so with the reviews' foreign key in place the cascade deletes
      nothing else. */
  lemma CreateThenRemoveRestores(store: Store, dto: CreateMovieDto, id: int)
    requires id !in store.movies
    requires Create(store, dto, id).Ok?
    ensures ReviewsReferToMovies(store) ==> Remove(Create(store, dto, id).value.0, id) == Ok(store)
  {
    var s := Create(store, dto, id).value.0;
    assert s.movies - {id} == store.movies;
    if ReviewsReferToMovies(store) {
      CascadeOfFreshKey(store, id);
    }
  }

  lemma CascadeOfFreshKey(store: Store, id: int)
    requires ReviewsReferToMovies(store) && id !in store.movies
    ensures ReviewsWithout(store.reviews, id) == store.reviews
  {
    var kept := ReviewsWithout(store.reviews, id);
    forall k | k in store.reviews
      ensures k in kept
    {
      assert store.reviews[k].movieId in store.movies;
    }
    assert kept.Keys == store.reviews.Keys;
  }

  /** A created movie starts without reviews: with the reviews' foreign key
      in place, none can be about a key that held no movie. */
  lemma CreatedMovieHasNoReviews(store: Store, dto: CreateMovieDto, id: int)
    requires id !in store.movies
    requires Create(store, dto, id).Ok?
    ensures ReviewsReferToMovies(store) ==>
              var s := Create(store, dto, id).value.0;
              FindOne(s, id).Ok? && FindOne(s, id).value.reviews == [] && FindOne(s, id).value.averageRating == 0
  {
    if ReviewsReferToMovies(store) {
      NoReviewsAbout(Create(store, dto, id).value.0, id);
    }
  }
}
