/** The five persisted entities of the catalog and the store holding one
    table per entity.  Each table maps a primary key to its row; `KeysMatch`
    states that the key of a row equals the row's `id`, and every write of
    this model keeps it; `ReviewsReferToMovies` states the review's foreign
    key, and every write of movies or reviews keeps it; `LinksStored` states
    the join tables' foreign keys, and every write of this model that
    returns a store keeps it.
    Association arrays (`Movie.actors`, `Actor.movies`, ...) are kept as the
    sets of primary keys of the associated rows. */
module Entities {
  import opened Common

  /** A calendar date; dates are carried along and compared for equality, never computed with. */
  type Date = int

  /** `UserRole.ADMIN` ('admin') and `UserRole.USER` ('user'). */
  datatype UserRole = Admin | Member

  datatype Movie = Movie(
    id: int,
    title: string,
    description: string,
    releaseDate: Date,
    poster: Option<string>,
    trailerLink: Option<string>,
    actorIds: set<int>,
    genreIds: set<int>)

  datatype Actor = Actor(id: int, name: string, dateOfBirth: Date, movieIds: set<int>)

  datatype Genre = Genre(id: int, name: string, description: Option<string>, movieIds: set<int>)

  /** A review with its star rating, optional comment, the movie it is about
      and the id of the user who wrote it. */
  datatype Review = Review(id: int, rating: int, comment: Option<string>, movieId: int, authorId: int)

  /** `password` is always the stored hash, never the plaintext. */
  datatype User = User(id: int, name: string, email: string, password: string, role: UserRole, isActive: bool)

  datatype Store = Store(
    movies: map<int, Movie>,
    actors: map<int, Actor>,
    genres: map<int, Genre>,
    reviews: map<int, Review>,
    users: map<int, User>)

  predicate UsersKeyed(users: map<int, User>) {
    forall k :: k in users ==> users[k].id == k
  }

  /** Every row is stored under its own primary key. */
  predicate KeysMatch(store: Store) {
    && (forall k :: k in store.movies ==> store.movies[k].id == k)
    && (forall k :: k in store.actors ==> store.actors[k].id == k)
    && (forall k :: k in store.genres ==> store.genres[k].id == k)
    && (forall k :: k in store.reviews ==> store.reviews[k].id == k)
    && UsersKeyed(store.users)
  }

  /** Every review is about a stored movie: the review's foreign key, which
      the database enforces. */
  predicate ReviewsReferToMovies(store: Store) {
    forall k :: k in store.reviews ==> store.reviews[k].movieId in store.movies
  }

  /** Every actor and genre a movie is linked to is stored: the foreign keys
      of the movie's join tables, which cascade when an actor or a genre is
      deleted. */
  predicate LinksStored(store: Store) {
    forall k :: k in store.movies ==>
      store.movies[k].actorIds <= store.actors.Keys && store.movies[k].genreIds <= store.genres.Keys
  }

  /** Every stored rating lies in 1..5, as the review validator admits. */
  predicate RatingsValid(store: Store) {
    forall k :: k in store.reviews ==> 1 <= store.reviews[k].rating <= 5
  }
}
