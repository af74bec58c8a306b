# cineverse-api: a Dafny model of the service core

cineverse-api is a NestJS REST backend for a movie catalogue. It holds
movies, actors, genres, reviews and users. This project models the logic
of its services and proves properties about it.

- **Movie listing** (`MoviesService.findAll`). The title, genre, actor and
  minimum-rating filters run in the source's order. A falsy filter value is
  skipped. The average rating is computed in between, and then one page is
  cut out. The result is proved equal to a reference definition: the page of
  the movies passing all four tests, in their original order.
- **Average rating** (`calculateAverageRating`). It is kept exactly, as an
  integer number of tenths. 4.5 stars is 45.
- **Reference resolution** (`findActorsByIds`, `findGenresByIds`,
  `findMoviesByIds`) and the callers' count check. The check fails exactly
  when some id is unknown or repeated.
- **Movie, actor and genre services.** Create, find, update (whole-set
  replacement of associations) and remove.
- **Reviews.** Create, find, and the patch of `update`. The ownership rule
  lets only the author or an admin update or remove a review.
- **`RolesGuard.canActivate`**. Handler metadata overrides controller
  metadata.
- **Listing query validators and upload rules.** The `FilterMovieDto`
  validators and defaults; the Multer `fileFilter` mimetype rule and the
  `destination` folder.
- **User registration.** A duplicate e-mail is refused, the role is always
  USER, and e-mail uniqueness is preserved.

The database is a `Store`: one `map<int, _>` per table. Every operation is
a pure function of the store and the request. The result shapes are these:
- creates and the movie and actor updates return `Result<(Store, Row)>`;
- removes return `Result<Store>`;
- `FindOne`, the genre update and the review update return `Result<Row>`;
- user registration works on the user table alone (`map<int, User>`);
- the movie listing returns a `Paginated` page.

Errors are `NotFound(kind)`, `Forbidden`, `Conflict` and
`UniqueViolation`. The last is the database refusing a duplicate genre
name, which the service does not translate. An error never comes with a
new store, because the source issues no write before its checks pass.

`KeysMatch` says that every row is stored under its own id. Every write
that returns a store keeps it. `ReviewsReferToMovies` is the review's
foreign key: every review is about a stored movie. Every write of movies
or reviews keeps it. Removing a movie deletes its reviews, as the
database's cascade does. `LinksStored` is the foreign key of the movie's
actor and genre join tables: every actor and genre a movie links to is
stored. Every write that returns a store keeps it. Removing an actor or a
genre detaches it from every movie, as the join tables' cascade does.

Files:
- `common.dfy`: `Option`, `Result`, error kinds.
- `entities.dfy`: the rows.
- `seqs.dfy`: filter, map, substring and key-order utilities.
- `resolver.dfy`: lookup and id resolution.
- `rating.dfy`, `pagination.dfy`, `filter_dto.dfy`, `listing.dfy`: the
  listing pipeline.
- `movies.dfy`, `actors.dfy`, `genres.dfy`, `reviews.dfy`, `users.dfy`: the
  services.
- `roles_guard.dfy`, `uploads.dfy`: the guard and the upload rules.

Details of the source that the model reproduces as written:
- Movie creation compares the number of rows found with the LENGTH of the
  requested id list, not with the number of distinct ids. A repeated id
  therefore fails with NotFound (`Resolver.CountCheck`).
- The create body's `trailer` field has no matching column: the entity's
  column is `trailerLink`. A created movie's `trailerLink` is therefore
  always absent, and an update never changes it.
- Review update saves the request body rather than the patched review.
  Genre update saves the request body without `movieIds` rather than the
  genre. For these two operations the model returns the patched row and
  claims nothing about what is stored.

## Model

| member | source | states |
|---|---|---|
| Rating.AverageTenths | src/movies/movies.service.ts:35-41 | 0 without reviews; otherwise the unique t with (2t-1)n <= 20*sum < (2t+1)n, i.e. the mean rounded to the nearest tenth with halves rounded up, as `Math.round(mean*10)/10` |
| Rating.AverageIsNearestTenth | src/movies/movies.service.ts:39-40 | a number of tenths is the average exactly when it satisfies the rounding condition (both directions), so the average is unique |
| Rating.AverageWithinBounds | src/movies/movies.service.ts:35-41 | ratings all in [lo, hi] average to within [10*lo, 10*hi] tenths |
| Rating.AverageExamples | src/movies/movies.service.ts:35-41 | ratings 5,4,3 average 4.0, ratings 5,4 average 4.5, no reviews give 0 |
| Pagination.CeilDiv | src/movies/movies.service.ts:110 | `Math.ceil(total / limit)`: the fewest pages of `limit` items that hold `total` items |
| Pagination.Window | src/movies/movies.service.ts:111-112 | `slice(skip, skip + limit)`: min(limit, n - skip) items (none when skip >= n), the i-th being item skip+i |
| Pagination.WindowExtends | src/movies/movies.service.ts:111-112 | the prefix up to `skip` followed by the window is the prefix up to `skip + limit` |
| Pagination.Paginate | src/movies/movies.service.ts:109-124 | total, page and limit echoed; totalPages is the ceiling; the data is the window at (page-1)*limit; hasNextPage iff page*limit < total; hasPrevPage iff items precede the page |
| Pagination.PageNonEmpty | src/movies/movies.service.ts:110-112 | a page holds items exactly when its number is at most totalPages |
| Pagination.PagesUpToPrefix | src/movies/movies.service.ts:111-112 | pages 1..k laid end to end are the first min(k*limit, n) items |
| Pagination.PagesCoverAll | src/movies/movies.service.ts:109-112 | pages 1..totalPages concatenate to the whole list: every item is on exactly one page, in order |
| Pagination.PaginationExample | src/movies/movies.service.ts:109-124 | 25 items, limit 10, page 3: items 20..24, 3 pages, no next page, a previous one |
| FilterDto.EffectivePage | src/movies/dto/filter-movie.dto.ts:50-55 | the requested page is the one served, 1 when none is requested; a valid page is at least 1 |
| FilterDto.EffectiveLimit | src/movies/dto/filter-movie.dto.ts:64-69 | the requested limit is the one used, 10 when none is requested; a valid limit is in 1..100 |
| FilterDto.EmptyFilterDefaults | src/movies/dto/filter-movie.dto.ts:38-69 | a request without parameters is valid and asks for page 1 with 10 movies |
| Listing.ByTitle | src/movies/movies.service.ts:77-84 | the title step is the filter by the title test, also when the title is falsy and the step is skipped |
| Listing.ByGenre | src/movies/movies.service.ts:86-90 | the genre step is the filter by the genre test, also when it is skipped |
| Listing.ByActor | src/movies/movies.service.ts:92-96 | the actor step is the filter by the actor test, also when it is skipped |
| Listing.ByMinRating | src/movies/movies.service.ts:103-107 | a rated movie is kept iff it is in the input and its average is at least minRating (or minRating is falsy) |
| Listing.MovieFilters | src/movies/movies.service.ts:86-96 | the three successive movie filters equal one filter by the conjunction of their tests |
| Listing.RatingFilter | src/movies/movies.service.ts:98-107 | rating and then filtering by rating equals filtering by each row's rating and then rating |
| Listing.MatchingIsSelection | src/movies/movies.service.ts:77-107 | the source's step-by-step pipeline equals the reference selection (rows passing all four tests, original order), each with its average |
| Listing.FindAll | src/movies/movies.service.ts:65-125 | the page of the reference selection; total is the number selected; every listed movie comes from the rows, passes every filter and carries its own average; next/previous flags as in Paginate |
| Listing.NoFilterListsEverything | src/movies/movies.service.ts:66-107 | with no filter set every loaded movie is selected |
| Resolver.Lookup | src/movies/movies.service.ts:127-135 | Ok exactly when the id exists, with that row; otherwise NotFound of the given kind |
| Resolver.Rows | src/movies/movies.service.ts:81-84 | every row of the table appears, nothing else, one entry per key; the i-th entry is the row of the i-th key in ascending order |
| Resolver.FindByIds | src/actors/actors.service.ts:79-88 | exactly the existing rows whose key is requested; nothing for an empty list |
| Resolver.CountCheck | src/movies/movies.service.ts:47-57 | `found.length !== ids.length` exactly when some id is unknown or repeated |
| Resolver.ExactKeys | src/movies/movies.service.ts:59-60 | when the count check passes, the associated keys are exactly the requested ids |
| Movies.ReviewsOf | src/movies/movies.service.ts:128-131 | the loaded `reviews` relation holds every stored review of the movie and only those, one entry per review |
| Movies.LoadAll | src/movies/movies.service.ts:81-84 | one loaded row per stored movie, in key order, each the stored movie with its own reviews; every stored movie is loaded |
| Movies.FindAll | src/movies/movies.service.ts:65-125 | the listing over the store: exactly the requested page (page and limit echoed, defaults 1 and 10) of the stored movies that pass every filter, in key order, each rated; total is the number of stored movies that pass every filter; listed movies are stored, selected and carry their average; with keys matching ids, each listed movie is the row under its id and carries that movie's reviews |
| Movies.ListingTotal | src/movies/movies.service.ts:81-110 | the number of loaded rows selected equals the number of stored movies selected |
| Seqs.FilterCount | src/movies/movies.service.ts:81-107 | filtering rows loaded from distinct keys keeps as many rows as there are keys passing the same test |
| Movies.RemovedActorListsNothing | src/movies/movies.service.ts:92-96 | after an actor is removed, the listing filtered by that actor is empty |
| Movies.RemovedGenreListsNothing | src/movies/movies.service.ts:86-90 | after a genre is removed, the listing filtered by that genre is empty |
| Movies.FindOne | src/movies/movies.service.ts:127-141 | NotFound iff the movie is missing; otherwise the movie, its reviews and their average; 0 without reviews; 1.0..5.0 when ratings are valid |
| Movies.FindMoviesByIds | src/movies/movies.service.ts:180-190 | the stored movies among the requested ids; nothing for an empty list |
| Movies.Create | src/movies/movies.service.ts:43-63 | NotFound(actor) when the actor ids do not resolve exactly, checked before NotFound(genre); otherwise the movie with the body's fields, no trailerLink and exactly the requested associations, added to the store; keys still match ids |
| Movies.ApplyUpdate | src/movies/movies.service.ts:153-163 | a given id list (even empty) replaces the association by the existing ids; given scalars overwrite; absent fields stay; id and trailerLink unchanged |
| Movies.Update | src/movies/movies.service.ts:143-166 | NotFound iff the movie is missing; otherwise the updated movie is stored under its id; keys still match ids and every review still refers to a stored movie |
| Movies.UpdateIdempotent | src/movies/movies.service.ts:143-166 | applying the same update twice equals applying it once |
| Movies.EmptyUpdateChangesNothing | src/movies/movies.service.ts:153-163 | an update without fields leaves the store and the movie as they were |
| Movies.Remove | src/movies/movies.service.ts:168-178 | NotFound iff missing; otherwise exactly that movie is deleted, and with it exactly the reviews about it (`ON DELETE CASCADE`, src/reviews/entities/review.entity.ts:24); other tables unchanged; every remaining review refers to a stored movie |
| Movies.RemoveTakesReviews | src/reviews/entities/review.entity.ts:24 | after removing a movie no review is about it |
| Movies.CreateThenFindAndRemove | src/movies/movies.service.ts:43-178 | a created movie is found by id with its stored fields, and it can be removed |
| Movies.CreateThenRemoveRestores | src/movies/movies.service.ts:43-178 | when every review refers to a stored movie, removing a created movie restores the store exactly |
| Movies.CreatedMovieHasNoReviews | src/movies/movies.service.ts:127-141 | when every review refers to a stored movie, a created movie is found with no reviews and average 0 |
| Actors.Create | src/actors/actors.service.ts:18-37 | with a non-empty movieIds list, NotFound(movie) iff the ids do not resolve exactly; otherwise the actor with the requested movies (none without a list) is stored |
| Actors.FindOne | src/actors/actors.service.ts:45-56 | the stored actor, or NotFound(actor) exactly when missing |
| Actors.Update | src/actors/actors.service.ts:58-72 | NotFound iff missing; a given movieIds list (even empty) replaces the movies by the existing ones, without a count check; name and date of birth overwrite when given |
| Actors.Remove | src/actors/actors.service.ts:74-77 | NotFound iff missing; otherwise exactly that actor is deleted and detached from every movie (the join table's cascade), all else unchanged; the store's invariants are kept |
| Actors.FindActorsByIds | src/actors/actors.service.ts:79-88 | the stored actors among the requested ids; nothing for an empty list |
| Actors.CreateThenFindAndRemove | src/actors/actors.service.ts:18-77 | a created actor is found by id, and removing it restores the actor table; when every movie links only stored actors and genres, it restores the whole store |
| Actors.UpdateIdempotent | src/actors/actors.service.ts:58-72 | applying the same update twice equals applying it once |
| Genres.Create | src/genres/genres.service.ts:19-36 | fails iff a non-empty movieIds list does not resolve exactly (NotFound(movie)) or the name is taken (UniqueViolation, checked second); otherwise the genre with the requested movies is stored; names stay unique and keys still match ids |
| Genres.DuplicateNameRefused | src/genres/entities/genre.entity.ts:9 | a second genre with the same name is refused |
| Genres.FindOne | src/genres/genres.service.ts:44-55 | the stored genre, or NotFound(genre) exactly when missing |
| Genres.Update | src/genres/genres.service.ts:57-72 | NotFound iff missing; a given movieIds list replaces the movies by the existing ones; name and description overwrite when given |
| Genres.Remove | src/genres/genres.service.ts:74-77 | NotFound iff missing; otherwise exactly that genre is deleted and detached from every movie (the join table's cascade), all else unchanged; the store's invariants are kept |
| Genres.FindGenresByIds | src/genres/genres.service.ts:79-88 | the stored genres among the requested ids; nothing for an empty list |
| Genres.EmptyListClearsMovies | src/genres/genres.service.ts:63-65 | an empty movieIds list detaches every movie; an omitted list keeps them |
| Genres.CreateThenFindAndRemove | src/genres/genres.service.ts:19-77 | a created genre is found by id, and removing it restores the genre table; when every movie links only stored actors and genres, it restores the whole store |
| Reviews.Create | src/reviews/reviews.service.ts:23-41 | NotFound(movie) iff the movie is missing; otherwise the review with the body's rating and comment, the movie and the author is stored and found again by id; every review still refers to a stored movie, and a validated body keeps every stored rating in 1..5 |
| Reviews.FindOne | src/reviews/reviews.service.ts:56-67 | the stored review, or NotFound(review) exactly when missing |
| Reviews.ApplyPatch | src/reviews/reviews.service.ts:81-88 | rating and comment overwrite only when truthy; id, movie and author never change |
| Reviews.PatchIdempotent | src/reviews/reviews.service.ts:81-88 | patching twice equals patching once; an empty patch changes nothing |
| Reviews.PatchKeepsRatingValid | src/reviews/reviews.service.ts:83-85 | a valid patch keeps a 1..5 rating within 1..5 |
| Reviews.Update | src/reviews/reviews.service.ts:69-91 | NotFound before Forbidden; Ok iff the review exists and the user is its author or an admin; the result is the patched review |
| Reviews.Remove | src/reviews/reviews.service.ts:93-102 | the same checks; on success exactly that review is deleted and every other row is kept; every remaining review refers to a stored movie |
| Reviews.AdminMayModifyAny | src/reviews/reviews.service.ts:77-79 | an admin may update and delete any existing review |
| Reviews.StrangerIsForbidden | src/reviews/reviews.service.ts:96-99 | a member who is not the author gets Forbidden on update and delete |
| Reviews.AuthorMayRemoveOwnReview | src/reviews/reviews.service.ts:23-102 | the author of a new review may delete it, whatever their role, and that restores the store |
| RolesGuard.RequiredRoles | src/common/guards/roles.guard.ts:11-14 | handler roles when set, otherwise the controller's |
| RolesGuard.HasRole | src/common/guards/roles.guard.ts:23 | true iff a user is present and its role is among the required ones |
| RolesGuard.CanActivate | src/common/guards/roles.guard.ts:10-31 | never false; passes iff no roles are required or the user's role is required; otherwise Forbidden |
| RolesGuard.HandlerRolesOverride | src/common/guards/roles.guard.ts:11-14 | with handler roles set, the controller's roles do not affect the verdict |
| RolesGuard.MissingUserForbidden | src/common/guards/roles.guard.ts:21-29 | a request without a user is forbidden whenever some role is required |
| Uploads.FileFilter | src/movies/movies.module.ts:38-54 | accepted iff a poster is `image/*` and a trailer is `video/*`; other fields pass; rejections carry a message and concern poster or trailer only |
| Uploads.Destination | src/movies/movies.module.ts:22-31 | `posters` exactly for the poster field, `trailers` otherwise |
| Uploads.AcceptedFilesLandInTheirFolder | src/movies/movies.module.ts:22-54 | an accepted poster is an image stored in `posters`; an accepted trailer is a video stored in `trailers` |
| Uploads.MimetypeExamples | src/movies/movies.module.ts:38-54 | image/png is a valid poster but not a trailer; video/mp4 the reverse |
| Users.FindUserByEmail | src/users/users.service.ts:36-38 | a stored user with that e-mail, or none exactly when no user has it |
| Users.Create | src/users/users.service.ts:16-34 | Conflict iff the e-mail is registered; otherwise an active USER with the hashed password is stored |
| Users.CreateKeepsEmailsUnique | src/users/users.service.ts:16-34 | registration preserves e-mail uniqueness; afterwards only the new user has the address and lookup finds it |
| Users.SecondRegistrationConflicts | src/users/users.service.ts:20-24 | registering the same e-mail twice fails the second time with Conflict |

## Left out

- HTTP controllers, DTO parsing and `ValidationPipe` transformation, the JWT auth guard, caching, throttling and the logger middleware. They are framework plumbing around the services.
- Password hashing (bcrypt) and token signing. They are foreign code, so the hash is a function parameter of `Users.Create`.
- Database-generated keys. Each create takes the new key as a parameter with `requires id !in table`.
- Row order. The database returns rows in an unspecified order; the model lists them in ascending key order.
- SQL `LIKE` case and collation rules. The title filter is modelled as exact substring containment.
- `Like(%title%)` (src/movies/movies.service.ts:78) reads `%` and `_` inside the title as wildcards. The model treats them as ordinary characters.
- The average rating's floating-point representation. The model keeps exact tenths, and a comparison with `minRating` compares 10*minRating tenths.
- The inverse side of the many-to-many relations. The movie ids stored on an actor or genre are not kept in sync with a movie's actor and genre ids, and removing a movie does not remove its id from actors and genres.
- The review's `createdAt` creation timestamp (src/reviews/entities/review.entity.ts:27-28). It is a clock value that nothing in the modelled services reads.
- Review `findAll`/`findByMovie`, and actor and genre `findAll`. They are unfiltered repository reads.
- The Review entity's `user` relation is commented out in src/reviews/entities/review.entity.ts:21-22, while the service reads `review.user.id`. The model gives each review an author id, as the ownership rule presumes.
- User ids are declared as strings but generated by the database as integers; they are modelled as `int`.
- Multer storage, file names and the 100 MB size limit. `uploads.service.ts` is not part of this model.
- Reviews.Update: returns the patched review but no store, because the source saves the request body rather than the review.
- Genres.Update: returns the updated genre but no store, because the source saves the request body without `movieIds` rather than the genre. For the same reason it does not model a duplicate-name refusal on update.
- Listing.FindAll: requires a validated filter (minRating 1..5, page >= 1, limit 1..100). The validators run before the service, so other values never reach it.
