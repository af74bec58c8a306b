/** `ReviewsService`: reviews of movies, writable by their author or an
    admin.  The requester's id and role come from the authenticated request. */
module Reviews {
  import opened Common
  import opened Entities
  import opened Resolver

  datatype CreateReviewDto = CreateReviewDto(rating: int, comment: Option<string>, movieId: int)

  datatype UpdateReviewDto = UpdateReviewDto(rating: Option<int>, comment: Option<string>)

  /** The review validator: 1 to 5 stars and, when present, a non-empty comment. */
  predicate ValidCreate(dto: CreateReviewDto) {
    1 <= dto.rating <= 5 && (dto.comment.Some? ==> dto.comment.value != "")
  }

  predicate ValidUpdate(dto: UpdateReviewDto) {
    (dto.rating.Some? ==> 1 <= dto.rating.value <= 5) && (dto.comment.Some? ==> dto.comment.value != "")
  }

  /** The ownership rule of `update` and `remove`. */
  predicate MayModify(review: Review, userId: int, role: UserRole) {
    review.authorId == userId || role == Admin
  }

  /** `create`: the movie must exist (the lookup goes through the movie
      service's `findOne`); the review records the movie and its author.
      `id` is the key the database assigns. */
  function Create(store: Store, dto: CreateReviewDto, userId: int, id: int): (r: Result<(Store, Review)>)
    requires id !in store.reviews
    ensures r.Err? <==> dto.movieId !in store.movies
    ensures r.Err? ==> r.error == NotFound(MovieKind)
    ensures r.Ok? ==>
              var (s, review) := r.value;
              && review == Review(id, dto.rating, dto.comment, dto.movieId, userId)
              && s == store.(reviews := store.reviews[id := review])
              && FindOne(s, id) == Ok(review)
    ensures r.Ok? && KeysMatch(store) ==> KeysMatch(r.value.0)
    ensures r.Ok? && LinksStored(store) ==> LinksStored(r.value.0)
    ensures r.Ok? && ReviewsReferToMovies(store) ==> ReviewsReferToMovies(r.value.0)
    ensures r.Ok? && ValidCreate(dto) && RatingsValid(store) ==> RatingsValid(r.value.0)
  {
    match Lookup(store.movies, dto.movieId, MovieKind)
    case Err(e) => Err(e)
    case Ok(_) =>
      var review := Review(id, dto.rating, dto.comment, dto.movieId, userId);
      Ok((store.(reviews := store.reviews[id := review]), review))
  }

  /** `findOne`. */
  function FindOne(store: Store, id: int): (r: Result<Review>)
    ensures r.Ok? <==> id in store.reviews
    ensures r.Ok? ==> r.value == store.reviews[id]
    ensures r.Err? ==> r.error == NotFound(ReviewKind)
  {
    Lookup(store.reviews, id, ReviewKind)
  }

  /** The patch of `update`: `rating` and `comment` overwrite only when
      truthy, that is a non-zero rating and a non-empty comment. */
  function ApplyPatch(review: Review, dto: UpdateReviewDto): (p: Review)
    ensures p.id == review.id && p.movieId == review.movieId && p.authorId == review.authorId
    ensures p.rating == (if dto.rating.Some? && dto.rating.value != 0 then dto.rating.value else review.rating)
    ensures p.comment == (if dto.comment.Some? && dto.comment.value != "" then dto.comment else review.comment)
  {
    var p := if dto.rating.Some? && dto.rating.value != 0 then review.(rating := dto.rating.value) else review;
    if dto.comment.Some? && dto.comment.value != "" then p.(comment := dto.comment) else p
  }

  /** Patching twice with the same body is patching once, and an empty body
      changes nothing. */
  lemma PatchIdempotent(review: Review, dto: UpdateReviewDto)
    ensures ApplyPatch(ApplyPatch(review, dto), dto) == ApplyPatch(review, dto)
    ensures ApplyPatch(review, UpdateReviewDto(None, None)) == review
  {
  }

  /** A valid patch keeps a rating of 1..5 stars within 1..5. */
  lemma PatchKeepsRatingValid(review: Review, dto: UpdateReviewDto)
    requires 1 <= review.rating <= 5 && ValidUpdate(dto)
    ensures 1 <= ApplyPatch(review, dto).rating <= 5
  {
  }

  /** `update`: a missing review is reported before ownership is checked;
      the result is the patched review.  The source then saves the request
      body rather than this review, so no store is returned. */
  function Update(store: Store, id: int, dto: UpdateReviewDto, userId: int, role: UserRole): (r: Result<Review>)
    ensures id !in store.reviews ==> r == Err(NotFound(ReviewKind))
    ensures id in store.reviews && !MayModify(store.reviews[id], userId, role) ==> r == Err(Forbidden)
    ensures r.Ok? <==> id in store.reviews && MayModify(store.reviews[id], userId, role)
    ensures r.Ok? ==> r.value == ApplyPatch(store.reviews[id], dto)
  {
    match FindOne(store, id)
    case Err(e) => Err(e)
    case Ok(review) =>
      if review.authorId != userId && role != Admin then Err(Forbidden)
      else Ok(ApplyPatch(review, dto))
  }

  /** `remove`: the same existence-then-ownership checks; on success
      exactly that review is deleted and every other row is kept. */
  function Remove(store: Store, id: int, userId: int, role: UserRole): (r: Result<Store>)
    ensures id !in store.reviews ==> r == Err(NotFound(ReviewKind))
    ensures id in store.reviews && !MayModify(store.reviews[id], userId, role) ==> r == Err(Forbidden)
    ensures r.Ok? <==> id in store.reviews && MayModify(store.reviews[id], userId, role)
    ensures r.Ok? ==> r.value.reviews.Keys == store.reviews.Keys - {id}
    ensures r.Ok? ==> forall k :: k in r.value.reviews ==> r.value.reviews[k] == store.reviews[k]
    ensures r.Ok? ==> r.value == store.(reviews := r.value.reviews)
    ensures r.Ok? && KeysMatch(store) ==> KeysMatch(r.value)
    ensures r.Ok? && LinksStored(store) ==> LinksStored(r.value)
    ensures r.Ok? && ReviewsReferToMovies(store) ==> ReviewsReferToMovies(r.value)
  {
    match FindOne(store, id)
    case Err(e) => Err(e)
    case Ok(review) =>
      if review.authorId != userId && role != Admin then Err(Forbidden)
      else Ok(store.(reviews := store.reviews - {id}))
  }

  /** An admin may update and delete any existing review, whoever wrote it. */
  lemma AdminMayModifyAny(store: Store, id: int, dto: UpdateReviewDto, userId: int)
    requires id in store.reviews
    ensures Update(store, id, dto, userId, Admin).Ok?
    ensures Remove(store, id, userId, Admin).Ok?
  {
  }

  /** A user who is neither the author nor an admin can do neither. */
  lemma StrangerIsForbidden(store: Store, id: int, dto: UpdateReviewDto, userId: int)
    requires id in store.reviews && store.reviews[id].authorId != userId
    ensures Update(store, id, dto, userId, Member) == Err(Forbidden)
    ensures Remove(store, id, userId, Member) == Err(Forbidden)
  {
  }

  /** The author of a new review may delete it, which restores the store. */
  lemma AuthorMayRemoveOwnReview(store: Store, dto: CreateReviewDto, userId: int, id: int, role: UserRole)
    requires id !in store.reviews
    requires Create(store, dto, userId, id).Ok?
    ensures Remove(Create(store, dto, userId, id).value.0, id, userId, role) == Ok(store)
  {
    var s := Create(store, dto, userId, id).value.0;
    assert s.reviews - {id} == store.reviews;
  }
}
