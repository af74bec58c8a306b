/** Failure-carrying datatypes shared by every service of the catalog, and
    the one arithmetic fact the rating and page computations share.
    The services signal failure by throwing NestJS HTTP exceptions; here each
    exception becomes an `Err` value of the matching kind. */
module Common {

  datatype Option<+T> = None | Some(value: T) {
    function GetOr(default: T): T {
      match this
      case Some(v) => v
      case None => default
    }
  }

  /** The table an unresolved lookup was about. */
  datatype Kind = MovieKind | ActorKind | GenreKind | ReviewKind

  /** NotFoundException, ForbiddenException and ConflictException, and the
      database's refusal of a duplicate value in a unique column, which the
      services let through untranslated. */
  datatype Error = NotFound(kind: Kind) | Forbidden | Conflict | UniqueViolation

  datatype Result<+T> = Ok(value: T) | Err(error: Error)

  /** Multiplying by a non-negative number keeps the order. */
  lemma MulMono(a: int, b: int, n: int)
    requires a <= b && n >= 0
    ensures a * n <= b * n
  {
    assert b * n - a * n == (b - a) * n;
  }
}
