/** Option and Result, and the two kinds of failure the core tells apart. */
module Wrappers {

  datatype Option<+T> = None | Some(value: T)

  /** `NotFound` is the ValueError the provider raises when it finds no result;
      `Other` is every other exception (HTTP errors, a failed commit, an
      attribute access on a missing row). */
  datatype Failure = NotFound | Other

  datatype Result<+T> = Ok(value: T) | Err(failure: Failure)

  function Min(a: int, b: int): int { if a <= b then a else b }
}
