/**
 * The older result module (result.ts), used by the draft router. It has the same two
 * variants as base/result.ts but names its discriminant `tag` and has no constructors.
 */
module LegacyResult {
  import opened ResultAlgebra

  /** The `tag` field of a result object of the older module. */
  function Tag<E, T>(r: Result<E, T>): (t: string)
    ensures t == "ok" || t == "err"
  {
    match r
    case Ok(_) => "ok"
    case Err(_) => "err"
  }

  /** `isOk` holds iff the tag is "ok". */
  predicate IsOk<E, T>(r: Result<E, T>)
    ensures IsOk(r) <==> r.Ok?
  {
    Tag(r) == "ok"
  }

  /** `isErr` holds iff the tag is "err". */
  predicate IsErr<E, T>(r: Result<E, T>)
    ensures IsErr(r) <==> r.Err?
  {
    Tag(r) == "err"
  }

  /** The older `map`: an error is returned as it is, a success value goes through the mapper. */
  function Map<E, T1, T2>(f: T1 -> T2, r: Result<E, T1>): (m: Result<E, T2>)
    ensures r.Err? ==> m == Err(r.error)
    ensures r.Ok? ==> m == Ok(f(r.value))
  {
    if IsErr(r) then Err(r.error) else Ok(f(r.value))
  }

  /** Exactly one of the older `isOk` and `isErr` holds. */
  lemma ExactlyOneTag<E, T>(r: Result<E, T>)
    ensures IsOk(r) != IsErr(r)
  {
  }

  /** `map` preserves the tag, and an error never reaches the mapper. */
  lemma MapPreservesTag<E, T1, T2>(f: T1 -> T2, g: T1 -> T2, r: Result<E, T1>)
    ensures Tag(Map(f, r)) == Tag(r)
    ensures r.Err? ==> Map(f, r) == Map(g, r)
  {
  }

  /** The two result modules agree: same predicates and the same `map`. */
  lemma AgreesWithBaseResult<E, T1, T2>(f: T1 -> T2, r: Result<E, T1>)
    ensures IsOk(r) == ResultAlgebra.IsOk(r) && IsErr(r) == ResultAlgebra.IsErr(r)
    ensures Tag(r) == Kind(r)
    ensures Map(f, r) == ResultAlgebra.Map(f, r)
  {
  }
}
