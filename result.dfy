/** The kind-tagged result of base/result.ts, which every parser and route returns. */
module ResultAlgebra {

  /** `Ok` carries a value and `Err` an error; the constructor plays the role of the `kind` tag. */
  datatype Result<E, T> = Ok(value: T) | Err(error: E)

  /** The `kind` field of a result object. */
  function Kind<E, T>(r: Result<E, T>): (k: string)
    ensures k == "ok" || k == "err"
  {
    if r.Ok? then "ok" else "err"
  }

  /** `isOk` compares the `kind` tag with "ok". */
  predicate IsOk<E, T>(r: Result<E, T>)
    ensures IsOk(r) <==> r.Ok?
  {
    Kind(r) == "ok"
  }

  /** `isErr` compares the `kind` tag with "err". */
  predicate IsErr<E, T>(r: Result<E, T>)
    ensures IsErr(r) <==> r.Err?
  {
    Kind(r) == "err"
  }

  /** `map` returns an error unchanged and applies the mapper to a success value. */
  function Map<E, T1, T2>(f: T1 -> T2, r: Result<E, T1>): (m: Result<E, T2>)
    ensures IsOk(m) <==> IsOk(r)
    ensures r.Err? ==> m == Err(r.error)
    ensures r.Ok? ==> m == Ok(f(r.value))
  {
    match r
    case Err(e) => Err(e)
    case Ok(v) => Ok(f(v))
  }

  /** `ok(v)` is an Ok carrying exactly `v`; `err(e)` is an Err carrying exactly `e`. */
  lemma ConstructorsCarry<E, T>(v: T, e: E)
    ensures var ok: Result<E, T> := Ok(v); IsOk(ok) && !IsErr(ok) && ok.value == v
    ensures var err: Result<E, T> := Err(e); IsErr(err) && !IsOk(err) && err.error == e
  {
  }

  /** Exactly one of `isOk` and `isErr` holds of every result. */
  lemma ExactlyOneKind<E, T>(r: Result<E, T>)
    ensures IsOk(r) != IsErr(r)
  {
  }

  /** Mapping an error never consults the mapper: every mapper gives back the same error. */
  lemma MapErrIgnoresMapper<E, T1, T2>(f: T1 -> T2, g: T1 -> T2, e: E)
    ensures Map(f, Err(e)) == Map(g, Err(e)) == Err(e)
  {
  }

  /** `map` composes: mapping twice is mapping with the composed function. */
  lemma MapComposes<E, T1, T2, T3>(f: T1 -> T2, g: T2 -> T3, r: Result<E, T1>)
    ensures Map(g, Map(f, r)) == Map(x => g(f(x)), r)
  {
  }
}
