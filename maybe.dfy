/** The optional value of base/maybe.ts: `some(v)` or the `none` singleton. */
module MaybeAlgebra {

  /** `Some` carries a value; `None` is the single shared `none` value. */
  datatype Maybe<T> = Some(value: T) | None

  /** The `kind` tag the source stores in every maybe object. */
  function Kind<T>(m: Maybe<T>): (k: string)
    ensures k == "some" || k == "none"
  {
    if m.Some? then "some" else "none"
  }

  /** `isSome` compares the tag with "some". */
  predicate IsSome<T>(m: Maybe<T>)
    ensures IsSome(m) <==> m.Some?
  {
    Kind(m) == "some"
  }

  /** `isNone` holds of the `none` singleton and of nothing else. */
  predicate IsNone<T>(m: Maybe<T>)
    ensures IsNone(m) <==> Kind(m) == "none"
  {
    m == None
  }

  /** `map` applies the mapper to a carried value and passes `none` through. */
  function Map<T1, T2>(f: T1 -> T2, m: Maybe<T1>): (r: Maybe<T2>)
    ensures IsNone(r) <==> IsNone(m)
    ensures m.Some? ==> r == Some(f(m.value))
  {
    match m
    case None => None
    case Some(v) => Some(f(v))
  }

  /** `some(v)` is a Some carrying exactly `v`, and `none` is recognised by `isNone`. */
  lemma ConstructorsAreRecognised<T>(v: T)
    ensures IsSome(Some(v)) && !IsNone(Some(v)) && Some(v).value == v
    ensures var none: Maybe<T> := None; IsNone(none) && !IsSome(none)
  {
  }

  /** Exactly one of `isSome` and `isNone` holds of every maybe. */
  lemma ExactlyOneKind<T>(m: Maybe<T>)
    ensures IsSome(m) != IsNone(m)
  {
  }

  /** Mapping `none` never consults the mapper: every mapper gives the same result. */
  lemma MapNoneIgnoresMapper<T1, T2>(f: T1 -> T2, g: T1 -> T2)
    ensures Map(f, None) == Map(g, None) == None
  {
  }

  /** `map` composes: mapping twice is mapping with the composed function. */
  lemma MapComposes<T1, T2, T3>(f: T1 -> T2, g: T2 -> T3, m: Maybe<T1>)
    ensures Map(g, Map(f, m)) == Map(x => g(f(x)), m)
  {
  }
}
