/** Configuration of a perhaps.js optional value: the values it holds, the
    emptiness and resolution policies that travel with every instance, the
    two built-in policies, and the errors the library raises.
 */
module Config {

  /** An optional argument or field: JavaScript's `undefined` versus a given value. */
  datatype Opt<+T> = Omitted | Given(value: T) {

    /** The given value, or `default` when omitted (the `x || default` idiom). */
    function GetOr(default: T): (r: T)
      ensures Given? ==> r == value
      ensures Omitted? ==> r == default
    {
      match this
      case Given(v) => v
      case Omitted => default
    }
  }

  /** A JavaScript value as far as the library can observe it. Functions and
      objects are references: what a function returns when called is recorded
      on the candidate that carries it, not in the value. */
  datatype Value =
    | Undef
    | Null
    | Bool(b: bool)
    | Num(n: int)
    | Str(s: string)
    | Obj(ref: nat)
    | Func(ref: nat)

  /** How a nested instance is turned into a terminal: by forcing it (the
      library's own `maybe.resolved()`), or by a caller-supplied hook, named
      by an id and looked up in the hook environment at resolution time. */
  datatype Resolver = Forcing | Custom(id: nat)

  /** `MonadParams`: the emptiness test and the resolution strategy. */
  datatype Params = Params(isEmpty: Value -> bool, resolver: Resolver)

  /** `MonadOptions`: a partial `MonadParams`, either field may be missing. */
  datatype Options = Options(isEmpty: Opt<Value -> bool>, resolver: Opt<Resolver>)

  /** The library's errors, plus whatever a caller's message producer throws. */
  datatype Error =
    | EmptyMonadError(message: Opt<string>)
    | LazyMonadError
    | MonadResolutionError
    | UserThrown(thrown: Value)

  /** A computation that either returns a value or raises an `Error`. */
  datatype Result<+T> = Ok(value: T) | Err(error: Error)

  /** The default policy: `undefined` and `null` are empty; nested instances are forced. */
  const DefaultParams: Params := Params(v => v == Undef || v == Null, Forcing)

  /** The nullable policy: only `undefined` is empty; it resolves like the default policy. */
  const NullableParams: Params := Params(v => v == Undef, DefaultParams.resolver)

  /** The two built-in policies resolve alike and disagree on exactly one
      value: `null`, which only the default policy deems empty. */
  lemma NullablePolicyDiffersOnlyOnNull(v: Value)
    ensures NullableParams.isEmpty(v) ==> DefaultParams.isEmpty(v)
    ensures DefaultParams.isEmpty(v) && !NullableParams.isEmpty(v) <==> v == Null
    ensures NullableParams.resolver == DefaultParams.resolver == Forcing
  {}

  /** The effective policy of an instance: its own, or the default one (`params()`). */
  function ParamsOrDefault(p: Opt<Params>): (r: Params)
    ensures p.Omitted? ==> r == DefaultParams
    ensures p.Given? ==> r == p.value
  {
    p.GetOr(DefaultParams)
  }

  /** A complete policy seen as options with both fields given. */
  function AsOptions(p: Opt<Params>): (r: Opt<Options>)
    ensures r.Omitted? <==> p.Omitted?
    ensures p.Given? ==> r.value.isEmpty == Given(p.value.isEmpty)
    ensures p.Given? ==> r.value.resolver == Given(p.value.resolver)
  {
    match p
    case Omitted => Omitted
    case Given(q) => Given(Options(Given(q.isEmpty), Given(q.resolver)))
  }

  /** `completeParams(reference, params)`: fills each missing field of the
      options from the reference policy. Omitted options stay omitted: the
      caller then falls back to the DEFAULT policy through `params()`, even
      when the reference was the nullable one (suspect, kept as written). */
  function CompleteParams(reference: Params, opts: Opt<Options>): (r: Opt<Params>)
    ensures r.Omitted? <==> opts.Omitted?
    ensures opts.Given? && opts.value.isEmpty.Given? ==> r.value.isEmpty == opts.value.isEmpty.value
    ensures opts.Given? && opts.value.isEmpty.Omitted? ==> r.value.isEmpty == reference.isEmpty
    ensures opts.Given? && opts.value.resolver.Given? ==> r.value.resolver == opts.value.resolver.value
    ensures opts.Given? && opts.value.resolver.Omitted? ==> r.value.resolver == reference.resolver
  {
    match opts
    case Omitted => Omitted
    case Given(o) => Given(Params(o.isEmpty.GetOr(reference.isEmpty), o.resolver.GetOr(reference.resolver)))
  }

  /** Completing an already complete policy changes nothing, whatever the reference. */
  lemma CompleteParamsKeepsComplete(reference: Params, p: Opt<Params>)
    ensures CompleteParams(reference, AsOptions(p)) == p
  {
  }
}
