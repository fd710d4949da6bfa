/** The factories and the two emptiness policies: `of` is `none().or(value)`,
    `ofNullable` is `of` under the nullable policy, and `null` is present
    only under that policy, and only when options are actually passed.
 */
module FactoryProperties {
  import opened Config
  import opened Instances
  import opened Fallback
  import opened Terminals
  import opened Facades

  /** `Maybe.of(value, params)` is `Maybe.none(params).or(value)`. */
  lemma OfIsNoneOr(c: Candidate, opts: Opt<Options>, hooks: Hooks)
    ensures Of(c, opts, hooks) == Or(NoneOf(opts), [c], hooks)
  {
    CompleteParamsKeepsComplete(DefaultParams, CompleteParams(DefaultParams, opts));
  }

  /** The second `or(value)` in `ofNullable` never changes the outcome: it is
      `of` with the options completed against the nullable policy. */
  lemma OfNullableIsOf(c: Candidate, opts: Opt<Options>, hooks: Hooks)
    ensures OfNullable(c, opts, hooks) == Of(c, AsOptions(CompleteParams(NullableParams, opts)), hooks)
  {
    var p := CompleteParams(NullableParams, opts);
    CompleteParamsKeepsComplete(DefaultParams, p);
    OfIsNoneOr(c, AsOptions(p), hooks);
    assert NoneOf(AsOptions(p)) == None(p);
  }

  /** `null` is absent under the default policy and present under the
      nullable one; `ofNullable` without options falls back to the default
      policy, so there too `null` is absent. */
  lemma NullDependsOnPolicy(hooks: Hooks)
    ensures Of(Raw(Null), Omitted, hooks) == Ok(None(Omitted))
    ensures OfNullable(Raw(Null), Given(Options(Omitted, Omitted)), hooks) == Ok(Just(Null, Given(NullableParams)))
    ensures OfNullable(Raw(Null), Omitted, hooks) == Ok(None(Omitted))
  {
    OfNullableIsOf(Raw(Null), Given(Options(Omitted, Omitted)), hooks);
    OfNullableIsOf(Raw(Null), Omitted, hooks);
  }

  /** Without options, the nullable factories build exactly what the default ones build. */
  lemma NullableWithoutOptionsIsDefault(getter: Opt<Candidate>)
    ensures NullableNone(Omitted) == NoneOf(Omitted)
    ensures LazyNullable(getter, Omitted) == LazyOf(getter, Omitted)
  {
  }

  /** A value present under the default policy is returned unchanged by `of(v).get()`. */
  lemma OfThenGet(v: Value, hooks: Hooks)
    requires v != Undef && v != Null
    ensures Of(Raw(v), Omitted, hooks).Ok?
    ensures Get(Of(Raw(v), Omitted, hooks).value, Omitted) == Ok(v)
  {
  }

  /** `Maybe.none()`: its `get` raises, its `raw` is `undefined`, it is empty. */
  lemma NoneAccessors(opts: Opt<Options>)
    ensures Get(NoneOf(opts), Omitted) == Err(EmptyMonadError(Omitted))
    ensures RawOf(NoneOf(opts), Omitted) == Undef
    ensures IsEmpty(NoneOf(opts))
  {
  }
}
