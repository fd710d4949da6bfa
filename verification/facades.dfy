/** The lazy `Maybe` facade: its factories, the delegation of every public
    method to the forced terminal, and `visit` with its two shorthands.
 */
module Facades {
  import opened Config
  import opened Instances
  import opened Fallback
  import opened Terminals

  /** `Maybe.none(params?)`: an absent terminal with the options completed
      against the default policy. */
  function NoneOf(opts: Opt<Options>): (r: Terminal)
    ensures r.None?
    ensures opts.Omitted? ==> ParamsOrDefault(r.params) == DefaultParams
    ensures opts.Given? ==> r.params.Given?
    ensures r.params == CompleteParams(DefaultParams, opts)
  {
    None(CompleteParams(DefaultParams, opts))
  }

  /** `Maybe.nullable(params?)`: options are completed against the nullable
      policy, but omitted options stay omitted and the instance then uses
      the default policy (suspect, kept as written). */
  function NullableNone(opts: Opt<Options>): (r: Terminal)
    ensures r.None?
    ensures opts.Omitted? ==> ParamsOrDefault(r.params) == DefaultParams
    ensures opts.Given? && opts.value.isEmpty.Omitted? ==> ParamsOrDefault(r.params).isEmpty == NullableParams.isEmpty
    ensures opts.Given? && opts.value.isEmpty.Given? ==> ParamsOrDefault(r.params).isEmpty == opts.value.isEmpty.value
    ensures opts.Given? ==> ParamsOrDefault(r.params).resolver == opts.value.resolver.GetOr(NullableParams.resolver)
    ensures r.params == CompleteParams(NullableParams, opts)
  {
    CompleteParamsKeepsComplete(DefaultParams, CompleteParams(NullableParams, opts));
    NoneOf(AsOptions(CompleteParams(NullableParams, opts)))
  }

  /** `Maybe.lazy(getter, params?)`: a facade whose producer has not run yet.
      A missing getter leaves the facade bare. */
  function LazyOf(getter: Opt<Candidate>, opts: Opt<Options>): (f: Facade)
    ensures f.calls == 0
    ensures getter.Omitted? <==> f.state.Bare?
    ensures getter.Given? ==> f.state == Pending(getter.value)
    ensures opts.Omitted? ==> ParamsOrDefault(f.params) == DefaultParams
    ensures f.params == CompleteParams(DefaultParams, opts)
  {
    var p := CompleteParams(DefaultParams, opts);
    match getter
    case Given(g) => Facade(p, Pending(g), 0)
    case Omitted => Facade(p, Bare, 0)
  }

  /** `Maybe.lazyNullable(getter, params?)`, with the same omitted-options quirk as `nullable`. */
  function LazyNullable(getter: Opt<Candidate>, opts: Opt<Options>): (f: Facade)
    ensures f.calls == 0
    ensures getter.Given? ==> f.state == Pending(getter.value)
    ensures opts.Omitted? ==> ParamsOrDefault(f.params) == DefaultParams
    ensures getter.Omitted? <==> f.state.Bare?
    ensures opts.Given? && opts.value.isEmpty.Omitted? ==> ParamsOrDefault(f.params).isEmpty == NullableParams.isEmpty
    ensures opts.Given? && opts.value.isEmpty.Given? ==> ParamsOrDefault(f.params).isEmpty == opts.value.isEmpty.value
    ensures opts.Given? ==> ParamsOrDefault(f.params).resolver == opts.value.resolver.GetOr(NullableParams.resolver)
    ensures f.params == CompleteParams(NullableParams, opts)
  {
    CompleteParamsKeepsComplete(DefaultParams, CompleteParams(NullableParams, opts));
    LazyOf(getter, AsOptions(CompleteParams(NullableParams, opts)))
  }

  /** `Maybe.of(value, params?)`: `none(params).or(value)`. */
  function Of(c: Candidate, opts: Opt<Options>, hooks: Hooks): (r: Result<Terminal>)
    ensures r.Ok? ==> r.value.Just? || r.value == None(CompleteParams(DefaultParams, opts))
    ensures c.Raw? && c.v != Undef && !ParamsOrDefault(CompleteParams(DefaultParams, opts)).isEmpty(c.v) ==>
      r == Ok(Just(c.v, CompleteParams(DefaultParams, opts)))
    ensures c.Raw? && (c.v == Undef || ParamsOrDefault(CompleteParams(DefaultParams, opts)).isEmpty(c.v)) ==>
      r == Ok(None(CompleteParams(DefaultParams, opts)))
  {
    var p := CompleteParams(DefaultParams, opts);
    CompleteParamsKeepsComplete(DefaultParams, p);
    ScanSingle(p, false, c, hooks);
    Or(NoneOf(AsOptions(p)), [c], hooks)
  }

  /** `Maybe.ofNullable(value, params?)`: `of` with options completed against
      the nullable policy, followed by a second `or(value)` on the result. */
  function OfNullable(c: Candidate, opts: Opt<Options>, hooks: Hooks): (r: Result<Terminal>)
    ensures r.Ok? ==> r.value.Just? || r.value == None(CompleteParams(NullableParams, opts))
  {
    var p := CompleteParams(NullableParams, opts);
    CompleteParamsKeepsComplete(DefaultParams, p);
    match Of(c, AsOptions(p), hooks)
    case Err(e) => Err(e)
    case Ok(t) => Or(t, [c], hooks)
  }

  /** The result of a facade method and the facade as left by it. */
  datatype Delegated<X> = Delegated(res: Result<X>, after: Facade)

  /** Every facade method other than `resolved` and `visit`
      (`get`, `raw`, `expected`, `isEmpty`, `or`, `orGet`, `just`, `justGet`,
      `map`, `flatMap`): force the facade, then apply the terminal's method. */
  function Delegate<X>(f: Facade, hooks: Hooks, op: Terminal -> Result<X>): (r: Delegated<X>)
    ensures r.after == Resolved(f, hooks).after
    ensures f.state.Bare? ==> r == Delegated(Err(LazyMonadError), f)
    ensures f.state.Cached? ==> r == Delegated(op(f.state.t), f)
    ensures f.state.Pending? ==> r.after.calls == f.calls + 1
    ensures Resolved(f, hooks).res.Ok? ==> r.res == op(Resolved(f, hooks).res.value)
    ensures Resolved(f, hooks).res.Err? ==> r.res == Err(Resolved(f, hooks).res.error)
  {
    var forced := Resolved(f, hooks);
    match forced.res
    case Err(e) => Delegated(Err(e), forced.after)
    case Ok(t) => Delegated(op(t), forced.after)
  }

  /** Which handlers a visitor object supplies. */
  datatype Visitor = Visitor(hasJust: bool, hasNone: bool)

  /** Which handler `visit` called, and with what. */
  datatype Callback = NoCallback | CalledNone | CalledJust(v: Value)

  datatype Visited = Visited(res: Result<Terminal>, called: Callback)

  /** The body of `visit` once the instance is resolved, as written: only an
      empty terminal triggers anything; the `none` handler is preferred, and
      without one the `just` handler's argument `monad.get()` raises
      `EmptyMonadError` before the handler runs. The `just` handler is
      therefore never called (suspect, kept as written). */
  function VisitTerminal(t: Terminal, visitor: Visitor): (r: Visited)
    ensures !r.called.CalledJust?
    ensures t.Just? ==> r == Visited(Ok(t), NoCallback)
    ensures r.called == CalledNone <==> t.None? && visitor.hasNone
    ensures r.res.Err? <==> t.None? && !visitor.hasNone && visitor.hasJust
    ensures r.res.Err? ==> r.res.error == EmptyMonadError(Omitted) && Get(t, Omitted) == Err(r.res.error)
    ensures r.res.Ok? ==> r.res.value == t
  {
    if IsEmpty(t) then
      if visitor.hasNone then Visited(Ok(t), CalledNone)
      else if visitor.hasJust then
        (match Get(t, Omitted)
         case Err(e) => Visited(Err(e), NoCallback)
         case Ok(v) => assert false; Visited(Ok(t), CalledJust(v)))
      else Visited(Ok(t), NoCallback)
    else Visited(Ok(t), NoCallback)
  }

  /** `visit(visitor)` on any instance: `this.resolved()` first (the identity
      on a terminal, memoised forcing on a facade), then the body above. */
  function Visit(m: Monad, hooks: Hooks, visitor: Visitor): (r: (Visited, Monad))
    ensures m.Term? ==> r == (VisitTerminal(m.t, visitor), m)
    ensures m.Lazy? ==> r.1 == Lazy(Resolved(m.f, hooks).after)
    ensures m.Lazy? && Resolved(m.f, hooks).res.Err? ==>
      r.0 == Visited(Resolved(m.f, hooks).res, NoCallback)
    ensures m.Lazy? && Resolved(m.f, hooks).res.Ok? ==>
      r.0 == VisitTerminal(Resolved(m.f, hooks).res.value, visitor)
  {
    match m
    case Term(t) => (VisitTerminal(t, visitor), m)
    case Lazy(f) =>
      var forced := Resolved(f, hooks);
      match forced.res
      case Err(e) => (Visited(Err(e), NoCallback), Lazy(forced.after))
      case Ok(t) => (VisitTerminal(t, visitor), Lazy(forced.after))
  }

  /** `ifPresent(just)` = `visit({ just })`: never calls its handler; raises
      `EmptyMonadError` exactly when the instance resolves to a `None`. */
  function IfPresent(m: Monad, hooks: Hooks): (r: (Visited, Monad))
    ensures r.0.called == NoCallback
    ensures m.Term? ==> (r.0.res.Err? <==> m.t.None?)
    ensures m.Lazy? && Resolved(m.f, hooks).res.Ok? ==>
      (r.0.res.Err? <==> Resolved(m.f, hooks).res.value.None?)
  {
    Visit(m, hooks, Visitor(true, false))
  }

  /** `ifAbsent(none)` = `visit({ none })`: calls its handler exactly when the
      instance resolves to a `None`, and raises nothing of its own. */
  function IfAbsent(m: Monad, hooks: Hooks): (r: (Visited, Monad))
    ensures m.Term? ==> r.0.res == Ok(m.t) && (r.0.called == CalledNone <==> m.t.None?)
    ensures m.Lazy? && Resolved(m.f, hooks).res.Ok? ==>
      r.0.res == Resolved(m.f, hooks).res &&
      (r.0.called == CalledNone <==> Resolved(m.f, hooks).res.value.None?)
    ensures r.0.res.Err? ==> ScanError(r.0.res.error)
  {
    Visit(m, hooks, Visitor(false, true))
  }
}
