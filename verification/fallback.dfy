/** The fallback engine of the `None` variant (`doResolve`, `doMaybe`) and
    the facade's memoised forcing (`resolved()`), which call each other:
    a nested facade met during a scan is forced, and forcing a facade scans
    its producer's output.
 */
module Fallback {
  import opened Config
  import opened Instances

  /** What one candidate does to the scan: stop with a new `Just` (the
      `break`), replace the running result and go on, leave it alone and go
      on, or raise. */
  datatype Step = Found(j: Terminal) | Adopt(t: Terminal) | Skip | Raise(e: Error)

  /** The memo outcome of forcing a facade, with the facade as left afterwards. */
  datatype Forced = Forced(res: Result<Terminal>, after: Facade)

  /** The only errors a scan or a forcing can raise by itself. */
  predicate ScanError(e: Error) {
    e == LazyMonadError || e == MonadResolutionError
  }

  predicate Stops(s: Step) {
    s.Found? || s.Raise?
  }

  /** A step keeps the scan's promise: a new `Just` carries the receiver's
      params, an adopted terminal is a `Just` or the receiver itself, and
      only `ScanError`s are raised. */
  ghost predicate WellFormedStep(home: Opt<Params>, s: Step) {
    && (s.Found? ==> s.j.Just? && s.j.params == home)
    && (s.Adopt? ==> s.t.Just? || s.t == None(home))
    && (s.Raise? ==> ScanError(s.e))
  }

  /** Steps 2 and 4 of a candidate that is not an instance: the value
      becomes a `Just` sharing the receiver's params unless it is
      `undefined` or the receiver's policy deems it empty. */
  function Classify(home: Opt<Params>, v: Value): (s: Step)
    ensures s.Found? || s.Skip?
    ensures s.Found? <==> v != Undef && !ParamsOrDefault(home).isEmpty(v)
    ensures s.Found? ==> s.j == Just(v, home)
  {
    if !ParamsOrDefault(home).isEmpty(v) && v != Undef then Found(Just(v, home)) else Skip
  }

  /** One iteration of `doMaybe`'s loop on the receiver `None(home)`.
      A `Producer` is called only when `evaluating` (`orGet`, `justGet`);
      its output is then classified as a plain, uncalled candidate, so a
      producer that returns a function yields that function as a value.
      Without evaluation the function itself is the value. */
  function StepOf(home: Opt<Params>, evaluating: bool, c: Candidate, hooks: Hooks): (s: Step)
    ensures WellFormedStep(home, s)
    ensures c.Raw? ==> s == Classify(home, c.v)
    ensures c.Producer? && !evaluating ==> s == Classify(home, Func(c.fn))
    ensures c.Producer? && evaluating ==> s == StepOf(home, false, c.output, hooks)
    decreases c, 0
  {
    match c
    case Raw(v) => Classify(home, v)
    case Producer(fn, output) =>
      if evaluating then StepOf(home, false, output, hooks) else Classify(home, Func(fn))
    case Nested(m) =>
      match DoResolve(home, m, hooks)
      case Ok(t) => Adopt(t)
      case Err(e) => Raise(e)
  }

  /** `doResolve`: resolve a nested instance with the receiver's resolver.
      A `None` outcome becomes the receiver itself, a `Just` is adopted as
      it is, and a hook that returns neither raises `MonadResolutionError`. */
  function DoResolve(home: Opt<Params>, m: Monad, hooks: Hooks): (r: Result<Terminal>)
    ensures r.Ok? ==> r.value.Just? || r.value == None(home)
    ensures r.Err? ==> ScanError(r.error)
    ensures ParamsOrDefault(home).resolver.Custom? ==>
      var h := hooks(ParamsOrDefault(home).resolver.id, m);
      && (h.HookOther? ==> r == Err(MonadResolutionError))
      && (h.HookTerminal? && h.t.Just? ==> r == Ok(h.t))
      && (h.HookTerminal? && h.t.None? ==> r == Ok(None(home)))
    ensures ParamsOrDefault(home).resolver.Forcing? && m.Term? ==>
      r == Ok(if m.t.None? then None(home) else m.t)
    ensures ParamsOrDefault(home).resolver.Forcing? && m.Lazy? ==>
      var forced := Resolved(m.f, hooks).res;
      && (forced.Err? ==> r == Err(forced.error))
      && (forced.Ok? && forced.value.Just? ==> r == forced)
      && (forced.Ok? && forced.value.None? ==> r == Ok(None(home)))
    decreases m, 1
  {
    match ParamsOrDefault(home).resolver
    case Forcing =>
      (match ForceMonad(m, hooks)
       case Err(e) => Err(e)
       case Ok(t) => Ok(if t.None? then None(home) else t))
    case Custom(id) =>
      (match hooks(id, m)
       case HookOther => Err(MonadResolutionError)
       case HookTerminal(t) => Ok(if t.None? then None(home) else t))
  }

  /** The default resolver, `maybe.resolved()`: a terminal is its own
      resolution; a facade is forced. */
  function ForceMonad(m: Monad, hooks: Hooks): (r: Result<Terminal>)
    ensures r.Err? ==> ScanError(r.error)
    ensures m.Term? ==> r == Ok(m.t)
    ensures m.Lazy? ==> r == Resolved(m.f, hooks).res
    decreases m, 0
  {
    match m
    case Term(t) => Ok(t)
    case Lazy(f) => Resolved(f, hooks).res
  }

  /** The scan's result once a candidate has stopped it, or (for `Skip`)
      once the list is exhausted with the receiver still running. */
  function Settle(home: Opt<Params>, s: Step): (r: Result<Terminal>)
    ensures s.Raise? <==> r.Err?
    ensures s.Skip? ==> r == Ok(None(home))
  {
    match s
    case Found(j) => Ok(j)
    case Adopt(t) => Ok(t)
    case Skip => Ok(None(home))
    case Raise(e) => Err(e)
  }

  /** `Maybe.resolved()`: a bare facade raises `LazyMonadError`; a cached
      terminal is returned as it is; a pending producer is called once, its
      output is scanned by `this.none().or(output)`, and on success the
      terminal replaces the producer for good. When the scan raises, the
      producer has run but the facade stays pending. */
  function Resolved(f: Facade, hooks: Hooks): (r: Forced)
    ensures f.state.Bare? ==> r == Forced(Err(LazyMonadError), f)
    ensures f.state.Cached? ==> r == Forced(Ok(f.state.t), f)
    ensures f.state.Pending? ==> r.after.calls == f.calls + 1 && r.after.params == f.params
    ensures f.state.Pending? && r.res.Ok? ==> r.after.state == Cached(r.res.value)
    ensures f.state.Pending? && r.res.Ok? ==> r.res.value.Just? || r.res.value == None(f.params)
    ensures f.state.Pending? && r.res.Err? ==> r.after.state == f.state
    ensures f.state.Pending? ==> r.res == Settle(f.params, StepOf(f.params, false, f.state.output, hooks))
    ensures r.res.Err? ==> ScanError(r.res.error)
    decreases f, 0
  {
    match f.state
    case Bare => Forced(Err(LazyMonadError), f)
    case Cached(t) => Forced(Ok(t), f)
    case Pending(output) =>
      // this.none(): Maybe.none(this.params_) completes the facade's params against the default policy
      var home := CompleteParams(DefaultParams, AsOptions(f.params));
      CompleteParamsKeepsComplete(DefaultParams, f.params);
      var r := Settle(home, StepOf(home, false, output, hooks));
      match r
      case Ok(t) => Forced(r, Facade(f.params, Cached(t), f.calls + 1))
      case Err(_) => Forced(r, f.(calls := f.calls + 1))
  }

  /** The loop of `doMaybe` from some point on, with `running` the current
      value of its `maybe` variable. */
  function ScanFrom(home: Opt<Params>, evaluating: bool, cands: seq<Candidate>, running: Terminal, hooks: Hooks)
    : (r: Result<Terminal>)
    ensures r.Err? ==> ScanError(r.error)
    ensures r.Ok? ==> r.value == running || r.value.Just? || r.value == None(home)
    decreases |cands|
  {
    if |cands| == 0 then Ok(running)
    else
      match StepOf(home, evaluating, cands[0], hooks)
      case Found(j) => Ok(j)
      case Raise(e) => Err(e)
      case Adopt(t) => ScanFrom(home, evaluating, cands[1..], t, hooks)
      case Skip => ScanFrom(home, evaluating, cands[1..], running, hooks)
  }

  /** `doMaybe(evaluating, ...cands)` on the receiver `None(home)`. */
  function Scan(home: Opt<Params>, evaluating: bool, cands: seq<Candidate>, hooks: Hooks): (r: Result<Terminal>)
    ensures r.Err? ==> ScanError(r.error)
    ensures r.Ok? ==> r.value.Just? || r.value == None(home)
  {
    ScanFrom(home, evaluating, cands, None(home), hooks)
  }

  /** A scan over one candidate settles on that candidate's step: this is
      how `resolved()` and `Maybe.of` use `or(value)`. */
  lemma ScanSingle(home: Opt<Params>, evaluating: bool, c: Candidate, hooks: Hooks)
    ensures Scan(home, evaluating, [c], hooks) == Settle(home, StepOf(home, evaluating, c, hooks))
  {
    assert [c][0] == c && [c][1..] == [];
    match StepOf(home, evaluating, c, hooks)
    case Found(j) =>
    case Raise(e) =>
    case Adopt(t) => assert ScanFrom(home, evaluating, [], t, hooks) == Ok(t);
    case Skip => assert ScanFrom(home, evaluating, [], None(home), hooks) == Ok(None(home));
  }

  /** `doMaybe` as the source writes it: a loop over the candidates with a
      running result and an early exit on the first present raw value. */
  method DoMaybe(home: Opt<Params>, evaluating: bool, cands: seq<Candidate>, hooks: Hooks)
    returns (r: Result<Terminal>)
    ensures r == Scan(home, evaluating, cands, hooks)
  {
    var maybe := None(home);
    var i := 0;
    while i < |cands|
      invariant 0 <= i <= |cands|
      invariant ScanFrom(home, evaluating, cands[i..], maybe, hooks) == Scan(home, evaluating, cands, hooks)
    {
      var s := StepOf(home, evaluating, cands[i], hooks);
      match s {
        case Found(j) =>
          return Ok(j);
        case Raise(e) =>
          return Err(e);
        case Adopt(t) =>
          maybe := t;
        case Skip =>
      }
      i := i + 1;
    }
    return Ok(maybe);
  }

  /** `doJust`: the same scan, but a `None` outcome raises `EmptyMonadError`. */
  function DoJust(home: Opt<Params>, evaluating: bool, cands: seq<Candidate>, hooks: Hooks): (r: Result<Terminal>)
    ensures r.Ok? ==> r.value.Just?
    ensures r == Err(EmptyMonadError(Omitted)) <==> Scan(home, evaluating, cands, hooks) == Ok(None(home))
    ensures Scan(home, evaluating, cands, hooks).Err? ==> r == Scan(home, evaluating, cands, hooks)
    ensures Scan(home, evaluating, cands, hooks).Ok? && Scan(home, evaluating, cands, hooks).value.Just? ==>
      r == Scan(home, evaluating, cands, hooks)
  {
    match Scan(home, evaluating, cands, hooks)
    case Err(e) => Err(e)
    case Ok(t) => if t.Just? then Ok(t) else Err(EmptyMonadError(Omitted))
  }
}
