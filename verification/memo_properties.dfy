/** The lazy facade's memo machine over repeated calls: a producer that
    resolved once is never called again, a bare facade always raises, and a
    pending facade whose scan raises calls its producer again next time.
 */
module MemoProperties {
  import opened Config
  import opened Instances
  import opened Fallback
  import opened Facades

  /** `resolved()` called `n` times in a row on the same facade; the outcome of the last call. */
  function ResolveTimes(f: Facade, hooks: Hooks, n: nat): (r: Forced)
    requires n >= 1
    decreases n
  {
    var first := Resolved(f, hooks);
    if n == 1 then first else ResolveTimes(first.after, hooks, n - 1)
  }

  /** Once a facade has resolved, every later call returns the same terminal
      and leaves the facade, its producer count included, exactly as the
      first call left it. */
  lemma {:induction false} ResolvedIsMemoised(f: Facade, hooks: Hooks, n: nat)
    requires n >= 1
    requires Resolved(f, hooks).res.Ok?
    ensures ResolveTimes(f, hooks, n) == Resolved(f, hooks)
    ensures ResolveTimes(f, hooks, n).after.calls == f.calls + (if f.state.Pending? then 1 else 0)
    decreases n
  {
    var first := Resolved(f, hooks);
    if n > 1 {
      assert first.after.state == Cached(first.res.value);
      assert Resolved(first.after, hooks) == first;
      ResolvedIsMemoised(first.after, hooks, n - 1);
    }
  }

  /** A facade made by `Maybe.lazy(producer)` calls its producer exactly once,
      however often it is forced, as long as the first forcing succeeds. */
  lemma ProducerRunsOnce(c: Candidate, opts: Opt<Options>, hooks: Hooks, n: nat)
    requires n >= 1
    requires Resolved(LazyOf(Given(c), opts), hooks).res.Ok?
    ensures ResolveTimes(LazyOf(Given(c), opts), hooks, n).after.calls == 1
    ensures ResolveTimes(LazyOf(Given(c), opts), hooks, n).res == Resolved(LazyOf(Given(c), opts), hooks).res
  {
    ResolvedIsMemoised(LazyOf(Given(c), opts), hooks, n);
  }

  /** A facade without a producer raises `LazyMonadError` on every call and never changes. */
  lemma {:induction false} BareAlwaysRaises(f: Facade, hooks: Hooks, n: nat)
    requires n >= 1
    requires f.state.Bare?
    ensures ResolveTimes(f, hooks, n) == Forced(Err(LazyMonadError), f)
    decreases n
  {
    if n > 1 {
      BareAlwaysRaises(f, hooks, n - 1);
    }
  }

  /** When the scan of the producer's output raises, the facade stays
      pending, so every later call runs the producer again and raises the
      same error. */
  lemma {:induction false} FailedForcingRetries(f: Facade, hooks: Hooks, n: nat)
    requires n >= 1
    requires f.state.Pending?
    requires Resolved(f, hooks).res.Err?
    ensures ResolveTimes(f, hooks, n).res == Resolved(f, hooks).res
    ensures ResolveTimes(f, hooks, n).after == f.(calls := f.calls + n)
    decreases n
  {
    var first := Resolved(f, hooks);
    if n > 1 {
      assert first.after == f.(calls := f.calls + 1);
      assert Resolved(first.after, hooks).res == first.res;
      FailedForcingRetries(first.after, hooks, n - 1);
    }
  }

  /** Forcing `Maybe.lazy(producer)` gives what `Maybe.of(output)` gives at once. */
  lemma LazyAgreesWithOf(c: Candidate, opts: Opt<Options>, hooks: Hooks)
    ensures Resolved(LazyOf(Given(c), opts), hooks).res == Of(c, opts, hooks)
  {
    var p := CompleteParams(DefaultParams, opts);
    CompleteParamsKeepsComplete(DefaultParams, p);
    ScanSingle(p, false, c, hooks);
  }

  /** Facade methods after a successful first one reuse the cached terminal:
      the second method sees the same terminal and changes nothing. */
  lemma DelegationReusesCache<X, Y>(
    f: Facade, hooks: Hooks, first: Terminal -> Result<X>, second: Terminal -> Result<Y>)
    requires Resolved(f, hooks).res.Ok?
    ensures var d := Delegate(f, hooks, first);
      Delegate(d.after, hooks, second) == Delegated(second(Resolved(f, hooks).res.value), d.after)
  {
  }
}
