/** Partners for the terminal accessors that have no scan of their own:
    `expected()` without a message is `just()` without fallbacks, and
    `flatMap` obeys the monad laws.
 */
module TerminalProperties {
  import opened Config
  import opened Instances
  import opened Fallback
  import opened Terminals

  /** `expected()` without a message raises exactly when `get()` raises,
      with the same error, and behaves as `just()` with no fallbacks. */
  lemma ExpectedIsJustWithoutFallbacks(t: Terminal, hooks: Hooks)
    ensures Expected(t, NoMessage).Err? <==> Get(t, Omitted).Err?
    ensures Expected(t, NoMessage).Err? ==> Expected(t, NoMessage).error == Get(t, Omitted).error
    ensures Expected(t, NoMessage) == JustOf(t, [], hooks)
  {
  }

  /** `flatMap` with the function that rewraps a value in the receiver's
      params returns the receiver (right identity). */
  lemma FlatMapRightIdentity(t: Terminal)
    ensures FlatMap(t, v => Just(v, t.params)) == t
  {
  }

  /** `Just(v).flatMap(f)` is `f(v)` (left identity), and chaining two
      `flatMap`s is one `flatMap` of the composed mapper (associativity). */
  lemma FlatMapLeftIdentityAndAssociativity(
    v: Value, p: Opt<Params>, t: Terminal, f: Value -> Terminal, g: Value -> Terminal)
    ensures FlatMap(Just(v, p), f) == f(v)
    ensures FlatMap(FlatMap(t, f), g) == FlatMap(t, w => FlatMap(f(w), g))
  {
  }
}
