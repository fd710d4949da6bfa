/** The library's own "Default Nothing" test case, restated on the model:
    a default `None`, a `Just(true)`, and three producers (one returning the
    payload, one returning the `Just`, one returning another `None`).
 */
module SuiteExamples {
  import opened Config
  import opened Instances
  import opened Fallback
  import opened Terminals
  import opened Facades
  import opened ScanProperties

  const Hooks0: Hooks := (id: nat, m: Monad) => HookOther

  const Payload: Value := Bool(true)
  const NoneD: Terminal := None(Omitted)
  const JustD: Terminal := Just(Payload, Omitted)
  const Getter: Candidate := Producer(1, Raw(Payload))
  const JustGetter: Candidate := Producer(2, Nested(Term(JustD)))
  const NothingGetter: Candidate := Producer(3, Nested(Term(NoneD)))

  lemma DefaultNothingOr()
    ensures Of(Raw(Payload), Omitted, Hooks0) == Ok(JustD)
    ensures Or(NoneD, [], Hooks0) == Ok(NoneD)
    ensures Or(NoneD, [Nested(Term(NoneD))], Hooks0) == Ok(NoneD)
    ensures Or(NoneD, [Nested(Term(JustD))], Hooks0) == Ok(JustD)
    ensures Or(NoneD, [Raw(Payload)], Hooks0) == Ok(JustD)
    ensures Or(NoneD, [Getter], Hooks0) == Ok(Just(Func(1), Omitted))
    ensures Or(NoneD, [JustGetter], Hooks0) == Ok(Just(Func(2), Omitted))
    ensures Or(NoneD, [NothingGetter], Hooks0) == Ok(Just(Func(3), Omitted))
  {
    ScanSingle(Omitted, false, Raw(Payload), Hooks0);
    ScanSingle(Omitted, false, Nested(Term(NoneD)), Hooks0);
    ScanSingle(Omitted, false, Nested(Term(JustD)), Hooks0);
    ScanSingle(Omitted, false, Getter, Hooks0);
    ScanSingle(Omitted, false, JustGetter, Hooks0);
    ScanSingle(Omitted, false, NothingGetter, Hooks0);
  }

  lemma DefaultNothingOrGet()
    ensures OrGet(NoneD, [], Hooks0) == Ok(NoneD)
    ensures OrGet(NoneD, [Nested(Term(NoneD))], Hooks0) == Ok(NoneD)
    ensures OrGet(NoneD, [Nested(Term(JustD))], Hooks0) == Ok(JustD)
    ensures OrGet(NoneD, [Raw(Payload)], Hooks0) == Ok(JustD)
    ensures Get(JustD, Omitted) == Ok(Payload)
    ensures OrGet(NoneD, [Getter], Hooks0) == Ok(JustD)
    ensures OrGet(NoneD, [JustGetter], Hooks0) == Ok(JustD)
    ensures OrGet(NoneD, [NothingGetter], Hooks0) == Ok(NoneD)
  {
    ScanSingle(Omitted, true, Nested(Term(NoneD)), Hooks0);
    ScanSingle(Omitted, true, Raw(Payload), Hooks0);
    ScanSingle(Omitted, true, Nested(Term(JustD)), Hooks0);
    ScanSingle(Omitted, true, Getter, Hooks0);
    ScanSingle(Omitted, true, JustGetter, Hooks0);
    ScanSingle(Omitted, true, NothingGetter, Hooks0);
  }

  lemma DefaultNothingJust()
    ensures JustOf(NoneD, [], Hooks0) == Err(EmptyMonadError(Omitted))
    ensures JustOf(NoneD, [Nested(Term(NoneD))], Hooks0) == Err(EmptyMonadError(Omitted))
    ensures JustOf(NoneD, [Nested(Term(JustD))], Hooks0) == Ok(JustD)
    ensures JustOf(NoneD, [Raw(Payload)], Hooks0) == Ok(JustD)
    ensures JustOf(NoneD, [Getter], Hooks0) == Ok(Just(Func(1), Omitted))
    ensures JustOf(NoneD, [JustGetter], Hooks0) == Ok(Just(Func(2), Omitted))
    ensures JustOf(NoneD, [NothingGetter], Hooks0) == Ok(Just(Func(3), Omitted))
    ensures JustGetOf(NoneD, [], Hooks0) == Err(EmptyMonadError(Omitted))
    ensures JustGetOf(NoneD, [Nested(Term(NoneD))], Hooks0) == Err(EmptyMonadError(Omitted))
    ensures JustGetOf(NoneD, [Nested(Term(JustD))], Hooks0) == Ok(JustD)
    ensures JustGetOf(NoneD, [Raw(Payload)], Hooks0) == Ok(JustD)
    ensures JustGetOf(NoneD, [Getter], Hooks0) == Ok(JustD)
    ensures JustGetOf(NoneD, [JustGetter], Hooks0) == Ok(JustD)
    ensures JustGetOf(NoneD, [NothingGetter], Hooks0) == Err(EmptyMonadError(Omitted))
  {
    ScanSingle(Omitted, false, Nested(Term(NoneD)), Hooks0);
    ScanSingle(Omitted, false, Nested(Term(JustD)), Hooks0);
    ScanSingle(Omitted, false, Raw(Payload), Hooks0);
    ScanSingle(Omitted, false, Getter, Hooks0);
    ScanSingle(Omitted, false, JustGetter, Hooks0);
    ScanSingle(Omitted, false, NothingGetter, Hooks0);
    ScanSingle(Omitted, true, Nested(Term(NoneD)), Hooks0);
    ScanSingle(Omitted, true, Nested(Term(JustD)), Hooks0);
    ScanSingle(Omitted, true, Raw(Payload), Hooks0);
    ScanSingle(Omitted, true, Getter, Hooks0);
    ScanSingle(Omitted, true, JustGetter, Hooks0);
    ScanSingle(Omitted, true, NothingGetter, Hooks0);
  }

  /** Candidate order matters: two empty candidates, then 5 and 6, gives 5; swapped, 6. */
  lemma OrderIsLeftToRight()
    ensures Or(NoneD, [Raw(Undef), Nested(Term(NoneD)), Raw(Num(5)), Raw(Num(6))], Hooks0) == Ok(Just(Num(5), Omitted))
    ensures Or(NoneD, [Raw(Undef), Nested(Term(NoneD)), Raw(Num(6)), Raw(Num(5))], Hooks0) == Ok(Just(Num(6), Omitted))
  {
    var a := [Raw(Undef), Nested(Term(NoneD)), Raw(Num(5)), Raw(Num(6))];
    var b := [Raw(Undef), Nested(Term(NoneD)), Raw(Num(6)), Raw(Num(5))];
    assert StepOf(Omitted, false, a[1], Hooks0) == Adopt(NoneD);
    FirstPresentRawWins(Omitted, false, a, Hooks0, 2);
    FirstPresentRawWins(Omitted, false, b, Hooks0, 2);
  }

  /** A nested `Just` does not stop the scan: a later nested `None` resets
      the result to the receiver (suspect, kept as written). */
  lemma LaterNoneUndoesNestedJust()
    ensures Or(NoneD, [Nested(Term(JustD)), Nested(Term(NoneD))], Hooks0) == Ok(NoneD)
  {
    var a := [Nested(Term(JustD)), Nested(Term(NoneD))];
    assert StepOf(Omitted, false, a[1], Hooks0) == Adopt(NoneD);
    ScanLastAdoptionDecides(Omitted, false, a, NoneD, Hooks0, 1);
  }

  /** A lazy facade whose producer returns a function resolves to a `Just`
      of that function: `resolved()` uses `or`, not `orGet`. */
  lemma LazyProducerReturningFunction()
    ensures Resolved(LazyOf(Given(Getter), Omitted), Hooks0).res == Ok(Just(Func(1), Omitted))
  {
  }
}
