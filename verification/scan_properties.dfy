/** What the `None` fallback scan computes, stated without its loop: the
    first candidate that stops the scan decides; otherwise the last one that
    replaced the running result; otherwise the receiver itself. And how
    `or` and `orGet` differ: only in whether producers are called.
 */
module ScanProperties {
  import opened Config
  import opened Instances
  import opened Fallback

  /** The scan stops at candidate `i` and nowhere before it. */
  ghost predicate FirstStopAt(home: Opt<Params>, evaluating: bool, cands: seq<Candidate>, hooks: Hooks, i: nat) {
    && i < |cands|
    && (forall k :: 0 <= k < i ==> !Stops(StepOf(home, evaluating, cands[k], hooks)))
    && Stops(StepOf(home, evaluating, cands[i], hooks))
  }

  /** The first candidate that stops the scan decides its result: a present
      raw value gives its new `Just`, a raising one its error; neither the
      running result nor any later candidate matters. */
  lemma {:induction false} ScanFirstStopDecides(
    home: Opt<Params>, evaluating: bool, cands: seq<Candidate>, running: Terminal, hooks: Hooks, i: nat)
    requires FirstStopAt(home, evaluating, cands, hooks, i)
    ensures ScanFrom(home, evaluating, cands, running, hooks) == Settle(home, StepOf(home, evaluating, cands[i], hooks))
    decreases i
  {
    if i > 0 {
      var s := StepOf(home, evaluating, cands[0], hooks);
      var next := if s.Adopt? then s.t else running;
      assert !Stops(s);
      forall k | 0 <= k < i - 1
        ensures !Stops(StepOf(home, evaluating, cands[1..][k], hooks))
      {
        assert cands[1..][k] == cands[k + 1];
      }
      assert cands[1..][i - 1] == cands[i];
      ScanFirstStopDecides(home, evaluating, cands[1..], next, hooks, i - 1);
    }
  }

  /** When no candidate does anything, the running result comes out unchanged. */
  lemma {:induction false} ScanAllSkipped(
    home: Opt<Params>, evaluating: bool, cands: seq<Candidate>, running: Terminal, hooks: Hooks)
    requires forall k :: 0 <= k < |cands| ==> StepOf(home, evaluating, cands[k], hooks).Skip?
    ensures ScanFrom(home, evaluating, cands, running, hooks) == Ok(running)
    decreases |cands|
  {
    if |cands| > 0 {
      assert StepOf(home, evaluating, cands[0], hooks).Skip?;
      forall k | 0 <= k < |cands| - 1
        ensures StepOf(home, evaluating, cands[1..][k], hooks).Skip?
      {
        assert cands[1..][k] == cands[k + 1];
      }
      ScanAllSkipped(home, evaluating, cands[1..], running, hooks);
    }
  }

  /** When nothing stops the scan, the last candidate that replaced the
      running result (a nested or produced instance) decides it. */
  lemma {:induction false} ScanLastAdoptionDecides(
    home: Opt<Params>, evaluating: bool, cands: seq<Candidate>, running: Terminal, hooks: Hooks, i: nat)
    requires i < |cands|
    requires forall k :: 0 <= k < i ==> !Stops(StepOf(home, evaluating, cands[k], hooks))
    requires StepOf(home, evaluating, cands[i], hooks).Adopt?
    requires forall k :: i < k < |cands| ==> StepOf(home, evaluating, cands[k], hooks).Skip?
    ensures ScanFrom(home, evaluating, cands, running, hooks) == Ok(StepOf(home, evaluating, cands[i], hooks).t)
    decreases i
  {
    var s := StepOf(home, evaluating, cands[0], hooks);
    var next := if s.Adopt? then s.t else running;
    forall k | i - 1 < k < |cands| - 1
      ensures StepOf(home, evaluating, cands[1..][k], hooks).Skip?
    {
      assert cands[1..][k] == cands[k + 1];
    }
    if i == 0 {
      ScanAllSkipped(home, evaluating, cands[1..], next, hooks);
    } else {
      assert !Stops(s);
      forall k | 0 <= k < i - 1
        ensures !Stops(StepOf(home, evaluating, cands[1..][k], hooks))
      {
        assert cands[1..][k] == cands[k + 1];
      }
      assert cands[1..][i - 1] == cands[i];
      ScanLastAdoptionDecides(home, evaluating, cands[1..], next, hooks, i - 1);
    }
  }

  /** Every candidate is absent: an empty raw value, or an instance that
      resolves to a `None`. */
  ghost predicate AllAbsent(home: Opt<Params>, evaluating: bool, cands: seq<Candidate>, hooks: Hooks) {
    forall k :: 0 <= k < |cands| ==>
      var s := StepOf(home, evaluating, cands[k], hooks);
      s.Skip? || (s.Adopt? && s.t.None?)
  }

  lemma {:induction false} ScanFromReceiverWhenAllAbsent(
    home: Opt<Params>, evaluating: bool, cands: seq<Candidate>, hooks: Hooks)
    requires AllAbsent(home, evaluating, cands, hooks)
    ensures ScanFrom(home, evaluating, cands, None(home), hooks) == Ok(None(home))
    decreases |cands|
  {
    if |cands| > 0 {
      var s := StepOf(home, evaluating, cands[0], hooks);
      assert s.Skip? || s == Adopt(None(home));
      forall k | 0 <= k < |cands| - 1
        ensures var s := StepOf(home, evaluating, cands[1..][k], hooks); s.Skip? || (s.Adopt? && s.t.None?)
      {
        assert cands[1..][k] == cands[k + 1];
      }
      ScanFromReceiverWhenAllAbsent(home, evaluating, cands[1..], hooks);
    }
  }

  /** The scan returns the receiver itself when the list is empty, holds only
      empty raw values, or only instances that resolve to a `None`, in any mix. */
  lemma ScanReceiverWhenAllAbsent(home: Opt<Params>, evaluating: bool, cands: seq<Candidate>, hooks: Hooks)
    requires AllAbsent(home, evaluating, cands, hooks)
    ensures Scan(home, evaluating, cands, hooks) == Ok(None(home))
  {
    ScanFromReceiverWhenAllAbsent(home, evaluating, cands, hooks);
  }

  lemma {:induction false} ScanFromAbsentOnlyIfNothingStops(
    home: Opt<Params>, evaluating: bool, cands: seq<Candidate>, running: Terminal, hooks: Hooks)
    requires ScanFrom(home, evaluating, cands, running, hooks) == Ok(None(home))
    ensures forall k :: 0 <= k < |cands| ==> !Stops(StepOf(home, evaluating, cands[k], hooks))
    decreases |cands|
  {
    if |cands| > 0 {
      var s := StepOf(home, evaluating, cands[0], hooks);
      assert !Stops(s);
      var next := if s.Adopt? then s.t else running;
      ScanFromAbsentOnlyIfNothingStops(home, evaluating, cands[1..], next, hooks);
      forall k | 0 <= k < |cands|
        ensures !Stops(StepOf(home, evaluating, cands[k], hooks))
      {
        if k > 0 {
          assert cands[k] == cands[1..][k - 1];
        }
      }
    }
  }

  /** Conversely, a scan that returns a `None` saw no present raw value and no error. */
  lemma ScanAbsentOnlyIfNothingStops(home: Opt<Params>, evaluating: bool, cands: seq<Candidate>, hooks: Hooks)
    requires Scan(home, evaluating, cands, hooks) == Ok(None(home))
    ensures forall k :: 0 <= k < |cands| ==> !Stops(StepOf(home, evaluating, cands[k], hooks))
  {
    ScanFromAbsentOnlyIfNothingStops(home, evaluating, cands, None(home), hooks);
  }

  /** The first raw value that is neither `undefined` nor empty under the
      receiver's policy becomes a new `Just` with the receiver's params,
      provided no earlier candidate raised. */
  lemma FirstPresentRawWins(home: Opt<Params>, evaluating: bool, cands: seq<Candidate>, hooks: Hooks, i: nat)
    requires i < |cands| && cands[i].Raw?
    requires cands[i].v != Undef && !ParamsOrDefault(home).isEmpty(cands[i].v)
    requires forall k :: 0 <= k < i ==> !Stops(StepOf(home, evaluating, cands[k], hooks))
    ensures Scan(home, evaluating, cands, hooks) == Ok(Just(cands[i].v, home))
  {
    ScanFirstStopDecides(home, evaluating, cands, None(home), hooks, i);
  }

  /** Candidates after the one that stops the scan are never examined. */
  lemma ScanIgnoresLaterCandidates(
    home: Opt<Params>, evaluating: bool, cands: seq<Candidate>, rest: seq<Candidate>, hooks: Hooks, i: nat)
    requires FirstStopAt(home, evaluating, cands, hooks, i)
    ensures Scan(home, evaluating, cands + rest, hooks) == Scan(home, evaluating, cands, hooks)
  {
    forall k | 0 <= k <= i
      ensures (cands + rest)[k] == cands[k]
    {
    }
    ScanFirstStopDecides(home, evaluating, cands, None(home), hooks, i);
    ScanFirstStopDecides(home, evaluating, cands + rest, None(home), hooks, i);
  }

  /** Two candidate lists whose candidates act alike, position by position. */
  ghost predicate SameSteps(
    home: Opt<Params>, e1: bool, a: seq<Candidate>, e2: bool, b: seq<Candidate>, hooks: Hooks) {
    && |a| == |b|
    && forall k :: 0 <= k < |a| ==> StepOf(home, e1, a[k], hooks) == StepOf(home, e2, b[k], hooks)
  }

  lemma {:induction false} ScanCongruence(
    home: Opt<Params>, e1: bool, a: seq<Candidate>, e2: bool, b: seq<Candidate>, running: Terminal, hooks: Hooks)
    requires SameSteps(home, e1, a, e2, b, hooks)
    ensures ScanFrom(home, e1, a, running, hooks) == ScanFrom(home, e2, b, running, hooks)
    decreases |a|
  {
    if |a| > 0 {
      var s := StepOf(home, e1, a[0], hooks);
      assert s == StepOf(home, e2, b[0], hooks);
      var next := if s.Adopt? then s.t else running;
      forall k | 0 <= k < |a| - 1
        ensures StepOf(home, e1, a[1..][k], hooks) == StepOf(home, e2, b[1..][k], hooks)
      {
        assert a[1..][k] == a[k + 1] && b[1..][k] == b[k + 1];
      }
      ScanCongruence(home, e1, a[1..], e2, b[1..], next, hooks);
    }
  }

  /** A producer as `or` sees it: the function reference itself, never called. */
  function Uncalled(c: Candidate): Candidate {
    if c.Producer? then Raw(Func(c.fn)) else c
  }

  /** A producer as `orGet` sees it: what it returns when called. */
  function Called(c: Candidate): Candidate {
    if c.Producer? then c.output else c
  }

  /** `or` never calls a function candidate: its result is the scan in which
      every producer is replaced by the bare function value, so what the
      producers would return cannot influence it. */
  lemma OrNeverCallsProducers(home: Opt<Params>, cands: seq<Candidate>, hooks: Hooks)
    ensures Scan(home, false, cands, hooks)
         == Scan(home, false, seq(|cands|, k requires 0 <= k < |cands| => Uncalled(cands[k])), hooks)
  {
    var plain := seq(|cands|, k requires 0 <= k < |cands| => Uncalled(cands[k]));
    ScanCongruence(home, false, cands, false, plain, None(home), hooks);
  }

  /** `orGet` calls each producer it reaches and treats the returned value as
      an uncalled candidate of `or` (a returned instance is resolved, a
      returned function is kept as a value). */
  lemma OrGetCallsProducers(home: Opt<Params>, cands: seq<Candidate>, hooks: Hooks)
    ensures Scan(home, true, cands, hooks)
         == Scan(home, false, seq(|cands|, k requires 0 <= k < |cands| => Called(cands[k])), hooks)
  {
    var outputs := seq(|cands|, k requires 0 <= k < |cands| => Called(cands[k]));
    forall k | 0 <= k < |cands|
      ensures StepOf(home, true, cands[k], hooks) == StepOf(home, false, outputs[k], hooks)
    {
      match cands[k]
      case Raw(_) =>
      case Producer(_, _) =>
      case Nested(_) =>
    }
    ScanCongruence(home, true, cands, false, outputs, None(home), hooks);
  }

  /** A nested candidate is resolved with the receiver's resolver: a `Just`
      becomes the running result as it is, a `None` resets it to the
      receiver, anything else raises `MonadResolutionError`; in the first two
      cases the scan goes on with the next candidate. */
  lemma NestedCandidateContinues(
    home: Opt<Params>, evaluating: bool, m: Monad, rest: seq<Candidate>, running: Terminal, hooks: Hooks)
    ensures DoResolve(home, m, hooks).Err? ==>
      ScanFrom(home, evaluating, [Nested(m)] + rest, running, hooks) == DoResolve(home, m, hooks)
    ensures DoResolve(home, m, hooks).Ok? ==>
      ScanFrom(home, evaluating, [Nested(m)] + rest, running, hooks)
        == ScanFrom(home, evaluating, rest, DoResolve(home, m, hooks).value, hooks)
  {
    assert ([Nested(m)] + rest)[0] == Nested(m);
    assert ([Nested(m)] + rest)[1..] == rest;
  }
}
