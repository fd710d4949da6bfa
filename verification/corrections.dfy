/** Two methods whose code does something other than what their shape
    promises, each with an input that shows it and the evidently intended
    definition with its property proved: `Just.map`, whose mapped value is
    discarded, and `visit`, whose present handler can never run.
 */
module Corrections {
  import opened Config
  import opened Instances
  import opened Fallback
  import opened Terminals
  import opened Facades

  /** A resolver environment in which every custom hook answers "not a terminal". */
  const NoHooks: Hooks := (id: nat, m: Monad) => HookOther

  /** `map` as evidently intended: the mapped value is re-scanned by an
      absent terminal with the same params, so a `Just` maps to a `Just` of
      the mapped value, or to a `None` when that value is empty. */
  function MapIntended(t: Terminal, mapper: Value -> Candidate, hooks: Hooks): (r: Result<Terminal>)
    ensures t.None? ==> r == Ok(t)
    ensures r.Ok? ==> r.value.Just? || r.value == None(t.params)
    ensures t.Just? && mapper(t.value).Raw? ==>
      var w := mapper(t.value).v;
      r == (if w != Undef && !ParamsOrDefault(t.params).isEmpty(w) then Ok(Just(w, t.params)) else Ok(None(t.params)))
  {
    match t
    case None(_) => Ok(t)
    case Just(v, p) =>
      ScanSingle(p, false, mapper(v), hooks);
      Or(None(p), [mapper(v)], hooks)
  }

  /** As written, mapping `Just(5)` to `null` keeps `Just(5)`; as intended it gives a `None`. */
  lemma MapDiscardsMappedValue()
    ensures Map(Just(Num(5), Omitted), v => Raw(Null), NoHooks).result == Just(Num(5), Omitted)
    ensures MapIntended(Just(Num(5), Omitted), v => Raw(Null), NoHooks) == Ok(None(Omitted))
    ensures Map(Just(Num(5), Omitted), v => Raw(Num(6)), NoHooks).result == Just(Num(5), Omitted)
    ensures MapIntended(Just(Num(5), Omitted), v => Raw(Num(6)), NoHooks) == Ok(Just(Num(6), Omitted))
  {
  }

  /** `visit` as evidently intended: a symmetric visitor that calls the
      handler matching the resolved variant, if supplied, and never raises. */
  function VisitIntended(t: Terminal, visitor: Visitor): (r: Visited)
    ensures r.res == Ok(t)
    ensures r.called == CalledNone <==> t.None? && visitor.hasNone
    ensures t.Just? ==> (r.called == CalledJust(t.value) <==> visitor.hasJust)
    ensures r.called == NoCallback <==> (t.Just? && !visitor.hasJust) || (t.None? && !visitor.hasNone)
  {
    match t
    case Just(v, _) => Visited(Ok(t), if visitor.hasJust then CalledJust(v) else NoCallback)
    case None(_) => Visited(Ok(t), if visitor.hasNone then CalledNone else NoCallback)
  }

  /** As written, `ifPresent` on `Just(5)` does not call its handler, and on
      a `None` it raises `EmptyMonadError`; as intended, the first calls the
      handler with 5 and the second does nothing. */
  lemma IfPresentNeverRuns()
    ensures IfPresent(Term(Just(Num(5), Omitted)), NoHooks).0.called == NoCallback
    ensures VisitIntended(Just(Num(5), Omitted), Visitor(true, false)).called == CalledJust(Num(5))
    ensures IfPresent(Term(None(Omitted)), NoHooks).0.res == Err(EmptyMonadError(Omitted))
    ensures VisitIntended(None(Omitted), Visitor(true, false)) == Visited(Ok(None(Omitted)), NoCallback)
  {
  }
}
