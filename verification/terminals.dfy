/** The public methods of the two terminal variants, `Just` and `None`,
    as functions over `Terminal`. A `Just` ignores every fallback; a `None`
    runs the fallback engine.
 */
module Terminals {
  import opened Config
  import opened Instances
  import opened Fallback

  /** The argument of `expected(message?)`: nothing, a message string, or a
      function, which is called and whose return value is thrown. */
  datatype Message = NoMessage | Text(s: string) | Thrower(thrown: Value)

  /** The outcome of `map`: the returned terminal, and the value the mapper
      was called with, if it was called at all. */
  datatype Mapped = Mapped(result: Terminal, mapperArg: Opt<Value>)

  /** `get(transformer?)`: the held value, transformed when a transformer is
      given; on a `None` it raises `EmptyMonadError`. */
  function Get(t: Terminal, transformer: Opt<Value -> Value>): (r: Result<Value>)
    ensures t.None? <==> r == Err(EmptyMonadError(Omitted))
    ensures t.Just? && transformer.Omitted? ==> r == Ok(t.value)
    ensures t.Just? && transformer.Given? ==> r == Ok(transformer.value(t.value))
  {
    match t
    case None(_) => Err(EmptyMonadError(Omitted))
    case Just(v, _) =>
      match transformer
      case Given(tr) => Ok(tr(v))
      case Omitted => Ok(v)
  }

  /** `raw(transformer?)`: like `get`, but a `None` yields `undefined` (or the
      transformer applied to `undefined`) instead of raising. */
  function RawOf(t: Terminal, transformer: Opt<Value -> Value>): (r: Value)
    ensures t.Just? ==> Get(t, transformer) == Ok(r)
    ensures t.None? && transformer.Omitted? ==> r == Undef
    ensures t.None? && transformer.Given? ==> r == transformer.value(Undef)
  {
    var v := if t.Just? then t.value else Undef;
    match transformer
    case Given(tr) => tr(v)
    case Omitted => v
  }

  /** `isEmpty()`: whether the terminal is a `None`, whatever a `Just` holds. */
  function IsEmpty(t: Terminal): (r: bool)
    ensures r <==> Get(t, Omitted).Err?
  {
    t.None?
  }

  /** `expected(message?)`: a `Just` is returned as it is; a `None` always
      raises, the message function's own value if one was given. */
  function Expected(t: Terminal, message: Message): (r: Result<Terminal>)
    ensures t.Just? <==> r == Ok(t)
    ensures t.None? && message.Thrower? ==> r == Err(UserThrown(message.thrown))
    ensures t.None? && message.Text? ==> r == Err(EmptyMonadError(Given(message.s)))
    ensures t.None? && message.NoMessage? ==> r == Err(EmptyMonadError(Omitted))
  {
    match t
    case Just(_, _) => Ok(t)
    case None(_) =>
      match message
      case Thrower(v) => Err(UserThrown(v))
      case Text(s) => Err(EmptyMonadError(Given(s)))
      case NoMessage => Err(EmptyMonadError(Omitted))
  }

  /** `or(...cands)`: producers are not called. */
  function Or(t: Terminal, cands: seq<Candidate>, hooks: Hooks): (r: Result<Terminal>)
    ensures t.Just? ==> r == Ok(t)
    ensures t.None? ==> r == Scan(t.params, false, cands, hooks)
    ensures r.Ok? ==> r.value.Just? || r.value == t
  {
    match t
    case Just(_, _) => Ok(t)
    case None(p) => Scan(p, false, cands, hooks)
  }

  /** `orGet(...cands)`: each producer reached by the scan is called. */
  function OrGet(t: Terminal, cands: seq<Candidate>, hooks: Hooks): (r: Result<Terminal>)
    ensures t.Just? ==> r == Ok(t)
    ensures t.None? ==> r == Scan(t.params, true, cands, hooks)
    ensures r.Ok? ==> r.value.Just? || r.value == t
  {
    match t
    case Just(_, _) => Ok(t)
    case None(p) => Scan(p, true, cands, hooks)
  }

  /** `just(...cands)`: like `or`, but never returns a `None`. */
  function JustOf(t: Terminal, cands: seq<Candidate>, hooks: Hooks): (r: Result<Terminal>)
    ensures r.Ok? ==> r.value.Just?
    ensures t.Just? ==> r == Ok(t)
    ensures r == Err(EmptyMonadError(Omitted)) <==> Or(t, cands, hooks) == Ok(None(t.params))
    ensures Or(t, cands, hooks).Ok? && Or(t, cands, hooks).value.Just? ==> r == Or(t, cands, hooks)
    ensures Or(t, cands, hooks).Err? ==> r == Or(t, cands, hooks)
  {
    match t
    case Just(_, _) => Ok(t)
    case None(p) => DoJust(p, false, cands, hooks)
  }

  /** `justGet(...cands)`: like `orGet`, but never returns a `None`. */
  function JustGetOf(t: Terminal, cands: seq<Candidate>, hooks: Hooks): (r: Result<Terminal>)
    ensures r.Ok? ==> r.value.Just?
    ensures t.Just? ==> r == Ok(t)
    ensures r == Err(EmptyMonadError(Omitted)) <==> OrGet(t, cands, hooks) == Ok(None(t.params))
    ensures OrGet(t, cands, hooks).Ok? && OrGet(t, cands, hooks).value.Just? ==> r == OrGet(t, cands, hooks)
    ensures OrGet(t, cands, hooks).Err? ==> r == OrGet(t, cands, hooks)
  {
    match t
    case Just(_, _) => Ok(t)
    case None(p) => DoJust(p, true, cands, hooks)
  }

  /** `map(mapper)` as written. On a `Just` the mapper is called and its
      value handed to `this.or(...)`, which is the identity on a `Just`: the
      mapped value is discarded (suspect). On a `None` the mapper is not called. */
  function Map(t: Terminal, mapper: Value -> Candidate, hooks: Hooks): (r: Mapped)
    ensures r.result == t
    ensures t.Just? ==> r.mapperArg == Given(t.value)
    ensures t.None? <==> r.mapperArg.Omitted?
  {
    match t
    case Just(v, _) =>
      var mapped := mapper(v);
      (match Or(t, [mapped], hooks)
       case Ok(r) => Mapped(r, Given(v))
       case Err(_) => assert false; Mapped(t, Given(v)))
    case None(_) => Mapped(t, Omitted)
  }

  /** `flatMap(mapper)`: on a `Just` the mapper's terminal is returned
      unchanged; a `None` is returned without calling the mapper. */
  function FlatMap(t: Terminal, mapper: Value -> Terminal): (r: Terminal)
    ensures t.Just? ==> r == mapper(t.value)
    ensures t.None? ==> r == t
  {
    match t
    case Just(v, _) => mapper(v)
    case None(_) => t
  }
}
