/** The shapes a perhaps.js instance can take: the lazy `Maybe` facade and
    the two terminals `Just` and `None`, and the tagged fallback candidates
    the `None` scan walks over.
 */
module Instances {
  import opened Config

  /** A fallback candidate. The tag replaces the source's runtime probing
      (`instanceof Maybe`, `typeof === 'function'`) and is authoritative:
      a `Raw` candidate is never called, whatever its value.
      A `Producer` is a zero-argument function; `output` is what it returns
      when called, itself tagged (a raw value, another function, or an instance). */
  datatype Candidate =
    | Raw(v: Value)
    | Producer(fn: nat, output: Candidate)
    | Nested(m: Monad)

  /** The two terminal variants. Instance identity is modelled as value
      equality: two `None`s with the same params are the same instance here. */
  datatype Terminal =
    | Just(value: Value, params: Opt<Params>)
    | None(params: Opt<Params>)

  /** The memo cell of a facade: no producer at all, a producer not yet
      called (with the candidate it will return), or the cached terminal. */
  datatype State = Bare | Pending(output: Candidate) | Cached(t: Terminal)

  /** The lazy `Maybe` facade; `calls` counts how often its producer has run. */
  datatype Facade = Facade(params: Opt<Params>, state: State, calls: nat)

  /** `Monad<T> = Maybe<T> | Just<T> | None<T>`. */
  datatype Monad = Lazy(f: Facade) | Term(t: Terminal)

  /** What a custom resolve hook returns: a terminal, or anything else. */
  datatype Hook = HookTerminal(t: Terminal) | HookOther

  /** The custom resolve hooks of the program, by the id a `Custom` resolver names. */
  type Hooks = (nat, Monad) -> Hook
}
