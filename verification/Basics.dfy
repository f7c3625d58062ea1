/** Small definitions shared by the models. */
module Basics {
  /** A value that may be absent. */
  datatype Option<T> = None | Some(value: T)

  function Larger(a: nat, b: nat): nat { if a < b then b else a }

  /** The parts one behind the other. */
  function Joined<T>(parts: seq<seq<T>>): seq<T> {
    if parts == [] then [] else parts[0] + Joined(parts[1..])
  }

  lemma Cut<T>(x: T, rest: seq<T>)
    ensures ([x] + rest)[0] == x && ([x] + rest)[1..] == rest
  {
  }

  lemma Join<T>(s: seq<T>, a: nat, b: nat, c: nat)
    requires a <= b <= c <= |s|
    ensures s[a..b] + s[b..c] == s[a..c]
  {
  }
}
