/** Generic helpers on sequences. */
module Sequences {

  /** `xs.map(f)`: one entry per element, in order. */
  function Project<T>(xs: seq<T>, f: T -> string): (r: seq<string>)
    ensures |r| == |xs|
    ensures forall i | 0 <= i < |xs| :: r[i] == f(xs[i])
  {
    seq(|xs|, i requires 0 <= i < |xs| => f(xs[i]))
  }
}
