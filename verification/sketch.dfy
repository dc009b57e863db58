/** The distinct-value estimator (a mergeable bit-vector sketch) is a
    collaborator whose internals are not part of this model. It is given to the
    engine as a record of uninterpreted operations over an abstract sketch
    type `S`:
      - `decode`: the estimator built from a partition's serialised bit vectors,
      - `canMerge`: whether two estimators were built with the same parameters,
      - `merge`: the in-place union, as a function returning the union,
      - `estimate`: the distinct-value estimate of an estimator,
      - `emptyLike`: an empty estimator with the same parameters. */
module Sketch {

  datatype SketchOps<!S> = SketchOps(
    decode: string -> S,
    canMerge: (S, S) -> bool,
    merge: (S, S) -> S,
    estimate: S -> int,
    emptyLike: S -> S)

  /** Merge the decoded sketches of `bits`, left to right, into `acc`. */
  function SketchFold<S>(ops: SketchOps<S>, acc: S, bits: seq<string>): S
    decreases |bits|
  {
    if |bits| == 0 then acc
    else ops.merge(SketchFold(ops, acc, bits[..|bits| - 1]), ops.decode(bits[|bits| - 1]))
  }
}
