/** Limits and types that several files of the kernel share (param.h, types.h), and sequences
    of steps. */
module Param {
  const MAXOPBLOCKS: nat := 10
  const LOGSIZE: nat := 3 * MAXOPBLOCKS

  /** Numbers of 32 bits lie below UINT. */
  const UINT: nat := 0x1_0000_0000

  type byte = x: int | 0 <= x < 0x100
  type word = x: int | 0 <= x < UINT
}

/** Runs are sequences of steps; their proofs take off the last one. */
module Steps {
  function Front<T>(steps: seq<T>): (r: seq<T>)
    requires steps != []
    ensures |r| == |steps| - 1
  {
    steps[..|steps| - 1]
  }

  function Last<T>(steps: seq<T>): T
    requires steps != []
  {
    steps[|steps| - 1]
  }

  lemma FrontLast<T>(steps: seq<T>, e: T)
    ensures Front(steps + [e]) == steps && Last(steps + [e]) == e
  {
  }
}
