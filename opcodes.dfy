/**
 * The contract of `difflib.SequenceMatcher.get_opcodes()`, which the merge and
 * text-diff engines consume. The matcher itself is not modelled: its output is
 * a parameter, and `OpcodesValid` states what difflib guarantees about it.
 */
module Opcodes {

  datatype Tag = Equal | Replace | Delete | Insert

  /** `(tag, i1, i2, j1, j2)`: `a[i1:i2]` becomes `b[j1:j2]`. */
  datatype Opcode = Opcode(tag: Tag, i1: int, i2: int, j1: int, j2: int)

  /** One opcode's shape: the ranges agree with the tag, and equal ranges hold equal, non-empty content. */
  predicate OpcodeValid<T(==)>(op: Opcode, a: seq<T>, b: seq<T>)
  {
    0 <= op.i1 <= op.i2 <= |a| && 0 <= op.j1 <= op.j2 <= |b|
    && match op.tag
       case Equal => op.i2 - op.i1 == op.j2 - op.j1 && op.i1 < op.i2 && a[op.i1..op.i2] == b[op.j1..op.j2]
       case Replace => op.i1 < op.i2 && op.j1 < op.j2
       case Delete => op.i1 < op.i2 && op.j1 == op.j2
       case Insert => op.i1 == op.i2 && op.j1 < op.j2
  }

  /**
   * What `get_opcodes()` returns for `a` and `b`: opcodes that cover both
   * sequences from the start without gaps, and never two non-equal opcodes in a
   * row (difflib puts at most one between two matching blocks).
   */
  predicate OpcodesValid<T(==)>(ops: seq<Opcode>, a: seq<T>, b: seq<T>)
  {
    (forall k :: 0 <= k < |ops| ==> OpcodeValid(ops[k], a, b))
    && (ops == [] ==> |a| == 0 && |b| == 0)
    && (ops != [] ==> ops[0].i1 == 0 && ops[0].j1 == 0
                      && ops[|ops| - 1].i2 == |a| && ops[|ops| - 1].j2 == |b|)
    && (forall k :: 0 <= k < |ops| - 1 ==> ops[k].i2 == ops[k + 1].i1 && ops[k].j2 == ops[k + 1].j1)
    && (forall k :: 0 <= k < |ops| - 1 ==> ops[k].tag == Equal || ops[k + 1].tag == Equal)
  }
}
