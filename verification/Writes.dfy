/** The log_write calls of an operation, in order, and what they make of a disk. */
module Writes {
  import opened Blocks

  datatype Put = Put(bn: nat, data: Block)

  /** d once the writes of w are applied in order. */
  function Applied(d: Image, w: seq<Put>): (e: Image)
    ensures |e| == |d|
  {
    if w == [] then d else
    var e, p := Applied(d, w[..|w| - 1]), w[|w| - 1];
    if p.bn < |e| then e[p.bn := p.data] else e
  }

  /** The blocks written. */
  function Targets(w: seq<Put>): set<nat> {
    if w == [] then {} else Targets(w[..|w| - 1]) + {w[|w| - 1].bn}
  }

  lemma {:induction false} AppliedJoin(d: Image, a: seq<Put>, b: seq<Put>)
    ensures Applied(d, a + b) == Applied(Applied(d, a), b)
    decreases |b|
  {
    if b == [] {
      assert a + b == a;
    } else {
      AppliedJoin(d, a, b[..|b| - 1]);
      assert (a + b)[..|a + b| - 1] == a + b[..|b| - 1];
    }
  }

  lemma {:induction false} TargetsJoin(a: seq<Put>, b: seq<Put>)
    ensures Targets(a + b) == Targets(a) + Targets(b)
    decreases |b|
  {
    if b == [] {
      assert a + b == a;
    } else {
      TargetsJoin(a, b[..|b| - 1]);
      assert (a + b)[..|a + b| - 1] == a + b[..|b| - 1];
    }
  }

  lemma AppliedOne(d: Image, bn: nat, data: Block)
    requires bn < |d|
    ensures Applied(d, [Put(bn, data)]) == d[bn := data] && Targets([Put(bn, data)]) == {bn}
  {
    var w := [Put(bn, data)];
    assert w[..0] == [];
  }
}
