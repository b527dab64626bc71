/** The walk that collects Bitcoin block attestations from a deserialized
    OpenTimestamps tree (index-local.js, `extractBitcoinAttestations`). A node
    of the tree holds its own attestations and an ordered map from operations
    to child timestamps; the walk is pre-order. */
module Attestations {
  import opened Wrappers

  /** An operation of the commitment tree; the walk never looks inside it. */
  datatype Op = Op(tag: string)

  /** An attestation as the library exposes it: a Bitcoin block-header
      attestation has a `height`, other attestations (pending calendar ones)
      have none; `time` is optional. */
  datatype Att = Att(height: Option<int>, time: Option<int>)

  /** A timestamp: its attestations in stored order and its `ops` map, whose
      entries the walk visits in insertion order. */
  datatype Node = Node(attestations: seq<Att>, ops: seq<(Op, Node)>)

  /** `{blockHeight: att.height, blockTime: att.time || null}`. */
  datatype Found = Found(blockHeight: int, blockTime: Option<int>)

  /** `att.time || null`: an absent time and a time of 0 both become `null`. */
  function TimeOrNull(t: Option<int>): (r: Option<int>)
    ensures r.Some? <==> t.Some? && t.value != 0
    ensures r.Some? ==> r == t
  {
    if t.Some? && t.value != 0 then t else None
  }

  /** What one attestation contributes: nothing unless it has a height. */
  function FoundOf(att: Att): (r: seq<Found>)
    ensures |r| <= 1
    ensures r != [] <==> att.height.Some?
    ensures r != [] ==> r[0].blockHeight == att.height.value && r[0].blockTime == TimeOrNull(att.time)
  {
    if att.height.Some? then [Found(att.height.value, TimeOrNull(att.time))] else []
  }

  /** The records pushed for a node's own attestations, in stored order. */
  function OwnFound(atts: seq<Att>): (r: seq<Found>)
    ensures |r| <= |atts|
  {
    if atts == [] then []
    else OwnFound(atts[..|atts| - 1]) + FoundOf(atts[|atts| - 1])
  }

  /** The child timestamps, in `ops` order. */
  function Children(n: Node): (r: seq<Node>)
    ensures |r| == |n.ops|
  {
    seq(|n.ops|, i requires 0 <= i < |n.ops| => n.ops[i].1)
  }

  /** `walkTimestamp(ts)` as a value: the node's own records, then those of
      each child in turn. */
  function Walk(n: Node): seq<Found>
    decreases n, |n.ops| + 1
  {
    OwnFound(n.attestations) + WalkOps(n, |n.ops|)
  }

  /** The walks of the first `j` children of `n`, one after the other. */
  function WalkOps(n: Node, j: nat): seq<Found>
    requires j <= |n.ops|
    decreases n, j
  {
    if j == 0 then [] else WalkOps(n, j - 1) + Walk(n.ops[j - 1].1)
  }

  /** The walks of a list of timestamps, one after the other. */
  function WalkAll(ns: seq<Node>): seq<Found>
  {
    if ns == [] then [] else Walk(ns[0]) + WalkAll(ns[1..])
  }

  /** `extractBitcoinAttestations(timestamp)`; `None` is a `null` timestamp. */
  function Extract(root: Option<Node>): seq<Found>
  {
    if root.None? then [] else Walk(root.value)
  }

  /** The nodes of a tree in pre-order: the node, then each child's subtree. */
  function Preorder(n: Node): (r: seq<Node>)
    ensures |r| >= 1 && r[0] == n
    decreases n, |n.ops| + 1
  {
    [n] + PreorderOps(n, |n.ops|)
  }

  /** The pre-order readings of the first `j` children of `n`. */
  function PreorderOps(n: Node, j: nat): seq<Node>
    requires j <= |n.ops|
    decreases n, j
  {
    if j == 0 then [] else PreorderOps(n, j - 1) + Preorder(n.ops[j - 1].1)
  }

  function PreorderAll(ns: seq<Node>): seq<Node>
  {
    if ns == [] then [] else Preorder(ns[0]) + PreorderAll(ns[1..])
  }

  /** The reference reading of the walk: each node's own height-bearing
      attestations, node after node in pre-order. */
  function OwnAll(ns: seq<Node>): seq<Found>
  {
    if ns == [] then [] else OwnFound(ns[0].attestations) + OwnAll(ns[1..])
  }

  // ---------------------------------------------------------------------------
  // The source's walk: recursion pushing into one shared array
  // ---------------------------------------------------------------------------

  /** The first half of `walkTimestamp(ts)`: pushes onto `acc` (the shared
      `attestations` array) a record for each attestation with a height. */
  method PushAttestations(atts: seq<Att>, acc: seq<Found>) returns (out: seq<Found>)
    ensures out == acc + OwnFound(atts)
  {
    out := acc;
    var i := 0;
    while i < |atts|
      invariant 0 <= i <= |atts|
      invariant out == acc + OwnFound(atts[..i])
    {
      PushStep(atts, i, acc, out);
      if atts[i].height.Some? {
        out := out + [Found(atts[i].height.value, TimeOrNull(atts[i].time))];
      }
      i := i + 1;
    }
    assert atts[..i] == atts;
  }

  /** `walkTimestamp(ts)`: the node's own attestations, then a recursive walk
      into each child in `ops` order, all pushed onto `acc`. */
  method WalkTimestamp(ts: Node, acc: seq<Found>) returns (out: seq<Found>)
    ensures out == acc + Walk(ts)
    decreases ts, 1
  {
    out := PushAttestations(ts.attestations, acc);
    out := WalkChildren(ts, out);
    WalkJoin(acc, ts);
  }

  /** The `for (const [op, child] of ts.ops)` loop of `walkTimestamp`. */
  method WalkChildren(ts: Node, own: seq<Found>) returns (out: seq<Found>)
    ensures out == own + WalkOps(ts, |ts.ops|)
    decreases ts, 0
  {
    out := own;
    var j := 0;
    while j < |ts.ops|
      invariant 0 <= j <= |ts.ops|
      invariant out == own + WalkOps(ts, j)
    {
      WalkStep(own, out, ts, j);
      out := WalkTimestamp(ts.ops[j].1, out);
      j := j + 1;
    }
  }

  /** One more child walked onto the accumulator. */
  lemma WalkStep(own: seq<Found>, out: seq<Found>, n: Node, j: nat)
    requires j < |n.ops| && out == own + WalkOps(n, j)
    ensures out + Walk(n.ops[j].1) == own + WalkOps(n, j + 1)
  {
  }

  /** The node's own records followed by all its children's. */
  lemma WalkJoin(acc: seq<Found>, n: Node)
    ensures (acc + OwnFound(n.attestations)) + WalkOps(n, |n.ops|) == acc + Walk(n)
  {
  }

  /** `extractBitcoinAttestations(timestamp)`. */
  method ExtractBitcoinAttestations(timestamp: Option<Node>) returns (attestations: seq<Found>)
    ensures attestations == Extract(timestamp)
  {
    attestations := [];
    if timestamp.Some? {
      attestations := WalkTimestamp(timestamp.value, attestations);
    }
  }

  // ---------------------------------------------------------------------------
  // Lemmas
  // ---------------------------------------------------------------------------

  lemma OwnFoundSnoc(atts: seq<Att>, i: nat)
    requires i < |atts|
    ensures OwnFound(atts[..i + 1]) == OwnFound(atts[..i]) + FoundOf(atts[i])
  {
    assert atts[..i + 1][..i] == atts[..i];
  }

  /** One more attestation pushed onto the accumulator. */
  lemma PushStep(atts: seq<Att>, i: nat, acc: seq<Found>, out: seq<Found>)
    requires i < |atts| && out == acc + OwnFound(atts[..i])
    ensures out + FoundOf(atts[i]) == acc + OwnFound(atts[..i + 1])
  {
    OwnFoundSnoc(atts, i);
  }

  /** Every record comes from a height-bearing attestation, and none has a
      block time of 0. */
  lemma {:induction false} OwnFoundSound(atts: seq<Att>)
    ensures forall f :: f in OwnFound(atts) ==> f.blockTime != Some(0)
    ensures forall f :: f in OwnFound(atts) ==>
      exists i :: 0 <= i < |atts| && atts[i].height == Some(f.blockHeight) && f.blockTime == TimeOrNull(atts[i].time)
  {
    if atts != [] {
      var init := atts[..|atts| - 1];
      OwnFoundSound(init);
      forall f | f in OwnFound(atts)
        ensures exists i :: 0 <= i < |atts| && atts[i].height == Some(f.blockHeight) && f.blockTime == TimeOrNull(atts[i].time)
      {
        if f in OwnFound(init) {
          var i :| 0 <= i < |init| && init[i].height == Some(f.blockHeight) && f.blockTime == TimeOrNull(init[i].time);
          assert atts[i] == init[i];
        } else {
          assert f in FoundOf(atts[|atts| - 1]);
        }
      }
    }
  }

  lemma {:induction false} WalkAllAppend(a: seq<Node>, b: seq<Node>)
    ensures WalkAll(a + b) == WalkAll(a) + WalkAll(b)
  {
    if a == [] {
      assert a + b == b;
    } else {
      assert (a + b)[1..] == a[1..] + b;
      WalkAllAppend(a[1..], b);
    }
  }

  lemma WalkAllCons(n: Node, rest: seq<Node>)
    ensures WalkAll([n] + rest) == Walk(n) + WalkAll(rest)
  {
    assert ([n] + rest)[1..] == rest;
  }

  lemma WalkAllSnoc(ns: seq<Node>, j: nat)
    requires j < |ns|
    ensures WalkAll(ns[..j + 1]) == WalkAll(ns[..j]) + Walk(ns[j])
  {
    assert ns[..j + 1] == ns[..j] + [ns[j]];
    WalkAllAppend(ns[..j], [ns[j]]);
    assert [ns[j]][1..] == [];
  }

  /** `WalkOps` is the walk of the first `j` children. */
  lemma {:induction false} WalkOpsIsWalkAll(n: Node, j: nat)
    requires j <= |n.ops|
    ensures WalkOps(n, j) == WalkAll(Children(n)[..j])
  {
    if j == 0 {
      assert Children(n)[..0] == [];
    } else {
      WalkOpsIsWalkAll(n, j - 1);
      WalkAllSnoc(Children(n), j - 1);
    }
  }

  /** The walk of a node is its own records followed by the walk of its
      children. */
  lemma WalkUnfold(n: Node)
    ensures Walk(n) == OwnFound(n.attestations) + WalkAll(Children(n))
  {
    WalkOpsIsWalkAll(n, |n.ops|);
    assert Children(n)[..|n.ops|] == Children(n);
  }

  lemma {:induction false} PreorderAllAppend(a: seq<Node>, b: seq<Node>)
    ensures PreorderAll(a + b) == PreorderAll(a) + PreorderAll(b)
  {
    if a == [] {
      assert a + b == b;
    } else {
      assert (a + b)[1..] == a[1..] + b;
      PreorderAllAppend(a[1..], b);
    }
  }

  lemma PreorderAllCons(n: Node, rest: seq<Node>)
    ensures PreorderAll([n] + rest) == Preorder(n) + PreorderAll(rest)
  {
    assert ([n] + rest)[1..] == rest;
  }

  lemma {:induction false} PreorderOpsIsPreorderAll(n: Node, j: nat)
    requires j <= |n.ops|
    ensures PreorderOps(n, j) == PreorderAll(Children(n)[..j])
  {
    if j == 0 {
      assert Children(n)[..0] == [];
    } else {
      var ns := Children(n);
      PreorderOpsIsPreorderAll(n, j - 1);
      assert ns[..j] == ns[..j - 1] + [ns[j - 1]];
      PreorderAllAppend(ns[..j - 1], [ns[j - 1]]);
      assert [ns[j - 1]][1..] == [];
    }
  }

  lemma PreorderUnfold(n: Node)
    ensures Preorder(n) == [n] + PreorderAll(Children(n))
  {
    PreorderOpsIsPreorderAll(n, |n.ops|);
    assert Children(n)[..|n.ops|] == Children(n);
  }

  lemma {:induction false} OwnAllAppend(a: seq<Node>, b: seq<Node>)
    ensures OwnAll(a + b) == OwnAll(a) + OwnAll(b)
  {
    if a == [] {
      assert a + b == b;
    } else {
      assert (a + b)[1..] == a[1..] + b;
      OwnAllAppend(a[1..], b);
    }
  }

  /** A list of subtrees for which the walk is the pre-order reading is walked
      in pre-order as a whole. */
  lemma {:induction false} WalkAllIsPreorder(ns: seq<Node>)
    requires forall i :: 0 <= i < |ns| ==> Walk(ns[i]) == OwnAll(Preorder(ns[i]))
    ensures WalkAll(ns) == OwnAll(PreorderAll(ns))
  {
    if ns != [] {
      var n, rest := ns[0], ns[1..];
      assert ns == [n] + rest;
      WalkAllIsPreorder(rest);
      WalkAllCons(n, rest);
      PreorderAllCons(n, rest);
      OwnAllAppend(Preorder(n), PreorderAll(rest));
    }
  }

  /** The walk emits, node by node in pre-order (a node before its children,
      children in `ops` order), each node's height-bearing attestations in
      stored order. */
  lemma {:induction false} WalkIsPreorder(n: Node)
    ensures Walk(n) == OwnAll(Preorder(n))
    decreases n
  {
    var kids := Children(n);
    forall i | 0 <= i < |kids|
      ensures Walk(kids[i]) == OwnAll(Preorder(kids[i]))
    {
      WalkIsPreorder(n.ops[i].1);
    }
    WalkAllIsPreorder(kids);
    WalkUnfold(n);
    PreorderUnfold(n);
    OwnAllAppend([n], PreorderAll(kids));
    assert [n][1..] == [];
  }

  /** `extractBitcoinAttestations` returns the pre-order reading, `[]` for a
      `null` timestamp. */
  lemma ExtractIsPreorder(root: Option<Node>)
    ensures root.None? ==> Extract(root) == []
    ensures root.Some? ==> Extract(root) == OwnAll(Preorder(root.value))
  {
    if root.Some? {
      WalkIsPreorder(root.value);
    }
  }

  /** Attestations without a height contribute nothing; the others one record
      each, with a `time` of 0 turned into `null`. */
  lemma {:induction false} OwnFoundCounts(atts: seq<Att>)
    ensures |OwnFound(atts)| == |HeightBearing(atts)|
  {
    if atts != [] {
      OwnFoundCounts(atts[..|atts| - 1]);
      HeightBearingSnoc(atts);
    }
  }

  /** The positions of the attestations that have a height. */
  function HeightBearing(atts: seq<Att>): set<nat>
  {
    set i: nat | i < |atts| && atts[i].height.Some?
  }

  lemma HeightBearingSnoc(atts: seq<Att>)
    requires atts != []
    ensures |HeightBearing(atts)| ==
      |HeightBearing(atts[..|atts| - 1])| + (if atts[|atts| - 1].height.Some? then 1 else 0)
  {
    var n := |atts| - 1;
    var init := atts[..n];
    var s, s0 := HeightBearing(atts), HeightBearing(init);
    var last: set<nat> := if atts[n].height.Some? then {n} else {};
    forall i | i in s
      ensures i in s0 + last
    {
      if i < n {
        assert init[i] == atts[i];
      }
    }
    forall i | i in s0 + last
      ensures i in s
    {
      if i < n {
        assert init[i] == atts[i];
      }
    }
    assert s == s0 + last;
    assert s0 !! last;
  }

  /** A node whose first own attestation has a height yields that height first. */
  lemma FirstOwnAttestationFirst(n: Node)
    requires |n.attestations| > 0 && n.attestations[0].height.Some?
    ensures |Walk(n)| > 0 && Walk(n)[0] == Found(n.attestations[0].height.value, TimeOrNull(n.attestations[0].time))
  {
    OwnFoundFirst(n.attestations);
  }

  lemma {:induction false} OwnFoundFirst(atts: seq<Att>)
    requires |atts| > 0 && atts[0].height.Some?
    ensures |OwnFound(atts)| > 0 && OwnFound(atts)[0] == Found(atts[0].height.value, TimeOrNull(atts[0].time))
  {
    if |atts| > 1 {
      var init := atts[..|atts| - 1];
      OwnFoundFirst(init);
    }
  }
}
