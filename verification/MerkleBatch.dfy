// What a root and a proof commit to when the hash does not collide on the strings that were hashed for them.
module MerkleBatch {
  import opened Merkle

  type Bytes = seq<bv8>
  type Hash = Bytes -> Bytes

  ghost predicate Digests(h: Hash)
  {
    forall x :: |h(x)| == 32
  }

  // ------------------------------------------------------------------ merkle.py and merkleVerify

  function LeafInput(event: Bytes): Bytes { [0] + event }

  function NodeInput(left: Bytes, right: Bytes): Bytes { [1] + left + right }

  function NodeOf(h: Hash): (Bytes, Bytes) -> Bytes
  {
    (left, right) => h(NodeInput(left, right))
  }

  function LeafHashes(h: Hash, events: seq<Bytes>): (leaves: seq<Bytes>)
    ensures |leaves| == |events|
  {
    seq(|events|, i requires 0 <= i < |events| => h(LeafInput(events[i])))
  }

  function BatchRoot(h: Hash, events: seq<Bytes>): Bytes
    requires events != []
  {
    TreeHash(NodeOf(h), LeafHashes(h, events))
  }

  function BatchProof(h: Hash, events: seq<Bytes>, i: nat): seq<ProofStep<Bytes>>
    requires i < |events|
  {
    AuditPath(NodeOf(h), LeafHashes(h, events), i)
  }

  predicate Verifies(h: Hash, event: Bytes, proof: seq<ProofStep<Bytes>>, root: Bytes)
  {
    Fold(NodeOf(h), h(LeafInput(event)), proof) == root
  }

  // What is hashed for batches of one, two and three events: a leaf after a zero byte, the two halves in
  // order after a one byte, and the third leaf next to the node of the first two.
  lemma SmallBatches(h: Hash, a: Bytes, b: Bytes, c: Bytes)
    ensures BatchRoot(h, [a]) == h([0] + a) && BatchProof(h, [a], 0) == []
    ensures BatchRoot(h, [a, b]) == h([1] + h([0] + a) + h([0] + b))
    ensures BatchProof(h, [a, b], 0) == [ProofStep(R, h([0] + b))] && BatchProof(h, [a, b], 1) == [ProofStep(L, h([0] + a))]
    ensures BatchRoot(h, [a, b, c]) == h([1] + h([1] + h([0] + a) + h([0] + b)) + h([0] + c))
    ensures BatchProof(h, [a, b, c], 2) == [ProofStep(L, h([1] + h([0] + a) + h([0] + b)))]
  {
    var x, y, z := h([0] + a), h([0] + b), h([0] + c);
    assert LeafInput(a) == [0] + a && LeafInput(b) == [0] + b && LeafInput(c) == [0] + c;
    assert LeafHashes(h, [a]) == [x];
    assert LeafHashes(h, [a, b]) == [x, y];
    assert LeafHashes(h, [a, b, c]) == [x, y, z];
    SmallTrees(NodeOf(h), x, y, z);
    var both := h([1] + x + y);
    assert NodeInput(x, y) == [1] + x + y && NodeInput(both, z) == [1] + both + z;
  }

  datatype Built = EmptyBatch | Built(root: Bytes, proofs: seq<seq<ProofStep<Bytes>>>)

  method Build(h: Hash, events: seq<Bytes>) returns (r: Built)
    ensures events == [] <==> r.EmptyBatch?
    ensures r.Built? ==> r.root == BatchRoot(h, events) && |r.proofs| == |events|
    ensures r.Built? ==> forall i :: 0 <= i < |events| ==>
      r.proofs[i] == BatchProof(h, events, i) && Verifies(h, events[i], r.proofs[i], r.root) &&
      |r.proofs[i]| <= CeilLog2(|events|)
  {
    if events == [] {
      return EmptyBatch;
    }
    var root, proofs := BuildTree(NodeOf(h), LeafHashes(h, events));
    forall i | 0 <= i < |events|
      ensures Verifies(h, events[i], proofs[i], root) && |proofs[i]| <= CeilLog2(|events|)
    {
      AuditPathVerifies(NodeOf(h), LeafHashes(h, events), i);
      AuditPathLength(NodeOf(h), LeafHashes(h, events), i);
    }
    r := Built(root, proofs);
  }

  method Verify(h: Hash, event: Bytes, proof: seq<ProofStep<Bytes>>, root: Bytes) returns (ok: bool)
    ensures ok <==> Verifies(h, event, proof, root)
  {
    var acc := FoldProof(NodeOf(h), h(LeafInput(event)), proof);
    ok := acc == root;
  }

  // ------------------------------------------------------------------ the strings that are hashed

  ghost predicate NoCollision(h: Hash, a: Bytes, b: Bytes)
  {
    h(a) == h(b) ==> a == b
  }

  ghost predicate CollisionFree(h: Hash, inputs: set<Bytes>)
  {
    forall a, b {:trigger NoCollision(h, a, b)} :: a in inputs && b in inputs ==> NoCollision(h, a, b)
  }

  // The tree over the events themselves, and its hash.
  ghost function HashOf(h: Hash, t: Tree<Bytes>): Bytes
  {
    match t
    case Tip(event) => h(LeafInput(event))
    case Fork(l, r) => h(NodeInput(HashOf(h, l), HashOf(h, r)))
  }

  ghost function InputOf(h: Hash, t: Tree<Bytes>): Bytes
  {
    match t
    case Tip(event) => LeafInput(event)
    case Fork(l, r) => NodeInput(HashOf(h, l), HashOf(h, r))
  }

  ghost function TreeInputs(h: Hash, t: Tree<Bytes>): set<Bytes>
  {
    match t
    case Tip(event) => {LeafInput(event)}
    case Fork(l, r) => TreeInputs(h, l) + TreeInputs(h, r) + {NodeInput(HashOf(h, l), HashOf(h, r))}
  }

  ghost function ProofInputs(h: Hash, event: Bytes, proof: seq<ProofStep<Bytes>>): set<Bytes>
  {
    if proof == [] then {LeafInput(event)}
    else
      var shorter, step := proof[..|proof| - 1], proof[|proof| - 1];
      var below := Fold(NodeOf(h), h(LeafInput(event)), shorter);
      ProofInputs(h, event, shorter) +
      {if step.side.L? then NodeInput(step.hash, below) else NodeInput(below, step.hash)}
  }

  // All strings that are hashed for the root of a batch.
  ghost predicate InputsOf(h: Hash, events: seq<Bytes>, inputs: set<Bytes>)
  {
    exists t :: Shaped(t) && Leaves(t) == events && TreeInputs(h, t) <= inputs
  }

  ghost function Hashed(h: Hash, t: Tree<Bytes>): Tree<Bytes>
  {
    match t
    case Tip(event) => Tip(h(LeafInput(event)))
    case Fork(l, r) => Fork(Hashed(h, l), Hashed(h, r))
  }

  lemma {:induction false} HashedTree(h: Hash, t: Tree<Bytes>)
    ensures Leaves(Hashed(h, t)) == LeafHashes(h, Leaves(t)) && HashOf(h, t) == Root(NodeOf(h), Hashed(h, t))
    ensures Shaped(t) ==> Shaped(Hashed(h, t))
  {
    if t.Fork? {
      HashedTree(h, t.left);
      HashedTree(h, t.right);
    }
  }

  lemma RootIsHash(h: Hash, t: Tree<Bytes>)
    requires Shaped(t)
    ensures BatchRoot(h, Leaves(t)) == HashOf(h, t)
  {
    HashedTree(h, t);
    ShapedIsStandard(NodeOf(h), Hashed(h, t));
  }

  // ------------------------------------------------------------------ soundness

  lemma LeafInputsDiffer(x: Bytes, left: Bytes, right: Bytes)
    ensures LeafInput(x) != NodeInput(left, right)
  {
    assert LeafInput(x)[0] == 0 && NodeInput(left, right)[0] == 1;
  }

  lemma SameLeafInput(x: Bytes, y: Bytes)
    requires LeafInput(x) == LeafInput(y)
    ensures x == y
  {
    assert x == LeafInput(x)[1..] && y == LeafInput(y)[1..];
  }

  // The node input determines both halves as soon as one of them is a digest.
  lemma SameNodeInput(a: Bytes, b: Bytes, left: Bytes, right: Bytes)
    requires NodeInput(a, b) == NodeInput(left, right) && |left| == |right| == 32 && (|a| == 32 || |b| == 32)
    ensures a == left && b == right
  {
    var w := NodeInput(a, b);
    assert |w| == 1 + |a| + |b| == 65;
    assert a == w[1..33] && b == w[33..];
    assert left == w[1..33] && right == w[33..];
  }

  // Equal roots come from equal trees, whatever their shapes and numbers of leaves.
  lemma {:induction false} EqualHashesEqualTrees(h: Hash, t: Tree<Bytes>, u: Tree<Bytes>)
    requires Digests(h) && HashOf(h, t) == HashOf(h, u)
    requires CollisionFree(h, TreeInputs(h, t) + TreeInputs(h, u))
    ensures t == u
  {
    assert NoCollision(h, InputOf(h, t), InputOf(h, u));
    match (t, u)
    case (Tip(x), Tip(y)) => SameLeafInput(x, y);
    case (Tip(x), Fork(l, r)) => LeafInputsDiffer(x, HashOf(h, l), HashOf(h, r));
    case (Fork(l, r), Tip(y)) => LeafInputsDiffer(y, HashOf(h, l), HashOf(h, r));
    case (Fork(l, r), Fork(l', r')) =>
      SameNodeInput(HashOf(h, l), HashOf(h, r), HashOf(h, l'), HashOf(h, r'));
      EqualHashesEqualTrees(h, l, l');
      EqualHashesEqualTrees(h, r, r');
  }

  // Equal roots imply equal ordered batches.
  lemma EqualRootsEqualBatches(h: Hash, xs: seq<Bytes>, ys: seq<Bytes>, inputs: set<Bytes>)
    requires Digests(h) && xs != [] && ys != [] && BatchRoot(h, xs) == BatchRoot(h, ys)
    requires InputsOf(h, xs, inputs) && InputsOf(h, ys, inputs) && CollisionFree(h, inputs)
    ensures xs == ys
  {
    var t :| Shaped(t) && Leaves(t) == xs && TreeInputs(h, t) <= inputs;
    var u :| Shaped(u) && Leaves(u) == ys && TreeInputs(h, u) <= inputs;
    RootIsHash(h, t);
    RootIsHash(h, u);
    EqualHashesEqualTrees(h, t, u);
  }

  lemma FoldIsDigest(h: Hash, event: Bytes, proof: seq<ProofStep<Bytes>>)
    requires Digests(h)
    ensures |Fold(NodeOf(h), h(LeafInput(event)), proof)| == 32
  {
    if proof != [] {
      var _, _ := PeelProof(h, event, proof);
    }
  }

  // The last step of a proof hashes its sibling with what the proof so far yields.
  lemma PeelProof(h: Hash, event: Bytes, proof: seq<ProofStep<Bytes>>)
    returns (shorter: seq<ProofStep<Bytes>>, step: ProofStep<Bytes>)
    requires proof != []
    ensures shorter == proof[..|proof| - 1] && step == proof[|proof| - 1]
    ensures var below := Fold(NodeOf(h), h(LeafInput(event)), shorter);
      var input := if step.side.L? then NodeInput(step.hash, below) else NodeInput(below, step.hash);
      h(input) == Fold(NodeOf(h), h(LeafInput(event)), proof) &&
      ProofInputs(h, event, proof) == ProofInputs(h, event, shorter) + {input}
  {
    shorter, step := proof[..|proof| - 1], proof[|proof| - 1];
  }

  ghost predicate IsPathTo(h: Hash, t: Tree<Bytes>, event: Bytes, proof: seq<ProofStep<Bytes>>, i: nat)
  {
    i < |Leaves(t)| && Leaves(t)[i] == event &&
    i < |Leaves(Hashed(h, t))| && proof == Path(NodeOf(h), Hashed(h, t), i)
  }

  // The path to a leaf of one half, followed by the hash of the other half.
  lemma PathThroughLeft(
    h: Hash, t: Tree<Bytes>, event: Bytes, proof: seq<ProofStep<Bytes>>, i: nat, step: ProofStep<Bytes>)
    requires t.Fork? && IsPathTo(h, t.left, event, proof, i) && step == ProofStep(R, HashOf(h, t.right))
    ensures IsPathTo(h, t, event, proof + [step], i)
  {
    HashedTree(h, t);
    HashedTree(h, t.left);
    HashedTree(h, t.right);
  }

  lemma PathThroughRight(
    h: Hash, t: Tree<Bytes>, event: Bytes, proof: seq<ProofStep<Bytes>>, i: nat, step: ProofStep<Bytes>)
    requires t.Fork? && IsPathTo(h, t.right, event, proof, i) && step == ProofStep(L, HashOf(h, t.left))
    ensures IsPathTo(h, t, event, proof + [step], |Leaves(t.left)| + i)
  {
    HashedTree(h, t);
    HashedTree(h, t.left);
    HashedTree(h, t.right);
  }

  lemma EmptyProof(h: Hash, t: Tree<Bytes>, event: Bytes)
    requires h(LeafInput(event)) == HashOf(h, t) && CollisionFree(h, TreeInputs(h, t) + {LeafInput(event)})
    ensures t == Tip(event)
  {
    assert NoCollision(h, LeafInput(event), InputOf(h, t));
    if t.Fork? {
      LeafInputsDiffer(event, HashOf(h, t.left), HashOf(h, t.right));
    } else {
      SameLeafInput(event, t.hash);
    }
  }

  // The last step of a proof carries one half of the root, and the proof so far yields the other.
  lemma LastStep(h: Hash, t: Tree<Bytes>, a: Bytes, b: Bytes)
    requires Digests(h) && h(NodeInput(a, b)) == HashOf(h, t) && (|a| == 32 || |b| == 32)
    requires CollisionFree(h, TreeInputs(h, t) + {NodeInput(a, b)})
    ensures t.Fork? && a == HashOf(h, t.left) && b == HashOf(h, t.right)
  {
    assert NoCollision(h, NodeInput(a, b), InputOf(h, t));
    match t
    case Tip(x) => LeafInputsDiffer(x, a, b);
    case Fork(l, r) => SameNodeInput(a, b, HashOf(h, l), HashOf(h, r));
  }

  // The proof leads from a leaf with the event to the root, one true sibling at a time.
  ghost predicate LeadsUp(h: Hash, t: Tree<Bytes>, event: Bytes, proof: seq<ProofStep<Bytes>>)
  {
    match t
    case Tip(x) => x == event && proof == []
    case Fork(l, r) =>
      proof != [] &&
      var shorter, step := proof[..|proof| - 1], proof[|proof| - 1];
      if step.side.L? then step.hash == HashOf(h, l) && LeadsUp(h, r, event, shorter)
      else step.hash == HashOf(h, r) && LeadsUp(h, l, event, shorter)
  }

  // A proof that verifies does, whatever bytes it contains.
  lemma {:induction false} VerifiedLeadsUp(h: Hash, t: Tree<Bytes>, event: Bytes, proof: seq<ProofStep<Bytes>>)
    requires Digests(h) && Fold(NodeOf(h), h(LeafInput(event)), proof) == HashOf(h, t)
    requires CollisionFree(h, TreeInputs(h, t) + ProofInputs(h, event, proof))
    ensures LeadsUp(h, t, event, proof)
    decreases |proof|
  {
    if proof == [] {
      EmptyProof(h, t, event);
    } else {
      var shorter, step := PeelProof(h, event, proof);
      var below := Fold(NodeOf(h), h(LeafInput(event)), shorter);
      FoldIsDigest(h, event, shorter);
      if step.side.L? {
        LastStep(h, t, step.hash, below);
        VerifiedLeadsUp(h, t.right, event, shorter);
      } else {
        LastStep(h, t, below, step.hash);
        VerifiedLeadsUp(h, t.left, event, shorter);
      }
    }
  }

  lemma {:induction false} LeadsUpIsPath(h: Hash, t: Tree<Bytes>, event: Bytes, proof: seq<ProofStep<Bytes>>) returns (i: nat)
    requires LeadsUp(h, t, event, proof)
    ensures IsPathTo(h, t, event, proof, i)
  {
    match t
    case Tip(_) => i := 0;
    case Fork(l, r) =>
      var shorter, step := proof[..|proof| - 1], proof[|proof| - 1];
      assert proof == shorter + [step];
      if step.side.L? {
        i := LeadsUpIsPath(h, r, event, shorter);
        PathThroughRight(h, t, event, shorter, i, step);
        i := |Leaves(l)| + i;
      } else {
        i := LeadsUpIsPath(h, l, event, shorter);
        PathThroughLeft(h, t, event, shorter, i, step);
      }
  }

  // A proof verifies against the root of a batch exactly when it is the proof of a position of the event.
  lemma VerifiesIffProofOfMember(h: Hash, event: Bytes, proof: seq<ProofStep<Bytes>>, xs: seq<Bytes>, inputs: set<Bytes>)
    requires Digests(h) && xs != [] && InputsOf(h, xs, inputs)
    requires CollisionFree(h, inputs + ProofInputs(h, event, proof))
    ensures Verifies(h, event, proof, BatchRoot(h, xs)) <==>
      exists i: nat :: i < |xs| && xs[i] == event && proof == BatchProof(h, xs, i)
  {
    var t :| Shaped(t) && Leaves(t) == xs && TreeInputs(h, t) <= inputs;
    RootIsHash(h, t);
    HashedTree(h, t);
    if Verifies(h, event, proof, BatchRoot(h, xs)) {
      VerifiedLeadsUp(h, t, event, proof);
      var i := LeadsUpIsPath(h, t, event, proof);
      ShapedPath(NodeOf(h), Hashed(h, t), i);
      assert proof == BatchProof(h, xs, i);
    }
    forall i: nat | i < |xs| && xs[i] == event && proof == BatchProof(h, xs, i)
      ensures Verifies(h, event, proof, BatchRoot(h, xs))
    {
      AuditPathVerifies(NodeOf(h), LeafHashes(h, xs), i);
    }
  }
}
