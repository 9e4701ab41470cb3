// Merkle trees over an arbitrary node hash: the level-by-level builder against section 2.1 of RFC 6962.
module Merkle {
  import opened Bits

  datatype Side = L | R

  // One sibling on the way to the root, with its side.
  datatype ProofStep<D> = ProofStep(side: Side, hash: D)

  // ------------------------------------------------------------------ RFC 6962, section 2.1

  function SplitFrom(k: nat, n: nat): (half: nat)
    requires k > 0
    ensures half > 0 && (k < n ==> half < n)
    decreases n - k
  {
    if n <= 2 * k then k else SplitFrom(2 * k, n)
  }

  // The number of leaves on the left of the root of n leaves: the largest power of two below n.
  function Split(n: nat): (half: nat)
    ensures half > 0 && (n > 1 ==> half < n)
  {
    SplitFrom(1, n)
  }

  lemma {:induction false} SplitFromIs(e: nat, f: nat, n: nat)
    requires e <= f && Pow2(f) < n <= 2 * Pow2(f)
    ensures SplitFrom(Pow2(e), n) == Pow2(f)
    decreases f - e
  {
    if e < f {
      Pow2Monotone(e + 1, f);
      assert Pow2(e + 1) == 2 * Pow2(e);
      SplitFromIs(e + 1, f, n);
    }
  }

  // Merkle tree hash of the hashed leaves s.
  function TreeHash<D>(node: (D, D) -> D, s: seq<D>): D
    requires s != []
    decreases |s|
  {
    if |s| == 1 then s[0]
    else var k := Split(|s|); node(TreeHash(node, s[..k]), TreeHash(node, s[k..]))
  }

  // Audit path of leaf i, lowest sibling first.
  function AuditPath<D>(node: (D, D) -> D, s: seq<D>, i: nat): seq<ProofStep<D>>
    requires i < |s|
    decreases |s|
  {
    if |s| == 1 then []
    else
      var k := Split(|s|);
      if i < k then AuditPath(node, s[..k], i) + [ProofStep(R, TreeHash(node, s[k..]))]
      else AuditPath(node, s[k..], i - k) + [ProofStep(L, TreeHash(node, s[..k]))]
  }

  // Trees of two and three leaves: an odd leaf goes up as it is.
  lemma SmallTrees<D>(node: (D, D) -> D, x: D, y: D, z: D)
    ensures TreeHash(node, [x, y]) == node(x, y) && TreeHash(node, [x, y, z]) == node(node(x, y), z)
    ensures AuditPath(node, [x, y], 0) == [ProofStep(R, y)] && AuditPath(node, [x, y], 1) == [ProofStep(L, x)]
    ensures AuditPath(node, [x, y, z], 0) == [ProofStep(R, y), ProofStep(R, z)]
    ensures AuditPath(node, [x, y, z], 2) == [ProofStep(L, node(x, y))]
  {
    var s := [x, y, z];
    assert Split(2) == 1 && Split(3) == 2;
    assert s[..2] == [x, y] && s[2..] == [z] && [x, y][..1] == [x] && [x, y][1..] == [y];
    assert AuditPath(node, [x], 0) == [] && AuditPath(node, [y], 0) == [];
  }

  // ------------------------------------------------------------------ the tree behind the hashes

  datatype Tree<D> = Tip(hash: D) | Fork(left: Tree<D>, right: Tree<D>)

  ghost function Leaves<D>(t: Tree<D>): (s: seq<D>)
    ensures |s| > 0
  {
    match t
    case Tip(x) => [x]
    case Fork(l, r) => Leaves(l) + Leaves(r)
  }

  ghost function Root<D>(node: (D, D) -> D, t: Tree<D>): D
  {
    match t
    case Tip(x) => x
    case Fork(l, r) => node(Root(node, l), Root(node, r))
  }

  ghost function Path<D>(node: (D, D) -> D, t: Tree<D>, i: nat): seq<ProofStep<D>>
    requires i < |Leaves(t)|
  {
    match t
    case Tip(_) => []
    case Fork(l, r) =>
      if i < |Leaves(l)| then Path(node, l, i) + [ProofStep(R, Root(node, r))]
      else Path(node, r, i - |Leaves(l)|) + [ProofStep(L, Root(node, l))]
  }

  ghost predicate IsPower(n: nat)
  {
    exists e: nat :: n == Pow2(e)
  }

  // Every left half is a full power of two and no smaller than the right one.
  ghost predicate Shaped<D>(t: Tree<D>)
  {
    match t
    case Tip(_) => true
    case Fork(l, r) => Shaped(l) && Shaped(r) && IsPower(|Leaves(l)|) && |Leaves(r)| <= |Leaves(l)|
  }

  // Such a tree is the one of the standard.
  lemma {:induction false} ShapedIsStandard<D>(node: (D, D) -> D, t: Tree<D>)
    requires Shaped(t)
    ensures TreeHash(node, Leaves(t)) == Root(node, t)
  {
    if t.Fork? {
      ShapedSplit(t);
      ShapedIsStandard(node, t.left);
      ShapedIsStandard(node, t.right);
    }
  }

  lemma {:induction false} ShapedPath<D>(node: (D, D) -> D, t: Tree<D>, i: nat)
    requires Shaped(t) && i < |Leaves(t)|
    ensures AuditPath(node, Leaves(t), i) == Path(node, t, i)
  {
    if t.Fork? {
      var k := |Leaves(t.left)|;
      ShapedSplit(t);
      ShapedIsStandard(node, t.left);
      ShapedIsStandard(node, t.right);
      if i < k {
        ShapedPath(node, t.left, i);
      } else {
        ShapedPath(node, t.right, i - k);
      }
    }
  }

  lemma ShapedSplit<D>(t: Tree<D>)
    requires Shaped(t) && t.Fork?
    ensures Split(|Leaves(t)|) == |Leaves(t.left)|
    ensures Leaves(t)[..|Leaves(t.left)|] == Leaves(t.left)
    ensures Leaves(t)[|Leaves(t.left)|..] == Leaves(t.right)
  {
    var f: nat :| |Leaves(t.left)| == Pow2(f);
    SplitFromIs(0, f, |Leaves(t)|);
  }

  // Every sequence of leaves has exactly one.
  lemma {:induction false} StandardTree<D>(s: seq<D>) returns (t: Tree<D>)
    requires s != []
    ensures Shaped(t) && Leaves(t) == s
    decreases |s|
  {
    if |s| == 1 {
      t := Tip(s[0]);
    } else {
      var e := PowerBelow(|s|);
      SplitFromIs(0, e, |s|);
      var l := StandardTree(s[..Pow2(e)]);
      var r := StandardTree(s[Pow2(e)..]);
      t := Fork(l, r);
    }
  }

  lemma {:induction false} PowerBelow(n: nat) returns (e: nat)
    requires n > 1
    ensures Pow2(e) < n <= 2 * Pow2(e)
  {
    if n == 2 {
      e := 0;
      assert Pow2(0) == 1;
    } else {
      var f := PowerBelow((n + 1) / 2);
      e := f + 1;
    }
  }

  // ------------------------------------------------------------------ one level of the builder

  // Neighbours are joined in pairs; an odd last node moves up unchanged.
  ghost function PairUp<D>(node: (D, D) -> D, s: seq<D>): seq<D>
  {
    seq((|s| + 1) / 2, j requires 0 <= j < (|s| + 1) / 2 =>
      if 2 * j + 1 < |s| then node(s[2 * j], s[2 * j + 1]) else s[2 * j])
  }

  // The step that a level adds to the proof of a leaf at position pos.
  ghost function LevelStep<D>(s: seq<D>, pos: nat): seq<ProofStep<D>>
    requires pos < |s|
  {
    if pos % 2 == 1 then [ProofStep(L, s[pos - 1])]
    else if pos + 1 < |s| then [ProofStep(R, s[pos + 1])]
    else []
  }

  // A tree of a level, and the number of its first leaf.
  datatype Placed<D> = Placed(tree: Tree<D>, start: nat)

  function Join<D>(x: Placed<D>, y: Placed<D>): Placed<D>
  {
    Placed(Fork(x.tree, y.tree), x.start)
  }

  // Tree j is the standard tree over its leaves, and the next one starts where it ends.
  ghost predicate InLevel<D>(level: seq<Placed<D>>, s: seq<D>, w: nat, j: nat)
    requires j < |level|
  {
    var t := level[j];
    var end := t.start + |Leaves(t.tree)|;
    Shaped(t.tree) && end <= |s| && Leaves(t.tree) == s[t.start..end] &&
    if j + 1 < |level| then |Leaves(t.tree)| == w && level[j + 1].start == end
    else |Leaves(t.tree)| <= w && end == |s|
  }

  ghost predicate IsLevel<D>(level: seq<Placed<D>>, s: seq<D>, w: nat)
  {
    IsPower(w) && |level| > 0 && level[0].start == 0 &&
    forall j {:trigger InLevel(level, s, w, j)} :: 0 <= j < |level| ==> InLevel(level, s, w, j)
  }

  ghost function Roots<D>(node: (D, D) -> D, level: seq<Placed<D>>): seq<D>
  {
    seq(|level|, j requires 0 <= j < |level| => Root(node, level[j].tree))
  }

  ghost function Joined<D>(level: seq<Placed<D>>): seq<Placed<D>>
  {
    PairUp((x, y) => Join(x, y), level)
  }

  lemma JoinedStart<D>(level: seq<Placed<D>>, j: nat)
    requires 2 * j < |level|
    ensures j < |Joined(level)| && Joined(level)[j].start == level[2 * j].start
  {
  }

  lemma JoinInLevel<D>(s: seq<D>, w: nat, x: Placed<D>, y: Placed<D>)
    requires IsPower(w) && Shaped(x.tree) && Shaped(y.tree) && |Leaves(x.tree)| == w && |Leaves(y.tree)| <= w
    requires y.start == x.start + w && y.start + |Leaves(y.tree)| <= |s|
    requires Leaves(x.tree) == s[x.start..x.start + w] && Leaves(y.tree) == s[y.start..y.start + |Leaves(y.tree)|]
    ensures Shaped(Join(x, y).tree) && |Leaves(Join(x, y).tree)| == w + |Leaves(y.tree)|
    ensures Leaves(Join(x, y).tree) == s[x.start..y.start + |Leaves(y.tree)|]
  {
  }

  lemma PairInLevel<D>(level: seq<Placed<D>>, s: seq<D>, w: nat, j: nat)
    requires IsPower(w) && 2 * j + 1 < |level| && InLevel(level, s, w, 2 * j) && InLevel(level, s, w, 2 * j + 1)
    ensures j < |Joined(level)| && InLevel(Joined(level), s, 2 * w, j)
  {
    ghost var x, y, up := level[2 * j], level[2 * j + 1], Joined(level);
    assert up[j] == Join(x, y);
    JoinInLevel(s, w, x, y);
    if j + 1 < |up| {
      JoinedStart(level, j + 1);
    }
  }

  // Joining the neighbours of a level gives the next level.
  lemma JoinedIsLevel<D>(level: seq<Placed<D>>, s: seq<D>, w: nat)
    requires IsLevel(level, s, w)
    ensures IsLevel(Joined(level), s, 2 * w)
  {
    var up := Joined(level);
    var e: nat :| w == Pow2(e);
    assert 2 * w == Pow2(e + 1);
    forall j | 0 <= j < |up|
      ensures InLevel(up, s, 2 * w, j)
    {
      assert InLevel(level, s, w, 2 * j);
      if 2 * j + 1 < |level| {
        assert InLevel(level, s, w, 2 * j + 1);
        PairInLevel(level, s, w, j);
      }
    }
  }

  lemma RootsOfJoined<D>(node: (D, D) -> D, level: seq<Placed<D>>)
    ensures Roots(node, Joined(level)) == PairUp(node, Roots(node, level))
  {
  }

  // Leaf i lies in tree pos of the level, and the path to it there is the proof so far.
  ghost predicate ProvedUpTo<D>(node: (D, D) -> D, level: seq<Placed<D>>, i: nat, pos: nat, proof: seq<ProofStep<D>>)
  {
    pos < |level| && level[pos].start <= i < level[pos].start + |Leaves(level[pos].tree)| &&
    proof == Path(node, level[pos].tree, i - level[pos].start)
  }

  lemma ProofGrowsOnLeft<D>(node: (D, D) -> D, level: seq<Placed<D>>, i: nat, pos: nat, proof: seq<ProofStep<D>>)
    requires ProvedUpTo(node, level, i, pos, proof) && pos % 2 == 0 && pos + 1 < |level|
    ensures ProvedUpTo(node, Joined(level), i, pos / 2, proof + [ProofStep(R, Root(node, level[pos + 1].tree))])
  {
    assert Joined(level)[pos / 2] == Join(level[pos], level[pos + 1]);
  }

  lemma ProofGrowsOnRight<D>(node: (D, D) -> D, level: seq<Placed<D>>, i: nat, pos: nat, proof: seq<ProofStep<D>>)
    requires ProvedUpTo(node, level, i, pos, proof) && pos % 2 == 1
    requires level[pos].start == level[pos - 1].start + |Leaves(level[pos - 1].tree)|
    ensures ProvedUpTo(node, Joined(level), i, pos / 2, proof + [ProofStep(L, Root(node, level[pos - 1].tree))])
  {
    assert Joined(level)[pos / 2] == Join(level[pos - 1], level[pos]);
  }

  lemma ProofGrows<D>(node: (D, D) -> D, level: seq<Placed<D>>, s: seq<D>, w: nat, i: nat, pos: nat, proof: seq<ProofStep<D>>)
    requires IsLevel(level, s, w) && ProvedUpTo(node, level, i, pos, proof)
    ensures ProvedUpTo(node, Joined(level), i, pos / 2, proof + LevelStep(Roots(node, level), pos))
  {
    if pos % 2 == 1 {
      assert InLevel(level, s, w, pos - 1);
      ProofGrowsOnRight(node, level, i, pos, proof);
    } else if pos + 1 < |level| {
      ProofGrowsOnLeft(node, level, i, pos, proof);
    } else {
      assert Joined(level)[pos / 2] == level[pos];
      assert proof + [] == proof;
    }
  }

  // ------------------------------------------------------------------ merkle.build

  method NextLevel<D>(node: (D, D) -> D, level: seq<D>) returns (nxt: seq<D>)
    ensures nxt == PairUp(node, level)
  {
    nxt := [];
    var i := 0;
    while i < |level|
      invariant i == 2 * |nxt| && |nxt| <= (|level| + 1) / 2
      invariant nxt == PairUp(node, level)[..|nxt|]
    {
      nxt := nxt + [if i + 1 < |level| then node(level[i], level[i + 1]) else level[i]];
      i := i + 2;
    }
  }

  method ExtendProofs<D>(level: seq<D>, positions: seq<nat>, proofs: seq<seq<ProofStep<D>>>)
    returns (newPositions: seq<nat>, newProofs: seq<seq<ProofStep<D>>>)
    requires |positions| == |proofs| && forall i :: 0 <= i < |positions| ==> positions[i] < |level|
    ensures |newPositions| == |newProofs| == |proofs|
    ensures forall i :: 0 <= i < |positions| ==> newPositions[i] == positions[i] / 2
    ensures forall i :: 0 <= i < |proofs| ==> newProofs[i] == proofs[i] + LevelStep(level, positions[i])
  {
    newPositions, newProofs := positions, proofs;
    for i := 0 to |positions|
      invariant |newPositions| == |newProofs| == |proofs|
      invariant forall j :: 0 <= j < |proofs| ==>
        newPositions[j] == (if j < i then positions[j] / 2 else positions[j]) &&
        newProofs[j] == if j < i then proofs[j] + LevelStep(level, positions[j]) else proofs[j]
    {
      var pos := positions[i];
      if pos % 2 == 0 && pos + 1 < |level| {
        newProofs := newProofs[i := newProofs[i] + [ProofStep(R, level[pos + 1])]];
      } else if pos % 2 == 1 {
        newProofs := newProofs[i := newProofs[i] + [ProofStep(L, level[pos - 1])]];
      } else {
        assert proofs[i] + LevelStep(level, pos) == proofs[i];
      }
      newPositions := newPositions[i := pos / 2];
    }
  }

  // The hashed leaves are a level of single leaves, with empty proofs.
  lemma LowestLevel<D>(node: (D, D) -> D, s: seq<D>) returns (level: seq<Placed<D>>)
    requires s != []
    ensures IsLevel(level, s, 1) && Roots(node, level) == s
    ensures forall i: nat :: i < |s| ==> ProvedUpTo(node, level, i, i, [])
  {
    level := seq(|s|, j requires 0 <= j < |s| => Placed(Tip(s[j]), j));
    assert Pow2(0) == 1;
    forall j: nat | j < |s| ensures InLevel(level, s, 1, j) {
      assert level[j] == Placed(Tip(s[j]), j);
    }
  }

  // The last level is a single tree over all leaves.
  lemma HighestLevel<D>(node: (D, D) -> D, level: seq<Placed<D>>, s: seq<D>, w: nat)
    requires IsLevel(level, s, w) && |level| == 1
    ensures s == Leaves(level[0].tree) && Shaped(level[0].tree) && TreeHash(node, s) == Roots(node, level)[0]
  {
    assert InLevel(level, s, w, 0);
    ShapedIsStandard(node, level[0].tree);
  }

  lemma HighestProof<D>(node: (D, D) -> D, level: seq<Placed<D>>, i: nat, pos: nat, proof: seq<ProofStep<D>>)
    requires |level| == 1 && Shaped(level[0].tree) && level[0].start == 0
    requires ProvedUpTo(node, level, i, pos, proof)
    ensures proof == AuditPath(node, Leaves(level[0].tree), i)
  {
    ShapedPath(node, level[0].tree, i);
  }

  // From the hashed leaves of a non-empty batch.
  method BuildTree<D>(node: (D, D) -> D, leaves: seq<D>) returns (root: D, proofs: seq<seq<ProofStep<D>>>)
    requires leaves != []
    ensures root == TreeHash(node, leaves) && |proofs| == |leaves|
    ensures forall i :: 0 <= i < |leaves| ==> proofs[i] == AuditPath(node, leaves, i)
  {
    var level := leaves;
    var positions: seq<nat> := seq(|leaves|, (i: nat) => i);
    proofs := seq(|leaves|, i => []);
    ghost var w: nat := 1;
    ghost var trees := LowestLevel(node, leaves);
    while |level| > 1
      invariant IsLevel(trees, leaves, w) && level == Roots(node, trees)
      invariant |positions| == |proofs| == |leaves|
      invariant forall i :: 0 <= i < |leaves| ==> ProvedUpTo(node, trees, i, positions[i], proofs[i])
      decreases |level|
    {
      JoinedIsLevel(trees, leaves, w);
      RootsOfJoined(node, trees);
      forall i | 0 <= i < |leaves|
        ensures ProvedUpTo(node, Joined(trees), i, positions[i] / 2, proofs[i] + LevelStep(level, positions[i]))
      {
        ProofGrows(node, trees, leaves, w, i, positions[i], proofs[i]);
      }
      positions, proofs := ExtendProofs(level, positions, proofs);
      level := NextLevel(node, level);
      trees, w := Joined(trees), 2 * w;
    }
    root := level[0];
    HighestLevel(node, trees, leaves, w);
    forall i | 0 <= i < |leaves| ensures proofs[i] == AuditPath(node, leaves, i) {
      HighestProof(node, trees, i, positions[i], proofs[i]);
    }
  }

  // ------------------------------------------------------------------ merkle.verify

  function Fold<D>(node: (D, D) -> D, acc: D, proof: seq<ProofStep<D>>): D
  {
    if proof == [] then acc
    else
      var below := Fold(node, acc, proof[..|proof| - 1]);
      var step := proof[|proof| - 1];
      if step.side.L? then node(step.hash, below) else node(below, step.hash)
  }

  method FoldProof<D>(node: (D, D) -> D, leaf: D, proof: seq<ProofStep<D>>) returns (acc: D)
    ensures acc == Fold(node, leaf, proof)
  {
    acc := leaf;
    for i := 0 to |proof|
      invariant acc == Fold(node, leaf, proof[..i])
    {
      var sibling := proof[i].hash;
      assert proof[..i + 1][..i] == proof[..i];
      acc := if proof[i].side.L? then node(sibling, acc) else node(acc, sibling);
    }
    assert proof[..|proof|] == proof;
  }

  // Folding the path of a leaf gives the root.
  lemma {:induction false} PathFolds<D>(node: (D, D) -> D, t: Tree<D>, i: nat)
    requires i < |Leaves(t)|
    ensures Fold(node, Leaves(t)[i], Path(node, t, i)) == Root(node, t)
  {
    if t.Fork? {
      var path := Path(node, t, i);
      var below := path[..|path| - 1];
      if i < |Leaves(t.left)| {
        PathFolds(node, t.left, i);
        assert below == Path(node, t.left, i);
      } else {
        PathFolds(node, t.right, i - |Leaves(t.left)|);
        assert below == Path(node, t.right, i - |Leaves(t.left)|);
      }
    }
  }

  // Every audit path verifies.
  lemma AuditPathVerifies<D>(node: (D, D) -> D, s: seq<D>, i: nat)
    requires i < |s|
    ensures Fold(node, s[i], AuditPath(node, s, i)) == TreeHash(node, s)
  {
    var t := StandardTree(s);
    ShapedIsStandard(node, t);
    ShapedPath(node, t, i);
    PathFolds(node, t, i);
  }

  function CeilLog2(n: nat): nat
  {
    if n <= 1 then 0 else 1 + CeilLog2((n + 1) / 2)
  }

  lemma {:induction false} CeilLog2Is(n: nat, e: nat)
    ensures CeilLog2(n) <= e <==> n <= Pow2(e)
    decreases e
  {
    if n > 1 && e > 0 {
      CeilLog2Is((n + 1) / 2, e - 1);
    }
  }

  lemma {:induction false} PathLength<D>(node: (D, D) -> D, t: Tree<D>, i: nat)
    requires Shaped(t) && i < |Leaves(t)|
    ensures |Path(node, t, i)| <= CeilLog2(|Leaves(t)|)
  {
    if t.Fork? {
      var e: nat :| |Leaves(t.left)| == Pow2(e);
      CeilLog2Is(|Leaves(t.left)|, e);
      CeilLog2Is(|Leaves(t.right)|, e);
      CeilLog2Is(|Leaves(t)|, e);
      if i < |Leaves(t.left)| {
        PathLength(node, t.left, i);
      } else {
        PathLength(node, t.right, i - |Leaves(t.left)|);
      }
    }
  }

  // Proofs are at most ceil(log2 n) steps long.
  lemma AuditPathLength<D>(node: (D, D) -> D, s: seq<D>, i: nat)
    requires i < |s|
    ensures |AuditPath(node, s, i)| <= CeilLog2(|s|)
  {
    var t := StandardTree(s);
    ShapedPath(node, t, i);
    PathLength(node, t, i);
  }
}
