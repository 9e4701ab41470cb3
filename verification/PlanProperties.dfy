// What every commit plan guarantees in the trees that a group can reach: its targets
// partition the members, and there are at most two of them per node.  A target without a
// member is a node that the same plan blanks; an example shows that this occurs, and a
// lemma says exactly when.
module PlanProperties {
  import opened Bits
  import opened NodeArithmetic
  import opened KeyTree

  // The tree a commit leaves behind: every keyed inner node has a member below
  // it, and below an unkeyed one the members are all on one side.
  ghost predicate Settled(base: map<nat, Key>)
  {
    (forall x :: x in base && Level(x) > 0 ==> HasMember(x, base)) &&
    (forall x: nat :: Level(x) > 0 && x !in base ==> !(HasMember(Left(x), base) && HasMember(Right(x), base)))
  }

  // Since the last commit only leaves changed, and only those waiting for a rotation.
  ghost predicate DriftedFrom(base: map<nat, Key>, st: TreeState, leaves: seq<nat>, full: bool)
  {
    InCapacity(st) &&
    (forall x :: x in base ==> InTree(x, st.capacity)) &&
    (forall x: nat :: Level(x) > 0 ==> SameAt(x, base, st.pubs)) &&
    (forall l: nat :: !full && l !in leaves ==> SameAt(LeafNode(l), base, st.pubs))
  }

  lemma TreeLevels(x: nat, capacity: nat)
    requires IsCapacity(capacity) && InTree(x, capacity) && Level(x) > 0
    ensures capacity > 1
  {
  }

  // Below a node that is no candidate nothing changed since the last commit.
  lemma UntouchedBelow(base: map<nat, Key>, st: TreeState, leaves: seq<nat>, full: bool, x: nat, l: nat)
    requires DriftedFrom(base, st, leaves, full)
    requires Level(x) > 0 && InTree(x, st.capacity) && !Candidate(x, st.capacity, leaves, full)
    requires Under(l, x)
    ensures SameAt(LeafNode(l), base, st.pubs)
  {
    TreeLevels(x, st.capacity);
    assert !full && l !in leaves;
  }

  lemma OccupiedLeafNode(x: nat, pubs: map<nat, Key>)
    requires Level(x) == 0 && x in pubs
    ensures HasMember(x, pubs)
  {
    assert LeafNode(x / 2) == x;
    assert IsOccupied(x / 2, pubs) && Under(x / 2, x);
  }

  lemma MemberAbove(t: nat, x: nat, pubs: map<nat, Key>)
    requires Inside(t, x) && HasMember(t, pubs)
    ensures HasMember(x, pubs)
  {
    var l: nat :| IsOccupied(l, pubs) && Under(l, t);
    assert Under(l, x);
  }

  // A stored key whose node the plan does not blank has a member below it.
  lemma KeyedHasMember(base: map<nat, Key>, st: TreeState, leaves: seq<nat>, full: bool, plan: CommitPlan, t: nat)
    requires Settled(base) && DriftedFrom(base, st, leaves, full) && IsPlan(st, leaves, full, plan)
    requires t in st.pubs && t !in plan.blanks
    ensures HasMember(t, st.pubs)
  {
    if Level(t) == 0 {
      OccupiedLeafNode(t, st.pubs);
    } else if !Candidate(t, st.capacity, leaves, full) {
      assert SameAt(t, base, st.pubs);
      var l: nat :| IsOccupied(l, base) && Under(l, t);
      UntouchedBelow(base, st, leaves, full, t, l);
      assert IsOccupied(l, st.pubs);
    }
  }

  // ------------------------------------------------------------------ the partition

  lemma TargetsPartitionMembers(base: map<nat, Key>, st: TreeState, leaves: seq<nat>, full: bool, plan: CommitPlan, n: nat)
    requires Settled(base) && DriftedFrom(base, st, leaves, full) && IsPlan(st, leaves, full, plan)
    requires n in plan.path
    ensures forall l: nat :: IsOccupied(l, st.pubs) && Under(l, n) ==>
      exists i :: 0 <= i < |plan.targets[n]| && Under(l, plan.targets[n][i])
    ensures forall i, j, l: nat ::
      (0 <= i < |plan.targets[n]| && 0 <= j < |plan.targets[n]| &&
      Under(l, plan.targets[n][i]) && Under(l, plan.targets[n][j])) ==> i == j
    ensures forall t :: t in plan.targets[n] ==>
      t in plan.path || (t in plan.knownPubs && t in st.pubs && plan.knownPubs[t] == st.pubs[t])
    ensures forall t :: t in plan.targets[n] ==> (HasMember(t, st.pubs) <==> t !in plan.blanks)
  {
    var renewed := Elements(plan.path);
    var targets := plan.targets[n];
    assert targets == ChildResolutions(n, st.pubs, renewed);
    forall l: nat | IsOccupied(l, st.pubs) && Under(l, n)
      ensures exists i :: 0 <= i < |targets| && Under(l, targets[i])
    {
      LeafCoordinates(l);
      var t := TargetsCover(n, st.pubs, renewed, LeafNode(l), l);
    }
    forall i, j, l: nat | 0 <= i < |targets| && 0 <= j < |targets| && Under(l, targets[i]) && Under(l, targets[j])
      ensures i == j
    {
      TargetsDisjoint(n, st.pubs, renewed, i, j, l);
    }
    TargetsHaveKeys(n, st.pubs, renewed);
    forall t | t in targets
      ensures HasMember(t, st.pubs) <==> t !in plan.blanks
    {
      if t !in plan.blanks && t !in plan.path {
        KeyedHasMember(base, st, leaves, full, plan, t);
      }
    }
  }

  // ------------------------------------------------------------------ when a blanked node is still a target

  lemma SomeLeafUnder(x: nat) returns (l: nat)
    ensures Under(l, x)
  {
    l := Pos(x) * Pow2(Level(x));
    ShrRange(l, Level(x), Pos(x));
  }

  lemma RootHasMember(st: TreeState)
    requires InCapacity(st) && exists l: nat :: IsOccupied(l, st.pubs)
    ensures HasMember(Root(st.capacity), st.pubs)
  {
    var l: nat :| IsOccupied(l, st.pubs);
    RootAboveAll(l, st.capacity);
  }

  // A keyed node b inside a blanked node y makes a blanked node the target of some path node.
  lemma {:induction false} BlankedTargetAbove(
    base: map<nat, Key>, st: TreeState, leaves: seq<nat>, full: bool, plan: CommitPlan, b: nat, y: nat, l: nat)
    returns (n: nat, t: nat)
    requires Settled(base) && DriftedFrom(base, st, leaves, full) && IsPlan(st, leaves, full, plan)
    requires exists m: nat :: IsOccupied(m, st.pubs)
    requires y in plan.blanks && b in st.pubs && Level(b) <= Level(y) && Under(l, b) && Under(l, y)
    ensures n in plan.path && t in plan.targets[n] && t in plan.blanks && Under(l, t) && Under(l, n)
    decreases Depth(st.capacity) - Level(y)
  {
    RootHasMember(st);
    ParentInTree(y, st.capacity);
    ChildOfParent(y);
    var x := Up(y);
    assert Candidate(x, st.capacity, leaves, full);
    if HasMember(x, st.pubs) {
      n := x;
      var renewed := Elements(plan.path);
      t := ResolutionCovers(y, st.pubs, renewed, b, l);
      ResolutionInside(y, st.pubs, renewed, t);
      ChildrenSplit(x);
      assert t in ChildResolutions(x, st.pubs, renewed);
      if HasMember(t, st.pubs) {
        MemberAbove(t, y, st.pubs);
      }
      TargetsPartitionMembers(base, st, leaves, full, plan, n);
    } else {
      n, t := BlankedTargetAbove(base, st, leaves, full, plan, b, x, l);
    }
  }

  // Some target has no member below it exactly when the plan blanks a node that still has a key.
  lemma BlankedTargetIff(base: map<nat, Key>, st: TreeState, leaves: seq<nat>, full: bool, plan: CommitPlan)
    requires Settled(base) && DriftedFrom(base, st, leaves, full) && IsPlan(st, leaves, full, plan)
    requires exists m: nat :: IsOccupied(m, st.pubs)
    ensures (exists n, t :: n in plan.path && t in plan.targets[n] && !HasMember(t, st.pubs)) <==>
            (exists b :: b in plan.blanks && b in st.pubs)
  {
    if b :| b in plan.blanks && b in st.pubs {
      var l := SomeLeafUnder(b);
      var n, t := BlankedTargetAbove(base, st, leaves, full, plan, b, b, l);
      TargetsPartitionMembers(base, st, leaves, full, plan, n);
      assert n in plan.path && t in plan.targets[n] && !HasMember(t, st.pubs);
    }
    if n, t :| n in plan.path && t in plan.targets[n] && !HasMember(t, st.pubs) {
      TargetsPartitionMembers(base, st, leaves, full, plan, n);
      TargetsHaveKeys(n, st.pubs, Elements(plan.path));
      assert t in plan.blanks && t in st.pubs;
    }
  }

  // ------------------------------------------------------------------ commit size

  // Below an element of a resolution there is a member, now or at the last commit.
  lemma TargetWasOccupied(base: map<nat, Key>, st: TreeState, leaves: seq<nat>, full: bool, plan: CommitPlan, x: nat, t: nat)
    requires Settled(base) && DriftedFrom(base, st, leaves, full) && IsPlan(st, leaves, full, plan)
    requires t in Resolution(x, st.pubs, Elements(plan.path))
    ensures HasMember(x, st.pubs) || HasMember(x, base)
  {
    var renewed := Elements(plan.path);
    ResolutionHasKeys(x, st.pubs, renewed);
    ResolutionInside(x, st.pubs, renewed, t);
    if t in renewed {
      MemberAbove(t, x, st.pubs);
    } else if Level(t) == 0 {
      OccupiedLeafNode(t, st.pubs);
      MemberAbove(t, x, st.pubs);
    } else {
      assert SameAt(t, base, st.pubs);
      MemberAbove(t, x, base);
    }
  }

  lemma BaseMemberBelow(base: map<nat, Key>, st: TreeState, leaves: seq<nat>, full: bool, plan: CommitPlan, x: nat, c: nat)
    requires Settled(base) && DriftedFrom(base, st, leaves, full) && IsPlan(st, leaves, full, plan)
    requires Level(x) > 0 && InTree(x, st.capacity) && x !in plan.path
    requires (forall l: nat :: Under(l, c) ==> Under(l, x)) && Level(c) <= Level(x)
    requires HasMember(c, st.pubs) || HasMember(c, base)
    ensures HasMember(c, base)
  {
    if HasMember(c, st.pubs) {
      MemberAbove(c, x, st.pubs);
      assert !Candidate(x, st.capacity, leaves, full);
      var l: nat :| IsOccupied(l, st.pubs) && Under(l, c);
      UntouchedBelow(base, st, leaves, full, x, l);
      assert IsOccupied(l, base);
    }
  }

  lemma {:induction false} ResolutionAtMostOne(
    base: map<nat, Key>, st: TreeState, leaves: seq<nat>, full: bool, plan: CommitPlan, x: nat)
    requires Settled(base) && DriftedFrom(base, st, leaves, full) && IsPlan(st, leaves, full, plan)
    requires InTree(x, st.capacity)
    ensures |Resolution(x, st.pubs, Elements(plan.path))| <= 1
    decreases Level(x)
  {
    var renewed := Elements(plan.path);
    if !(x in renewed || x in st.pubs) && Level(x) > 0 {
      ChildrenSplit(x);
      ChildrenInTree(x, st.capacity);
      ResolutionAtMostOne(base, st, leaves, full, plan, Left(x));
      ResolutionAtMostOne(base, st, leaves, full, plan, Right(x));
      var a := Resolution(Left(x), st.pubs, renewed);
      var b := Resolution(Right(x), st.pubs, renewed);
      assert SameAt(x, base, st.pubs);
      if a != [] && b != [] {
        TargetWasOccupied(base, st, leaves, full, plan, Left(x), a[0]);
        TargetWasOccupied(base, st, leaves, full, plan, Right(x), b[0]);
        BaseMemberBelow(base, st, leaves, full, plan, x, Left(x));
        BaseMemberBelow(base, st, leaves, full, plan, x, Right(x));
      }
    }
  }

  lemma AtMostTwoTargets(base: map<nat, Key>, st: TreeState, leaves: seq<nat>, full: bool, plan: CommitPlan, n: nat)
    requires Settled(base) && DriftedFrom(base, st, leaves, full) && IsPlan(st, leaves, full, plan)
    requires n in plan.path
    ensures |plan.targets[n]| <= 2
  {
    ChildrenInTree(n, st.capacity);
    ResolutionAtMostOne(base, st, leaves, full, plan, Left(n));
    ResolutionAtMostOne(base, st, leaves, full, plan, Right(n));
  }

  // Number of node keys a commit seals.
  function SealCount(path: seq<nat>, targets: map<nat, seq<nat>>): nat
    requires forall n :: n in path ==> n in targets
  {
    if path == [] then 0 else |targets[path[0]]| + SealCount(path[1..], targets)
  }

  lemma {:induction false} SealCountAtMostTwice(path: seq<nat>, targets: map<nat, seq<nat>>)
    requires forall n :: n in path ==> n in targets && |targets[n]| <= 2
    ensures SealCount(path, targets) <= 2 * |path|
  {
    if path != [] {
      SealCountAtMostTwice(path[1..], targets);
    }
  }

  // The path above one leaf has at most one node per level.
  lemma {:induction false} SingleLeafPathLength(path: seq<nat>, leaf: nat, capacity: nat, i: nat)
    requires IsCapacity(capacity) && Ascending(path) && i < |path|
    requires forall x :: x in path ==> IsAncestor(x, leaf, capacity)
    ensures i < Level(path[i]) <= Depth(capacity)
  {
    assert path[i] in path;
    InTreeCoordinates(path[i], Depth(capacity));
    if i > 0 {
      SingleLeafPathLength(path, leaf, capacity, i - 1);
      assert path[i - 1] in path;
      if Level(path[i - 1]) == Level(path[i]) {
        SameLevelSameNode(leaf, path[i - 1], path[i]);
      }
      assert Before(path[i - 1], path[i]);
    }
  }

  // A change of one leaf costs at most 2 * log2(capacity) sealed node keys.
  lemma CommitSizeLogarithmic(base: map<nat, Key>, st: TreeState, leaf: nat, plan: CommitPlan)
    requires Settled(base) && DriftedFrom(base, st, [leaf], false) && IsPlan(st, [leaf], false, plan)
    ensures |plan.path| <= Depth(st.capacity)
    ensures SealCount(plan.path, plan.targets) <= 2 * Depth(st.capacity)
  {
    forall n | n in plan.path
      ensures n in plan.targets && |plan.targets[n]| <= 2
      ensures IsAncestor(n, leaf, st.capacity)
    {
      assert n in Elements(plan.path);
      AtMostTwoTargets(base, st, [leaf], false, plan, n);
    }
    SealCountAtMostTwice(plan.path, plan.targets);
    if |plan.path| > 0 {
      SingleLeafPathLength(plan.path, leaf, st.capacity, |plan.path| - 1);
    }
  }

  // ------------------------------------------------------------------ the exception occurs

  // Leaves 0 and 3 of four were occupied, then leaf 3 lost its member.
  const EXAMPLE_TREE := TreeState(4, map[0 := IdentityKey(0), 1 := NodeKey(1), 3 := NodeKey(3), 5 := NodeKey(5)])

  const EXAMPLE_BASE := EXAMPLE_TREE.pubs[6 := IdentityKey(3)]

  const EXAMPLE_PLAN :=
    CommitPlan(4, 3, [3], [5], map[3 := [1, 5]], map[1 := NodeKey(1), 5 := NodeKey(5)])

  // Node 5 has no member left and is blanked, but the new root key is sealed under its old key.
  lemma BlankedTargetExample()
    ensures Settled(EXAMPLE_BASE) && DriftedFrom(EXAMPLE_BASE, EXAMPLE_TREE, [3], false)
    ensures IsPlan(EXAMPLE_TREE, [3], false, EXAMPLE_PLAN)
    ensures 5 in EXAMPLE_PLAN.targets[3] && !HasMember(5, EXAMPLE_TREE.pubs)
  {
    ExampleSettled();
    ExamplePlanned();
  }

  lemma SmallTree()
    ensures IsCapacity(4)
    ensures forall x: nat :: x < 7 && Level(x) > 0 <==> x == 1 || x == 3 || x == 5
    ensures Level(1) == 1 && Level(5) == 1 && Level(3) == 2 && Level(0) == Level(6) == 0
    ensures Left(3) == 1 && Right(3) == 5
    ensures forall l: nat :: (Under(l, 1) <==> l < 2) && (Under(l, 5) <==> 2 <= l < 4) && (Under(l, 3) <==> l < 4)
  {
    assert Pow2(2) == 4;
    forall l: nat
      ensures Shr(l, 1) == l / 2 && Shr(l, 2) == l / 4
    {
      assert Shr(l, 1) == Shr(l, 0) / 2;
    }
  }

  lemma ExampleMembers(x: nat)
    ensures HasMember(x, EXAMPLE_TREE.pubs) <==> Under(0, x)
    ensures HasMember(x, EXAMPLE_BASE) <==> Under(0, x) || Under(3, x)
  {
    assert IsOccupied(0, EXAMPLE_TREE.pubs) && IsOccupied(0, EXAMPLE_BASE) && IsOccupied(3, EXAMPLE_BASE);
  }

  lemma ExampleCandidates(x: nat)
    ensures Candidate(x, 4, [3], false) <==> x == 3 || x == 5
    ensures Candidate(x, 4, [3], false) && HasMember(x, EXAMPLE_TREE.pubs) <==> x == 3
  {
    SmallTree();
    ExampleMembers(x);
    assert 3 in [3];
  }

  lemma ExampleTargets()
    ensures AreTargets(EXAMPLE_TREE, EXAMPLE_PLAN.path, EXAMPLE_PLAN.targets)
    ensures AreKnown(EXAMPLE_TREE, EXAMPLE_PLAN)
  {
    SmallTree();
    assert Elements([3]) == {3};
    assert ChildResolutions(3, EXAMPLE_TREE.pubs, {3}) == [1, 5];
  }

  lemma ExamplePlanned()
    ensures IsPlan(EXAMPLE_TREE, [3], false, EXAMPLE_PLAN) && !HasMember(5, EXAMPLE_TREE.pubs)
  {
    ExamplePaths();
    ExampleTargets();
    ExampleCandidates(5);
  }

  lemma ExamplePaths()
    ensures IsPath(EXAMPLE_TREE, [3], false, EXAMPLE_PLAN.path)
    ensures AreBlanks(EXAMPLE_TREE, [3], false, EXAMPLE_PLAN.blanks)
  {
    forall x: nat
      ensures x in [3] <==> Candidate(x, 4, [3], false) && HasMember(x, EXAMPLE_TREE.pubs)
      ensures x in [5] <==> Candidate(x, 4, [3], false) && !HasMember(x, EXAMPLE_TREE.pubs)
    {
      ExampleCandidates(x);
    }
  }

  lemma ExampleSettled()
    ensures Settled(EXAMPLE_BASE) && DriftedFrom(EXAMPLE_BASE, EXAMPLE_TREE, [3], false)
  {
    SmallTree();
    forall x | x in EXAMPLE_BASE && Level(x) > 0
      ensures HasMember(x, EXAMPLE_BASE)
    {
      ExampleMembers(x);
    }
    forall x: nat | Level(x) > 0 && x !in EXAMPLE_BASE
      ensures !(HasMember(Left(x), EXAMPLE_BASE) && HasMember(Right(x), EXAMPLE_BASE))
    {
      ExampleUnkeyed(x);
    }
  }

  lemma ExampleUnkeyed(x: nat)
    requires Level(x) > 0 && x !in EXAMPLE_BASE
    ensures !(HasMember(Left(x), EXAMPLE_BASE) && HasMember(Right(x), EXAMPLE_BASE))
  {
    SmallTree();
    ExampleMembers(Left(x));
    ExampleMembers(Right(x));
    ChildrenSplit(x);
    if Under(0, Left(x)) && Under(3, Right(x)) {
      SplitInTree(x, 0, 3, 4);
    }
    if Under(3, Left(x)) && Under(0, Right(x)) {
      SplitInTree(x, 3, 0, 4);
    }
  }
}
