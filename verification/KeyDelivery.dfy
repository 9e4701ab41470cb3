// One commit seen by one seated member: it obtains the epoch secret, and afterwards holds every
// key above its leaf, whatever else happened to the tree since the commit before.
module KeyDelivery {
  import opened NodeArithmetic
  import opened KeyTree
  import opened PlanProperties
  import opened GroupCommit
  import opened CommitLearning

  // ------------------------------------------------------------------ a commit in its tree

  // The public keys after the commit (key_service.tree_commit).
  function NextPubs(st: TreeState, plan: CommitPlan, keys: map<nat, Key>): map<nat, Key>
  {
    (st.pubs + keys) - Elements(plan.blanks)
  }

  // Everything one commit depends on: the tree left by the previous commit, the
  // tree the commit was made for, the leaves waiting for it, its plan and its keys.
  datatype Round = Round(
    base: map<nat, Key>, st: TreeState, leaves: seq<nat>, full: bool,
    plan: CommitPlan, keys: map<nat, Key>, secret: nat, commit: Commit)
  {
    // The node keys as sent, in the tree as it is when the commit arrives.
    function Sent(): Delivery
    {
      Delivery(commit.nodes, plan.path, plan.targets, st.pubs, keys)
    }

    ghost predicate Valid()
    {
      Settled(base) && DriftedFrom(base, st, leaves, full) &&
      (full || leaves != []) && (forall l :: l in leaves ==> l < st.capacity) &&
      (exists l: nat :: IsOccupied(l, st.pubs)) &&
      IsPlan(st, leaves, full, plan) && Sent().Valid() &&
      commit.blanks == plan.blanks && commit.root == plan.root &&
      Sent().KeyAt(plan.root) == Some(commit.rootBox.to) && commit.rootBox.content == secret
    }

    function After(): map<nat, Key>
    {
      NextPubs(st, plan, keys)
    }
  }

  ghost predicate Seated(u: nat, l: nat, pubs: map<nat, Key>)
  {
    LeafNode(l) in pubs && pubs[LeafNode(l)] == IdentityKey(u)
  }

  // The client knows the private half of every key above (and at) leaf l.
  ghost predicate Holds(privs: map<nat, Key>, pubs: map<nat, Key>, l: nat)
  {
    forall x: nat :: x in pubs && Under(l, x) ==> x in privs && privs[x] == pubs[x]
  }

  // ------------------------------------------------------------------ the commit leaves a settled tree

  lemma NextIsSettled(r: Round)
    requires r.Valid()
    ensures Settled(r.After())
    ensures forall l: nat :: SameAt(LeafNode(l), r.st.pubs, r.After())
  {
    var after := r.After();
    forall l: nat
      ensures SameAt(LeafNode(l), r.st.pubs, after)
    {
      LeafCoordinates(l);
    }
    forall x: nat
      ensures HasMember(x, after) <==> HasMember(x, r.st.pubs)
    {
      SameMembers(x, r.st.pubs, after);
    }
    forall x | x in after && Level(x) > 0
      ensures HasMember(x, after)
    {
      if x !in r.plan.path {
        KeyedHasMember(r.base, r.st, r.leaves, r.full, r.plan, x);
      }
    }
    forall x: nat | Level(x) > 0 && x !in after
      ensures !(HasMember(Left(x), after) && HasMember(Right(x), after))
    {
      UnkeyedAfter(r, x);
    }
  }

  lemma SameMembers(x: nat, a: map<nat, Key>, b: map<nat, Key>)
    requires forall l: nat :: SameAt(LeafNode(l), a, b)
    ensures HasMember(x, a) <==> HasMember(x, b)
  {
    if l: nat :| IsOccupied(l, a) && Under(l, x) {
      assert SameAt(LeafNode(l), a, b);
      assert IsOccupied(l, b);
    }
    if l: nat :| IsOccupied(l, b) && Under(l, x) {
      assert SameAt(LeafNode(l), a, b);
      assert IsOccupied(l, a);
    }
  }

  lemma UnkeyedAfter(r: Round, x: nat)
    requires r.Valid() && Level(x) > 0 && x !in r.After()
    ensures !(HasMember(Left(x), r.st.pubs) && HasMember(Right(x), r.st.pubs))
  {
    ChildrenSplit(x);
    if HasMember(Left(x), r.st.pubs) && HasMember(Right(x), r.st.pubs) {
      var l: nat :| IsOccupied(l, r.st.pubs) && Under(l, Left(x));
      var m: nat :| IsOccupied(m, r.st.pubs) && Under(m, Right(x));
      assert InTree(LeafNode(m), r.st.capacity);
      SplitInTree(x, l, m, r.st.capacity);
      MemberAbove(Left(x), x, r.st.pubs);
      assert x !in r.plan.path && x !in r.plan.blanks;
      assert !Candidate(x, r.st.capacity, r.leaves, r.full);
      assert SameAt(x, r.base, r.st.pubs);
      BaseMemberBelow(r.base, r.st, r.leaves, r.full, r.plan, x, Left(x));
      BaseMemberBelow(r.base, r.st, r.leaves, r.full, r.plan, x, Right(x));
    }
  }

  // ------------------------------------------------------------------ processing the commit

  ghost predicate Finished(r: Round, privs: map<nat, Key>, after: map<nat, Key>)
  {
    after == LearnNodes(privs, SortNodes(r.commit.nodes)) - Elements(r.commit.blanks)
  }

  lemma FinishedProgress(r: Round, privs: map<nat, Key>, after: map<nat, Key>)
    requires r.Valid() && Finished(r, privs, after)
    ensures after == Progress(r.Sent(), privs, |r.plan.path|) - Elements(r.plan.blanks)
  {
    var nodes := r.commit.nodes;
    forall i, j | 0 <= i < j < |nodes|
      ensures Before(nodes[i].index, nodes[j].index)
    {
      Delivered(r.Sent(), i);
      Delivered(r.Sent(), j);
    }
    SortedStays(nodes);
    ProgressIsPrefix(r.Sent(), privs, |nodes|);
    assert nodes[..|nodes|] == nodes;
  }

  ghost function PathAbove(r: Round, l: nat): set<nat>
  {
    set n | n in r.plan.path && Under(l, n)
  }

  // A target that is a path node of a lower level comes before its node.
  lemma LowerIsEarlier(path: seq<nat>, i: nat, t: nat)
    requires Ascending(path) && i < |path| && t in path && Level(t) < Level(path[i])
    ensures exists j :: 0 <= j < i && path[j] == t
  {
    var j :| 0 <= j < |path| && path[j] == t;
    assert i < j ==> Before(path[i], path[j]);
  }

  lemma ClimbsAt(r: Round, privs: map<nat, Key>, l: nat, i: nat, t: nat)
    requires r.Valid() && i < |r.plan.path|
    requires t in r.plan.targets[r.plan.path[i]] && Under(l, t) && Level(t) < Level(r.plan.path[i])
    requires t in r.plan.path || (t in privs && t in r.st.pubs && privs[t] == r.st.pubs[t])
    ensures Climbable(r.Sent(), privs, PathAbove(r, l), i)
  {
    Delivered(r.Sent(), i);
    if t in r.plan.path {
      LowerIsEarlier(r.plan.path, i, t);
    }
    assert OpensBelow(r.Sent(), privs, PathAbove(r, l), i, t);
  }

  // A client that can climb to the root obtains the epoch secret and all new keys above its leaf.
  lemma ClimbGivesKey(r: Round, privs: map<nat, Key>, above: set<nat>, n: nat, after: map<nat, Key>)
    requires r.Valid() && CanClimb(r.Sent(), privs, above) && Finished(r, privs, after)
    requires n in above && n in r.plan.path
    ensures n in after && after[n] == r.keys[n]
  {
    FinishedProgress(r, privs, after);
    var j :| 0 <= j < |r.plan.path| && r.plan.path[j] == n;
    Climb(r.Sent(), privs, above, |r.plan.path|, j);
    assert n !in r.plan.blanks;
  }

  lemma ClimbGivesSecret(r: Round, privs: map<nat, Key>, l: nat, after: map<nat, Key>)
    requires r.Valid() && CanClimb(r.Sent(), privs, PathAbove(r, l)) && Finished(r, privs, after) && l < r.st.capacity
    requires r.st.capacity == 1 ==> r.plan.root in privs && privs[r.plan.root] == r.st.pubs[r.plan.root]
    ensures SecretFrom(after, r.commit) == Some(r.secret)
  {
    PlanIsSealable(r.st, r.leaves, r.full, r.plan);
    RootAboveAll(l, r.st.capacity);
    if r.st.capacity == 1 {
      OldKeyKept(r, privs, r.plan.root, after);
    } else {
      ClimbGivesKey(r, privs, PathAbove(r, l), r.plan.root, after);
    }
  }

  // A stored key that the commit neither renews nor blanks stays as it was.
  lemma OldKeyKept(r: Round, privs: map<nat, Key>, x: nat, after: map<nat, Key>)
    requires r.Valid() && Finished(r, privs, after)
    requires !Candidate(x, r.st.capacity, r.leaves, r.full)
    ensures SameAt(x, after, privs)
  {
    FinishedProgress(r, privs, after);
    OthersUnchanged(r.Sent(), privs, |r.plan.path|, x);
    assert x !in r.plan.blanks;
  }

  // ------------------------------------------------------------------ members learn

  // A seated member that held its keys before, or is newly seated, can climb.
  lemma MemberClimbs(r: Round, privs: map<nat, Key>, u: nat, l: nat)
    requires r.Valid() && Seated(u, l, r.st.pubs)
    requires LeafNode(l) in privs && privs[LeafNode(l)] == IdentityKey(u)
    requires Seated(u, l, r.base) ==> Holds(privs, r.base, l)
    ensures CanClimb(r.Sent(), privs, PathAbove(r, l))
  {
    forall i | 0 <= i < |r.plan.path| && r.plan.path[i] in PathAbove(r, l)
      ensures Climbable(r.Sent(), privs, PathAbove(r, l), i)
    {
      var n := r.plan.path[i];
      LeafCoordinates(l);
      var renewed := Elements(r.plan.path);
      var t := TargetsCover(n, r.st.pubs, renewed, LeafNode(l), l);
      TargetsHaveKeys(n, r.st.pubs, renewed);
      if t !in r.plan.path {
        MemberOpensOld(r, privs, u, l, t);
      }
      ClimbsAt(r, privs, l, i, t);
    }
  }

  lemma MemberOpensOld(r: Round, privs: map<nat, Key>, u: nat, l: nat, t: nat)
    requires r.Valid() && Seated(u, l, r.st.pubs)
    requires LeafNode(l) in privs && privs[LeafNode(l)] == IdentityKey(u)
    requires Seated(u, l, r.base) ==> Holds(privs, r.base, l)
    requires t in r.st.pubs && t !in r.plan.path && Under(l, t)
    ensures t in privs && privs[t] == r.st.pubs[t]
  {
    if Level(t) == 0 {
      LeafCoordinates(l);
      SameLevelSameNode(l, t, LeafNode(l));
    } else {
      assert IsOccupied(l, r.st.pubs) && HasMember(t, r.st.pubs);
      assert !Candidate(t, r.st.capacity, r.leaves, r.full);
      UntouchedBelow(r.base, r.st, r.leaves, r.full, t, l);
      assert SameAt(t, r.base, r.st.pubs);
    }
  }

  // Delivery: a seated member obtains the epoch secret and afterwards holds every key above its leaf.
  lemma MemberReceives(r: Round, privs: map<nat, Key>, u: nat, l: nat, after: map<nat, Key>)
    requires r.Valid() && Seated(u, l, r.st.pubs)
    requires LeafNode(l) in privs && privs[LeafNode(l)] == IdentityKey(u)
    requires Seated(u, l, r.base) ==> Holds(privs, r.base, l)
    requires Finished(r, privs, after)
    ensures SecretFrom(after, r.commit) == Some(r.secret)
    ensures Seated(u, l, r.After()) && Holds(after, r.After(), l)
  {
    MemberClimbs(r, privs, u, l);
    assert InTree(LeafNode(l), r.st.capacity);
    LeafCoordinates(l);
    if r.st.capacity == 1 {
      assert l == 0 && r.plan.root == LeafNode(0);
    }
    ClimbGivesSecret(r, privs, l, after);
    NextIsSettled(r);
    assert SameAt(LeafNode(l), r.st.pubs, r.After());
    forall x: nat | x in r.After() && Under(l, x)
      ensures x in after && after[x] == r.After()[x]
    {
      if x in r.plan.path {
        ClimbGivesKey(r, privs, PathAbove(r, l), x, after);
      } else {
        MemberOpensOld(r, privs, u, l, x);
        OldKeyKept(r, privs, x, after);
      }
    }
  }

  // ------------------------------------------------------------------ blanks and targets

  // Leaves belong to users.
  ghost predicate LeavesAreIdentities(pubs: map<nat, Key>)
  {
    forall l: nat :: IsOccupied(l, pubs) ==> pubs[LeafNode(l)].IdentityKey?
  }

  lemma PathAboveBlank(r: Round, l: nat, n: nat, b: nat)
    requires r.Valid() && n in r.plan.path && b in r.plan.blanks && Under(l, n) && Under(l, b)
    ensures Level(b) < Level(n)
  {
    if Level(n) <= Level(b) {
      Nested(l, n, b);
      MemberAbove(n, b, r.st.pubs);
      assert false;
    }
  }

  lemma TargetsInside(r: Round, n: nat, t: nat)
    requires r.Valid() && n in r.plan.path && t in r.plan.targets[n]
    ensures Inside(t, n)
  {
    var renewed := Elements(r.plan.path);
    ChildrenSplit(n);
    if t in Resolution(Left(n), r.st.pubs, renewed) {
      ResolutionInside(Left(n), r.st.pubs, renewed, t);
    } else {
      ResolutionInside(Right(n), r.st.pubs, renewed, t);
    }
  }
}
