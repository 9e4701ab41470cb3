// Planning a key-tree commit: which inner nodes get a new key, which become empty, and who is sealed to.
module KeyTree {
  import opened Bits
  import opened NodeArithmetic

  // A key pair, named by what it belongs to.  The public and the private half
  // carry the same name; opening a sealed value needs the private half.
  datatype Key = IdentityKey(user: nat) | NodeKey(id: nat)

  datatype Option<+T> = None | Some(value: T)

  // Nodes without a key are absent: the code reads a missing row and a row with a null key alike.
  datatype TreeState = TreeState(capacity: nat, pubs: map<nat, Key>)

  datatype CommitPlan = CommitPlan(
    capacity: nat,
    root: nat,
    path: seq<nat>,
    blanks: seq<nat>,
    targets: map<nat, seq<nat>>,
    knownPubs: map<nat, Key>)

  datatype PlanResult = Planned(plan: CommitPlan) | NoMembers

  predicate IsOccupied(l: nat, pubs: map<nat, Key>)
  {
    LeafNode(l) in pubs
  }

  ghost predicate SameAt(x: nat, a: map<nat, Key>, b: map<nat, Key>)
  {
    (x in a <==> x in b) && (x in a ==> a[x] == b[x])
  }

  ghost predicate HasMember(x: nat, pubs: map<nat, Key>)
  {
    exists l: nat :: IsOccupied(l, pubs) && Under(l, x)
  }

  ghost predicate InCapacity(st: TreeState)
  {
    IsCapacity(st.capacity) && forall x :: x in st.pubs ==> InTree(x, st.capacity)
  }

  // Inner nodes a commit may touch: the whole tree, or the paths above the changed leaves.
  ghost predicate Candidate(x: nat, capacity: nat, leaves: seq<nat>, full: bool)
  {
    capacity > 1 && Level(x) > 0 && InTree(x, capacity) &&
    (full || exists l :: l in leaves && Under(l, x))
  }

  // treekem.resolution: the highest keyed nodes that cover the members under x.
  function Resolution(x: nat, pubs: map<nat, Key>, renewed: set<nat>): (r: seq<nat>)
    decreases Level(x), 0
  {
    if x in renewed || x in pubs then [x]
    else if Level(x) == 0 then []
    else ChildResolutions(x, pubs, renewed)
  }

  // The targets of an inner node: the resolutions of its two children.
  function ChildResolutions(x: nat, pubs: map<nat, Key>, renewed: set<nat>): (r: seq<nat>)
    requires Level(x) > 0
    decreases Level(x) - 1, 1
  {
    ChildrenSplit(x);
    Resolution(Left(x), pubs, renewed) + Resolution(Right(x), pubs, renewed)
  }

  // ------------------------------------------------------------------ what a plan is

  function Elements(s: seq<nat>): set<nat>
  {
    set x | x in s
  }

  // Bottom-up: by level, then by number.
  predicate Before(x: nat, y: nat)
  {
    Level(x) < Level(y) || (Level(x) == Level(y) && x < y)
  }

  predicate Ascending(s: seq<nat>)
  {
    forall i, j :: 0 <= i < j < |s| ==> Before(s[i], s[j])
  }

  ghost predicate IsPath(st: TreeState, leaves: seq<nat>, full: bool, path: seq<nat>)
  {
    Ascending(path) &&
    forall x: nat :: x in path <==> Candidate(x, st.capacity, leaves, full) && HasMember(x, st.pubs)
  }

  ghost predicate AreBlanks(st: TreeState, leaves: seq<nat>, full: bool, blanks: seq<nat>)
  {
    forall x: nat :: x in blanks <==> Candidate(x, st.capacity, leaves, full) && !HasMember(x, st.pubs)
  }

  ghost predicate AreTargets(st: TreeState, path: seq<nat>, targets: map<nat, seq<nat>>)
  {
    targets.Keys == Elements(path) &&
    forall x :: x in path ==> Level(x) > 0 && targets[x] == ChildResolutions(x, st.pubs, Elements(path))
  }

  predicate IsTarget(t: nat, targets: map<nat, seq<nat>>)
  {
    exists n :: n in targets && t in targets[n]
  }

  ghost predicate AreKnown(st: TreeState, plan: CommitPlan)
  {
    (forall x :: x in plan.knownPubs ==> x in st.pubs && x !in plan.path && plan.knownPubs[x] == st.pubs[x]) &&
    (forall x, t :: x in plan.targets && t in plan.targets[x] && t !in plan.path ==> t in plan.knownPubs) &&
    (plan.root !in plan.path && plan.root in st.pubs ==> plan.root in plan.knownPubs)
  }

  ghost predicate IsPlan(st: TreeState, leaves: seq<nat>, full: bool, plan: CommitPlan)
  {
    st.capacity > 0 &&
    plan.capacity == st.capacity && plan.root == Root(st.capacity) &&
    IsPath(st, leaves, full, plan.path) &&
    AreBlanks(st, leaves, full, plan.blanks) &&
    AreTargets(st, plan.path, plan.targets) &&
    AreKnown(st, plan)
  }

  // ------------------------------------------------------------------ ordering

  lemma BeforeOrder(x: nat, y: nat, z: nat)
    ensures x != y ==> Before(x, y) || Before(y, x)
    ensures Before(x, y) && Before(y, z) ==> Before(x, z)
  {
  }

  lemma {:induction false} LeastExists(s: set<nat>) returns (least: nat)
    requires s != {}
    ensures least in s && forall y :: y in s && y != least ==> Before(least, y)
  {
    least :| least in s;
    if s != {least} {
      var m := LeastExists(s - {least});
      forall y { BeforeOrder(least, m, y); }
      if Before(m, least) {
        least := m;
      }
    }
  }

  method SortBottomUp(s: set<nat>) returns (r: seq<nat>)
    ensures Ascending(r) && forall x :: x in r <==> x in s
  {
    r := [];
    var rest := s;
    while rest != {}
      invariant rest <= s && forall x :: x in s <==> x in r || x in rest
      invariant Ascending(r)
      invariant forall x, y :: x in r && y in rest ==> Before(x, y)
      decreases rest
    {
      ghost var least := LeastExists(rest);
      var x :| x in rest && forall y :: y in rest && y != x ==> Before(x, y);
      r := r + [x];
      rest := rest - {x};
    }
  }

  predicate Increasing(s: seq<nat>)
  {
    forall i, j :: 0 <= i < j < |s| ==> s[i] < s[j]
  }

  lemma {:induction false} SmallestExists(s: set<nat>) returns (m: nat)
    requires s != {}
    ensures m in s && forall y :: y in s ==> m <= y
  {
    m :| m in s;
    if s != {m} {
      var r := SmallestExists(s - {m});
      assert forall y :: y in s ==> y == m || y in s - {m};
      m := if r < m then r else m;
    }
  }

  method SortByNumber(s: set<nat>) returns (r: seq<nat>)
    ensures Increasing(r) && forall x :: x in r <==> x in s
  {
    r := [];
    var rest := s;
    while rest != {}
      invariant rest <= s && forall x :: x in s <==> x in r || x in rest
      invariant Increasing(r)
      invariant forall x, y :: x in r && y in rest ==> x < y
      decreases rest
    {
      ghost var least := SmallestExists(rest);
      var x :| x in rest && forall y :: y in rest ==> x <= y;
      forall i | 0 <= i < |r| ensures r[i] < x {
        assert r[i] in r && x in rest;
      }
      r := r + [x];
      rest := rest - {x};
    }
  }

  // Two ascending sequences with the same elements are the same sequence.
  lemma {:induction false} AscendingUnique(a: seq<nat>, b: seq<nat>)
    requires Ascending(a) && Ascending(b)
    requires forall x :: x in a <==> x in b
    ensures a == b
  {
    assert |a| > 0 ==> a[0] in b;
    assert |b| > 0 ==> b[0] in a;
    if |a| > 0 {
      var i :| 0 <= i < |b| && b[i] == a[0];
      var j :| 0 <= j < |a| && a[j] == b[0];
      assert a[0] == b[0];
      forall x: nat
        ensures x in a[1..] <==> x in b[1..]
      {
        if x in a[1..] {
          var k :| 1 <= k < |a| && a[k] == x;
          assert Before(a[0], a[k]);
          assert x in b;
        }
        if x in b[1..] {
          var k :| 1 <= k < |b| && b[k] == x;
          assert Before(b[0], b[k]);
          assert x in a;
        }
      }
      AscendingUnique(a[1..], b[1..]);
      assert a == [a[0]] + a[1..] && b == [b[0]] + b[1..];
    }
  }

  // ------------------------------------------------------------------ plan_commit

  method AffectedNodes(capacity: nat, leaves: seq<nat>, full: bool) returns (candidates: set<nat>)
    requires IsCapacity(capacity)
    requires full || forall l :: l in leaves ==> l < capacity
    ensures forall x: nat :: x in candidates <==> Candidate(x, capacity, leaves, full)
  {
    if capacity == 1 {
      candidates := {};
    } else if full {
      candidates := set x: nat | x < NodeCount(capacity) && Level(x) > 0;
    } else {
      candidates := {};
      for i := 0 to |leaves|
        invariant forall x: nat :: x in candidates <==> exists j :: 0 <= j < i && IsAncestor(x, leaves[j], capacity)
      {
        assert leaves[i] in leaves;
        LeafCoordinates(leaves[i]);
        var path := DirectPath(LeafNode(leaves[i]), capacity);
        DirectPathIsAncestors(path, leaves[i], capacity);
        candidates := candidates + set x | x in path;
      }
    }
  }

  method HasMemberLeaf(x: nat, occupied: set<nat>) returns (b: bool)
    ensures b <==> exists l :: l in occupied && Under(l, x)
  {
    var range := SubtreeLeaves(x);
    b := exists l :: l in occupied && range.0 <= l < range.1;
    forall l: nat { SubtreeLeavesAreUnder(x, l); }
  }

  method SplitCandidates(candidates: set<nat>, pubs: map<nat, Key>) returns (refreshed: set<nat>, blanks: set<nat>)
    ensures forall x :: x in refreshed <==> x in candidates && HasMember(x, pubs)
    ensures forall x :: x in blanks <==> x in candidates && !HasMember(x, pubs)
  {
    var occupied := set x | x in pubs && x % 2 == 0 :: x / 2;
    assert forall l: nat :: l in occupied <==> IsOccupied(l, pubs) by {
      forall l: nat | IsOccupied(l, pubs) ensures l in occupied { assert LeafNode(l) / 2 == l; }
    }
    refreshed, blanks := {}, {};
    var todo := candidates;
    while todo != {}
      invariant todo <= candidates
      invariant forall x :: x in refreshed <==> x in candidates - todo && HasMember(x, pubs)
      invariant forall x :: x in blanks <==> x in candidates - todo && !HasMember(x, pubs)
      decreases todo
    {
      var x :| x in todo;
      todo := todo - {x};
      var b := HasMemberLeaf(x, occupied);
      if b {
        refreshed := refreshed + {x};
      } else {
        blanks := blanks + {x};
      }
    }
  }

  // The keys of those targets that the commit does not renew.
  method AddKnown(known: map<nat, Key>, t: seq<nat>, pubs: map<nat, Key>, refreshed: set<nat>)
    returns (r: map<nat, Key>)
    requires forall x :: x in t ==> x in refreshed || x in pubs
    ensures forall x :: x in r <==> x in known || (x in t && x !in refreshed)
    ensures forall x :: x in r ==> r[x] == if x in t && x !in refreshed then pubs[x] else known[x]
  {
    r := known;
    for j := 0 to |t|
      invariant forall x :: x in r <==> x in known || (x in t[..j] && x !in refreshed)
      invariant forall x :: x in r ==> r[x] == if x in t[..j] && x !in refreshed then pubs[x] else known[x]
    {
      assert t[..j + 1] == t[..j] + [t[j]];
      if t[j] !in refreshed {
        r := r[t[j] := pubs[t[j]]];
      }
    }
    assert t[..|t|] == t;
  }

  method PlanTargets(order: seq<nat>, pubs: map<nat, Key>, refreshed: set<nat>)
    returns (targets: map<nat, seq<nat>>, known: map<nat, Key>)
    requires forall n :: n in order ==> Level(n) > 0
    ensures targets.Keys == Elements(order)
    ensures forall x :: x in targets ==> Level(x) > 0 && targets[x] == ChildResolutions(x, pubs, refreshed)
    ensures forall x :: x in known ==> x in pubs && x !in refreshed && known[x] == pubs[x]
    ensures forall x, t :: x in targets && t in targets[x] && t !in refreshed ==> t in known
    ensures forall t :: t in known ==> IsTarget(t, targets)
  {
    targets, known := map[], map[];
    for i := 0 to |order|
      invariant targets.Keys == Elements(order[..i])
      invariant forall x :: x in targets ==> Level(x) > 0 && targets[x] == ChildResolutions(x, pubs, refreshed)
      invariant forall x :: x in known ==> x in pubs && x !in refreshed && known[x] == pubs[x]
      invariant forall x, t :: x in targets && t in targets[x] && t !in refreshed ==> t in known
      invariant forall t :: t in known ==> IsTarget(t, targets)
    {
      var n := order[i];
      assert n in order;
      TargetsHaveKeys(n, pubs, refreshed);
      var t := ChildResolutions(n, pubs, refreshed);
      ghost var before, knew := targets, known;
      targets := targets[n := t];
      known := AddKnown(known, t, pubs, refreshed);
      forall x | x in known ensures IsTarget(x, targets) {
        assert n in targets;
        if x in knew {
          var m :| m in before && x in before[m];
          assert m in targets && targets[m] == before[m];
        }
      }
      assert order[..i + 1] == order[..i] + [n];
    }
    assert order[..|order|] == order;
  }

  // treekem.plan_commit
  method PlanCommit(st: TreeState, leaves: seq<nat>, full: bool) returns (r: PlanResult)
    requires InCapacity(st)
    requires full || forall l :: l in leaves ==> l < st.capacity
    ensures r.NoMembers? <==> forall l: nat :: !IsOccupied(l, st.pubs)
    ensures r.Planned? ==> IsPlan(st, leaves, full, r.plan) && Increasing(r.plan.blanks)
    ensures r.Planned? ==> forall t :: t in r.plan.knownPubs ==> IsTarget(t, r.plan.targets) || t == r.plan.root
  {
    var pubs := st.pubs;
    if !exists x :: x in pubs && x % 2 == 0 {
      return NoMembers;
    }
    assert exists l: nat :: IsOccupied(l, st.pubs) by {
      var x :| x in pubs && x % 2 == 0;
      assert IsOccupied(x / 2, pubs);
    }
    var candidates := AffectedNodes(st.capacity, leaves, full);
    var refreshed, blankSet := SplitCandidates(candidates, pubs);
    var order := SortBottomUp(refreshed);
    var blanks := SortByNumber(blankSet);
    assert Elements(order) == refreshed;
    var targets, known := PlanTargets(order, pubs, refreshed);
    var root := Root(st.capacity);
    if root !in refreshed && root in pubs {
      known := known[root := pubs[root]];
    }
    r := Planned(CommitPlan(st.capacity, root, order, blanks, targets, known));
  }

  // ------------------------------------------------------------------ what resolutions cover

  // Every element of a resolution has a new or a stored key, so the assertion in plan_commit cannot fail.
  lemma {:induction false} ResolutionHasKeys(x: nat, pubs: map<nat, Key>, renewed: set<nat>)
    ensures forall t :: t in Resolution(x, pubs, renewed) ==> t in renewed || t in pubs
    decreases Level(x)
  {
    if !(x in renewed || x in pubs) && Level(x) > 0 {
      ChildrenSplit(x);
      ResolutionHasKeys(Left(x), pubs, renewed);
      ResolutionHasKeys(Right(x), pubs, renewed);
    }
  }

  lemma TargetsHaveKeys(x: nat, pubs: map<nat, Key>, renewed: set<nat>)
    requires Level(x) > 0
    ensures forall t :: t in ChildResolutions(x, pubs, renewed) ==> t in renewed || t in pubs
  {
    ResolutionHasKeys(Left(x), pubs, renewed);
    ResolutionHasKeys(Right(x), pubs, renewed);
  }

  ghost predicate Inside(t: nat, x: nat)
  {
    Level(t) <= Level(x) && forall l: nat :: Under(l, t) ==> Under(l, x)
  }

  // Elements of a resolution lie inside the subtree.
  lemma {:induction false} ResolutionInside(x: nat, pubs: map<nat, Key>, renewed: set<nat>, t: nat)
    requires t in Resolution(x, pubs, renewed)
    ensures Inside(t, x)
    decreases Level(x)
  {
    if !(x in renewed || x in pubs) {
      ChildrenSplit(x);
      if t in Resolution(Left(x), pubs, renewed) {
        ResolutionInside(Left(x), pubs, renewed, t);
      } else {
        ResolutionInside(Right(x), pubs, renewed, t);
      }
    }
  }

  // No leaf lies under two elements of a resolution.
  lemma {:induction false} ResolutionDisjoint(x: nat, pubs: map<nat, Key>, renewed: set<nat>, i: nat, j: nat, l: nat)
    requires i < |Resolution(x, pubs, renewed)| && j < |Resolution(x, pubs, renewed)|
    requires Under(l, Resolution(x, pubs, renewed)[i]) && Under(l, Resolution(x, pubs, renewed)[j])
    ensures i == j
    decreases Level(x), 0
  {
    if !(x in renewed || x in pubs) {
      TargetsDisjoint(x, pubs, renewed, i, j, l);
    }
  }

  lemma {:induction false} TargetsDisjoint(x: nat, pubs: map<nat, Key>, renewed: set<nat>, i: nat, j: nat, l: nat)
    requires Level(x) > 0
    requires i < |ChildResolutions(x, pubs, renewed)| && j < |ChildResolutions(x, pubs, renewed)|
    requires Under(l, ChildResolutions(x, pubs, renewed)[i]) && Under(l, ChildResolutions(x, pubs, renewed)[j])
    ensures i == j
    decreases Level(x) - 1, 1
  {
    ChildrenSplit(x);
    var a := Resolution(Left(x), pubs, renewed);
    var b := Resolution(Right(x), pubs, renewed);
    ResolutionInside(if i < |a| then Left(x) else Right(x), pubs, renewed, (a + b)[i]);
    ResolutionInside(if j < |a| then Left(x) else Right(x), pubs, renewed, (a + b)[j]);
    if i < |a| && j < |a| {
      ResolutionDisjoint(Left(x), pubs, renewed, i, j, l);
    } else if i >= |a| && j >= |a| {
      ResolutionDisjoint(Right(x), pubs, renewed, i - |a|, j - |a|, l);
    }
  }

  // A leaf below some keyed node y of the subtree is covered by the resolution.
  lemma {:induction false} ResolutionCovers(x: nat, pubs: map<nat, Key>, renewed: set<nat>, y: nat, l: nat)
    returns (t: nat)
    requires y in renewed || y in pubs
    requires Level(y) <= Level(x) && Under(l, y) && Under(l, x)
    ensures t in Resolution(x, pubs, renewed) && Under(l, t) && Level(y) <= Level(t)
    decreases Level(x), 0
  {
    if x in renewed || x in pubs {
      t := x;
    } else {
      if Level(y) == Level(x) {
        SameLevelSameNode(l, x, y);
        assert false;
      }
      t := TargetsCover(x, pubs, renewed, y, l);
    }
  }

  lemma {:induction false} TargetsCover(x: nat, pubs: map<nat, Key>, renewed: set<nat>, y: nat, l: nat)
    returns (t: nat)
    requires y in renewed || y in pubs
    requires Level(y) < Level(x) && Under(l, y) && Under(l, x)
    ensures t in ChildResolutions(x, pubs, renewed) && Under(l, t) && Level(y) <= Level(t) < Level(x)
    decreases Level(x) - 1, 1
  {
    ChildrenSplit(x);
    if Under(l, Left(x)) {
      t := ResolutionCovers(Left(x), pubs, renewed, y, l);
      ResolutionInside(Left(x), pubs, renewed, t);
    } else {
      t := ResolutionCovers(Right(x), pubs, renewed, y, l);
      ResolutionInside(Right(x), pubs, renewed, t);
    }
  }

  // Above an element of a resolution, inside the subtree, no node has a key.
  lemma {:induction false} ResolutionIsHighest(x: nat, pubs: map<nat, Key>, renewed: set<nat>, t: nat, y: nat, l: nat)
    requires t in Resolution(x, pubs, renewed) && (y in renewed || y in pubs)
    requires Under(l, t) && Under(l, y) && Level(y) <= Level(x)
    ensures Level(y) <= Level(t)
    decreases Level(x), 0
  {
    ResolutionInside(x, pubs, renewed, t);
    if !(x in renewed || x in pubs) {
      if Level(y) == Level(x) {
        SameLevelSameNode(l, x, y);
      } else {
        TargetIsHighest(x, pubs, renewed, t, y, l);
      }
    }
  }

  lemma {:induction false} TargetIsHighest(x: nat, pubs: map<nat, Key>, renewed: set<nat>, t: nat, y: nat, l: nat)
    requires Level(x) > 0 && t in ChildResolutions(x, pubs, renewed) && (y in renewed || y in pubs)
    requires Under(l, t) && Under(l, y) && Level(y) < Level(x)
    ensures Level(y) <= Level(t)
    decreases Level(x) - 1, 1
  {
    ChildrenSplit(x);
    if t in Resolution(Left(x), pubs, renewed) {
      ResolutionIsHighest(Left(x), pubs, renewed, t, y, l);
    } else {
      ResolutionIsHighest(Right(x), pubs, renewed, t, y, l);
    }
  }
}
