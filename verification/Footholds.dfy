// What a user holds of the tree, in its seats and after losing them: one foothold for every leaf it ever sat on.
module Footholds {
  import opened Bits
  import opened NodeArithmetic
  import opened KeyTree
  import opened PlanProperties
  import opened GroupCommit
  import opened CommitLearning
  import opened KeyDelivery

  // For every leaf the node, if any, from which on upwards the user holds all keys above that leaf.
  type Holding = nat -> Option<nat>

  ghost predicate ReachedBy(foot: Holding, l: nat, n: nat)
  {
    foot(l).Some? && Under(l, n) && Level(foot(l).value) <= Level(n)
  }

  ghost predicate Reached(foot: Holding, n: nat)
  {
    exists l: nat :: ReachedBy(foot, l, n)
  }

  // A foothold is a leaf that the user sits on and knows, or an inner node that has a key.
  ghost predicate StandsAt(f: nat, l: nat, privs: map<nat, Key>, pubs: map<nat, Key>, u: nat)
  {
    Under(l, f) && if Level(f) == 0 then Seated(u, l, pubs) && LeafNode(l) in privs else f in pubs
  }

  ghost predicate Stands(foot: Holding, privs: map<nat, Key>, pubs: map<nat, Key>, u: nat)
  {
    forall l: nat {:trigger foot(l)} :: foot(l).Some? ==> StandsAt(foot(l).value, l, privs, pubs, u)
  }

  ghost predicate HoldsFrom(foot: Holding, privs: map<nat, Key>, pubs: map<nat, Key>)
  {
    forall l: nat, n: nat {:trigger ReachedBy(foot, l, n)} ::
      n in pubs && Level(n) > 0 && ReachedBy(foot, l, n) ==> SameAt(n, privs, pubs)
  }

  ghost predicate HoldsOnly(foot: Holding, privs: map<nat, Key>, pubs: map<nat, Key>)
  {
    forall x, n :: x in privs && n in pubs && Level(n) > 0 && privs[x] == pubs[n] ==> Reached(foot, n)
  }

  ghost predicate OwnIdentity(privs: map<nat, Key>, u: nat)
  {
    (forall x :: x in privs && privs[x].IdentityKey? ==> privs[x] == IdentityKey(u)) &&
    forall l: nat :: LeafNode(l) in privs ==> privs[LeafNode(l)] == IdentityKey(u)
  }

  // The footholds say exactly which keys of the tree the user holds.
  ghost predicate Exact(foot: Holding, privs: map<nat, Key>, pubs: map<nat, Key>, u: nat)
  {
    Stands(foot, privs, pubs, u) && HoldsFrom(foot, privs, pubs) && HoldsOnly(foot, privs, pubs) && OwnIdentity(privs, u)
  }

  // ------------------------------------------------------------------ lowest nodes above a leaf

  function Ancestor(l: nat, k: nat): nat
  {
    Node(k, Shr(l, k))
  }

  // The lowest of the nodes above a leaf, from level k up to level top.
  function LowestFrom(nodes: set<nat>, l: nat, k: nat, top: nat): Option<nat>
    decreases top + 1 - k
  {
    if k > top then None else if Ancestor(l, k) in nodes then Some(Ancestor(l, k)) else LowestFrom(nodes, l, k + 1, top)
  }

  lemma {:induction false} LowestIs(nodes: set<nat>, l: nat, k: nat, top: nat)
    ensures var r := LowestFrom(nodes, l, k, top);
      r.Some? ==> r.value in nodes && Under(l, r.value) && k <= Level(r.value) <= top
    ensures var r := LowestFrom(nodes, l, k, top);
      forall n :: n in nodes && Under(l, n) && k <= Level(n) <= top ==> r.Some? && Level(r.value) <= Level(n)
    decreases top + 1 - k
  {
    if k <= top {
      NodeCoordinates(k, Shr(l, k));
      forall n | n in nodes && Under(l, n) && Level(n) == k
        ensures n == Ancestor(l, k)
      {
        SameLevelSameNode(l, n, Ancestor(l, k));
      }
      LowestIs(nodes, l, k + 1, top);
    }
  }

  // ------------------------------------------------------------------ what a commit does to a foothold

  function LowestKeyed(r: Round, l: nat): Option<nat>
  {
    LowestFrom(r.st.pubs.Keys, l, 1, Depth(r.st.capacity))
  }

  function LowestRenewed(r: Round, l: nat): Option<nat>
  {
    LowestFrom(Elements(r.plan.path), l, 1, Depth(r.st.capacity))
  }

  // The commit renews whatever has a key above the leaf.  The first commit of a seat does.
  ghost predicate RenewsAbove(r: Round, l: nat)
  {
    forall n :: n in r.After() && Level(n) > 0 && Under(l, n) ==> n in r.plan.path
  }

  // Who loses its seat still holds the keys above it, from the lowest one on.
  function Grip(r: Round, l: nat, f: Option<nat>): Option<nat>
  {
    if f.Some? && Level(f.value) == 0 then LowestKeyed(r, l) else f
  }

  // A renewed foothold is lost, a blanked one moves up to the lowest renewed node.
  function Moved(r: Round, l: nat, e: Option<nat>): Option<nat>
  {
    if e.None? || e.value in r.plan.path then None
    else if e.value in r.plan.blanks then LowestRenewed(r, l)
    else e
  }

  ghost predicate InSeatBy(r: Round, u: nat, l: nat, known: bool, f: Option<nat>)
  {
    Seated(u, l, r.st.pubs) && known && (f == Some(LeafNode(l)) || RenewsAbove(r, l))
  }

  // f is the foothold before the commit; known is whether the client has been told the leaf.
  ghost function NextFoothold(r: Round, u: nat, l: nat, known: bool, f: Option<nat>): Option<nat>
  {
    if InSeatBy(r, u, l, known, f) then Some(LeafNode(l)) else Moved(r, l, Grip(r, l, f))
  }

  ghost function NextHolding(r: Round, u: nat, privs: map<nat, Key>, foot: Holding): Holding
  {
    l => NextFoothold(r, u, l, LeafNode(l) in privs, foot(l))
  }

  // A client about to process the commit of a round.
  ghost predicate Enters(r: Round, u: nat, foot: Holding, privs: map<nat, Key>)
  {
    r.Valid() && LeavesAreIdentities(r.st.pubs) && NewKeys(r.Sent(), privs) && Exact(foot, privs, r.base, u)
  }

  // ------------------------------------------------------------------ candidates lie on top of candidates

  lemma CandidatesAbove(r: Round, x: nat, n: nat, l: nat)
    requires r.Valid() && Candidate(x, r.st.capacity, r.leaves, r.full)
    requires InTree(n, r.st.capacity) && Under(l, x) && Under(l, n) && Level(x) <= Level(n)
    ensures Candidate(n, r.st.capacity, r.leaves, r.full)
    ensures x in r.plan.path ==> n in r.plan.path
    ensures n in r.plan.path || n in r.plan.blanks
  {
    Nested(l, x, n);
    if x in r.plan.path {
      MemberAbove(x, n, r.st.pubs);
    }
  }

  // Above a leaf that changed everything is renewed or blanked.
  lemma ChangedAbove(r: Round, l: nat, n: nat)
    requires r.Valid() && !SameAt(LeafNode(l), r.base, r.st.pubs)
    requires InTree(n, r.st.capacity) && Under(l, n) && Level(n) > 0
    ensures Candidate(n, r.st.capacity, r.leaves, r.full) && (n in r.plan.path || n in r.plan.blanks)
  {
    if !Candidate(n, r.st.capacity, r.leaves, r.full) {
      UntouchedBelow(r.base, r.st, r.leaves, r.full, n, l);
    }
  }

  lemma InnerStored(r: Round, n: nat)
    requires r.Valid() && n in r.st.pubs && Level(n) > 0
    ensures InTree(n, r.st.capacity) && n in r.base && r.base[n] == r.st.pubs[n] && 1 <= Level(n) <= Depth(r.st.capacity)
  {
    assert SameAt(n, r.base, r.st.pubs);
    InTreeCoordinates(n, Depth(r.st.capacity));
  }

  lemma PathInTree(r: Round, n: nat)
    requires r.Valid() && n in r.plan.path
    ensures InTree(n, r.st.capacity) && 1 <= Level(n) <= Depth(r.st.capacity)
    ensures Candidate(n, r.st.capacity, r.leaves, r.full) && HasMember(n, r.st.pubs)
  {
    InTreeCoordinates(n, Depth(r.st.capacity));
  }

  // ------------------------------------------------------------------ the grip

  // Outside its seats the user grips a stored inner key, the lowest one it holds above the leaf.
  lemma GripIs(r: Round, u: nat, foot: Holding, privs: map<nat, Key>, l: nat)
    requires Enters(r, u, foot, privs) && !InSeatBy(r, u, l, LeafNode(l) in privs, foot(l))
    ensures var e := Grip(r, l, foot(l));
      e.Some? ==> e.value in r.st.pubs && Level(e.value) > 0 && ReachedBy(foot, l, e.value)
    ensures var e := Grip(r, l, foot(l));
      forall n :: n in r.st.pubs && Level(n) > 0 && ReachedBy(foot, l, n) ==> e.Some? && Level(e.value) <= Level(n)
    ensures Grip(r, l, foot(l)) != foot(l) ==> !SameAt(LeafNode(l), r.base, r.st.pubs)
  {
    if foot(l).Some? {
      assert StandsAt(foot(l).value, l, privs, r.base, u);
      if Level(foot(l).value) == 0 {
        LeafCoordinates(l);
        SameLevelSameNode(l, foot(l).value, LeafNode(l));
        LowestIs(r.st.pubs.Keys, l, 1, Depth(r.st.capacity));
        forall n | n in r.st.pubs && Level(n) > 0 ensures 1 <= Level(n) <= Depth(r.st.capacity) {
          InnerStored(r, n);
        }
      } else {
        assert SameAt(foot(l).value, r.base, r.st.pubs);
      }
    }
  }

  lemma HeldBelow(r: Round, u: nat, foot: Holding, privs: map<nat, Key>, l: nat, t: nat)
    requires Enters(r, u, foot, privs) && t in r.st.pubs && Level(t) > 0 && ReachedBy(foot, l, t)
    ensures t in privs && privs[t] == r.st.pubs[t]
  {
    InnerStored(r, t);
    assert SameAt(t, privs, r.base);
  }

  // ------------------------------------------------------------------ what can be opened

  // A new key is sealed for a node that the user reaches and can open.
  ghost predicate OpensFor(r: Round, u: nat, next: Holding, privs: map<nat, Key>, l: nat, n: nat, t: nat)
  {
    n in r.plan.targets && t in r.plan.targets[n] && Under(l, t) && Level(t) < Level(n) &&
    if t in r.plan.path then ReachedBy(next, l, t) else t in privs && t in r.st.pubs && privs[t] == r.st.pubs[t]
  }

  lemma SeatOpens(r: Round, u: nat, foot: Holding, privs: map<nat, Key>, l: nat, n: nat) returns (t: nat)
    requires Enters(r, u, foot, privs) && InSeatBy(r, u, l, LeafNode(l) in privs, foot(l))
    requires n in r.plan.path && Under(l, n)
    ensures OpensFor(r, u, NextHolding(r, u, privs, foot), privs, l, n, t)
  {
    LeafCoordinates(l);
    var renewed := Elements(r.plan.path);
    t := TargetsCover(n, r.st.pubs, renewed, LeafNode(l), l);
    TargetsHaveKeys(n, r.st.pubs, renewed);
    assert NextHolding(r, u, privs, foot)(l) == Some(LeafNode(l));
    if t !in r.plan.path {
      if Level(t) == 0 {
        SameLevelSameNode(l, t, LeafNode(l));
      } else {
        assert IsOccupied(l, r.st.pubs) && HasMember(t, r.st.pubs);
        assert t in r.After();
        HeldBelow(r, u, foot, privs, l, t);
      }
    }
  }

  // A blanked node is left for the lowest renewed one above the leaf.
  lemma RenewedAboveBlank(r: Round, l: nat, e: nat)
    requires r.Valid() && e in r.plan.blanks && Under(l, e) && LowestRenewed(r, l).Some?
    ensures var g := LowestRenewed(r, l).value;
      g in r.plan.path && Under(l, g) && Level(e) < Level(g) &&
      forall n :: n in r.plan.path && Under(l, n) ==> Level(g) <= Level(n)
  {
    LowestIs(Elements(r.plan.path), l, 1, Depth(r.st.capacity));
    forall n | n in r.plan.path ensures 1 <= Level(n) <= Depth(r.st.capacity) {
      PathInTree(r, n);
    }
    PathAboveBlank(r, l, LowestRenewed(r, l).value, e);
  }

  // Where the grip e is when the foothold g is kept or has moved up.
  ghost predicate GripAt(r: Round, l: nat, e: nat, g: nat)
  {
    Under(l, g) && Level(g) >= Level(e) && Level(g) > 0 &&
    if e in r.plan.blanks then
      g in r.plan.path && Level(e) < Level(g) && forall n :: n in r.plan.path && Under(l, n) ==> Level(g) <= Level(n)
    else g == e
  }

  lemma MovedGrip(r: Round, u: nat, foot: Holding, privs: map<nat, Key>, l: nat) returns (e: nat)
    requires Enters(r, u, foot, privs) && !InSeatBy(r, u, l, LeafNode(l) in privs, foot(l))
    requires NextHolding(r, u, privs, foot)(l).Some?
    ensures Grip(r, l, foot(l)) == Some(e) && e !in r.plan.path && e in r.st.pubs && Level(e) > 0 && ReachedBy(foot, l, e)
    ensures GripAt(r, l, e, NextHolding(r, u, privs, foot)(l).value)
  {
    GripIs(r, u, foot, privs, l);
    e := Grip(r, l, foot(l)).value;
    if e in r.plan.blanks {
      RenewedAboveBlank(r, l, e);
    }
  }

  lemma FootholdOpens(r: Round, u: nat, foot: Holding, privs: map<nat, Key>, l: nat, n: nat) returns (t: nat)
    requires Enters(r, u, foot, privs) && !InSeatBy(r, u, l, LeafNode(l) in privs, foot(l))
    requires n in r.plan.path && ReachedBy(NextHolding(r, u, privs, foot), l, n)
    ensures OpensFor(r, u, NextHolding(r, u, privs, foot), privs, l, n, t)
  {
    var next := NextHolding(r, u, privs, foot);
    var e := MovedGrip(r, u, foot, privs, l);
    var g := next(l).value;
    if Level(e) == Level(n) {
      SameLevelSameNode(l, e, n);
      assert false;
    }
    var renewed := Elements(r.plan.path);
    t := TargetsCover(n, r.st.pubs, renewed, e, l);
    TargetsHaveKeys(n, r.st.pubs, renewed);
    if t !in r.plan.path {
      HeldBelow(r, u, foot, privs, l, t);
    }
  }

  ghost function ReachedPath(r: Round, next: Holding): set<nat>
  {
    set n | n in r.plan.path && Reached(next, n)
  }

  lemma OpensClimbs(r: Round, u: nat, next: Holding, privs: map<nat, Key>, l: nat, i: nat, t: nat)
    requires r.Valid() && i < |r.plan.path| && OpensFor(r, u, next, privs, l, r.plan.path[i], t)
    ensures Climbable(r.Sent(), privs, ReachedPath(r, next), i)
  {
    Delivered(r.Sent(), i);
    if t in r.plan.path {
      LowerIsEarlier(r.plan.path, i, t);
    }
    assert OpensBelow(r.Sent(), privs, ReachedPath(r, next), i, t);
  }

  lemma ReachedClimbs(r: Round, u: nat, foot: Holding, privs: map<nat, Key>)
    requires Enters(r, u, foot, privs)
    ensures CanClimb(r.Sent(), privs, ReachedPath(r, NextHolding(r, u, privs, foot)))
  {
    var next := NextHolding(r, u, privs, foot);
    forall i | 0 <= i < |r.plan.path| && r.plan.path[i] in ReachedPath(r, next)
      ensures Climbable(r.Sent(), privs, ReachedPath(r, next), i)
    {
      var n := r.plan.path[i];
      var l: nat :| ReachedBy(next, l, n);
      var t: nat;
      if InSeatBy(r, u, l, LeafNode(l) in privs, foot(l)) {
        t := SeatOpens(r, u, foot, privs, l, n);
      } else {
        t := FootholdOpens(r, u, foot, privs, l, n);
      }
      OpensClimbs(r, u, next, privs, l, i, t);
    }
  }

  // ------------------------------------------------------------------ nothing else can be opened

  // Sealed for the leaf itself: then nothing between the leaf and the path has a key.
  lemma LeafTargetRenews(r: Round, n: nat, m: nat)
    requires r.Valid() && n in r.plan.path && LeafNode(m) in r.plan.targets[n]
    ensures RenewsAbove(r, m) && Under(m, n)
  {
    LeafCoordinates(m);
    TargetsInside(r, n, LeafNode(m));
    forall y | y in r.After() && Level(y) > 0 && Under(m, y)
      ensures y in r.plan.path
    {
      if y !in r.plan.path {
        InnerStored(r, y);
        if Level(y) < Level(n) {
          TargetIsHighest(n, r.st.pubs, Elements(r.plan.path), LeafNode(m), y, m);
          assert false;
        }
        PathInTree(r, n);
        CandidatesAbove(r, n, y, m);
      }
    }
  }

  lemma OwnLeaf(r: Round, u: nat, privs: map<nat, Key>, m: nat)
    requires LeavesAreIdentities(r.st.pubs) && OwnIdentity(privs, u) && LeafNode(m) in r.st.pubs
    requires LeafNode(m) in privs && privs[LeafNode(m)] == r.st.pubs[LeafNode(m)]
    ensures Seated(u, m, r.st.pubs)
  {
  }

  lemma OpenedLeaf(r: Round, u: nat, foot: Holding, privs: map<nat, Key>, n: nat, m: nat)
    requires Enters(r, u, foot, privs) && n in r.plan.path && LeafNode(m) in r.plan.targets[n]
    requires LeafNode(m) in r.st.pubs && LeafNode(m) in privs && privs[LeafNode(m)] == r.st.pubs[LeafNode(m)]
    ensures Reached(NextHolding(r, u, privs, foot), n)
  {
    OwnLeaf(r, u, privs, m);
    LeafTargetRenews(r, n, m);
    LeafCoordinates(m);
    assert NextHolding(r, u, privs, foot)(m) == Some(LeafNode(m));
    assert ReachedBy(NextHolding(r, u, privs, foot), m, n);
  }

  // A grip below a stored key that is not renewed is not renewed either.
  lemma GripBelow(r: Round, l: nat, e: nat, t: nat)
    requires r.Valid() && e in r.st.pubs && t in r.st.pubs && t !in r.plan.path && 0 < Level(e) <= Level(t)
    requires Under(l, e) && Under(l, t)
    ensures e !in r.plan.path && (e in r.plan.blanks ==> t in r.plan.blanks)
  {
    InnerStored(r, t);
    InnerStored(r, e);
    if e in r.plan.path || e in r.plan.blanks {
      CandidatesAbove(r, e, t, l);
    }
  }

  lemma MovesUp(r: Round, l: nat, n: nat)
    requires r.Valid() && n in r.plan.path && Under(l, n)
    ensures LowestRenewed(r, l).Some? && Under(l, LowestRenewed(r, l).value) && Level(LowestRenewed(r, l).value) <= Level(n)
  {
    LowestIs(Elements(r.plan.path), l, 1, Depth(r.st.capacity));
    PathInTree(r, n);
  }

  // Above a stored key that is not renewed the foothold stays, or moves up no further than the path.
  lemma StillReached(r: Round, u: nat, foot: Holding, privs: map<nat, Key>, l: nat, t: nat, n: nat)
    requires Enters(r, u, foot, privs) && t in r.st.pubs && t !in r.plan.path && Level(t) > 0 && ReachedBy(foot, l, t)
    requires Under(l, n) && if n in r.plan.path then Level(t) < Level(n) else n == t && t !in r.plan.blanks
    ensures ReachedBy(NextHolding(r, u, privs, foot), l, n)
  {
    if InSeatBy(r, u, l, LeafNode(l) in privs, foot(l)) {
      LeafCoordinates(l);
    } else {
      GripIs(r, u, foot, privs, l);
      var e := Grip(r, l, foot(l)).value;
      GripBelow(r, l, e, t);
      if n in r.plan.path {
        MovesUp(r, l, n);
      }
      MovedBelow(r, l, e, n);
    }
  }

  lemma MovedBelow(r: Round, l: nat, e: nat, n: nat)
    requires e !in r.plan.path && Level(e) <= Level(n)
    requires e in r.plan.blanks ==> LowestRenewed(r, l).Some? && Level(LowestRenewed(r, l).value) <= Level(n)
    ensures Moved(r, l, Some(e)).Some? && Level(Moved(r, l, Some(e)).value) <= Level(n)
  {
  }

  lemma OpenedInner(r: Round, u: nat, foot: Holding, privs: map<nat, Key>, n: nat, t: nat)
    requires Enters(r, u, foot, privs) && n in r.plan.path && t in r.plan.targets[n] && t !in r.plan.path
    requires Level(t) > 0 && t in r.st.pubs && t in privs && privs[t] == r.st.pubs[t]
    ensures Reached(NextHolding(r, u, privs, foot), n)
  {
    InnerStored(r, t);
    assert Reached(foot, t);
    var l: nat :| ReachedBy(foot, l, t);
    TargetsInside(r, n, t);
    if Level(t) == Level(n) {
      SameLevelSameNode(l, t, n);
    }
    StillReached(r, u, foot, privs, l, t, n);
  }

  lemma OpenedStored(r: Round, u: nat, foot: Holding, privs: map<nat, Key>, n: nat, t: nat)
    requires Enters(r, u, foot, privs) && n in r.plan.path && t in r.plan.targets[n] && t !in r.plan.path
    requires t in r.st.pubs && t in privs && privs[t] == r.st.pubs[t]
    ensures Reached(NextHolding(r, u, privs, foot), n)
  {
    if Level(t) == 0 {
      assert LeafNode(t / 2) == t;
      OpenedLeaf(r, u, foot, privs, n, t / 2);
    } else {
      OpenedInner(r, u, foot, privs, n, t);
    }
  }

  lemma OpenedNew(r: Round, next: Holding, n: nat, t: nat)
    requires r.Valid() && n in r.plan.path && t in r.plan.targets[n] && Reached(next, t)
    ensures Reached(next, n)
  {
    TargetsInside(r, n, t);
    var l: nat :| ReachedBy(next, l, t);
    assert ReachedBy(next, l, n);
  }

  lemma OpensOnlyReached(r: Round, u: nat, foot: Holding, privs: map<nat, Key>)
    requires Enters(r, u, foot, privs)
    ensures OpensOnlyWithin(r.Sent(), privs, ReachedPath(r, NextHolding(r, u, privs, foot)))
  {
    var next := NextHolding(r, u, privs, foot);
    forall n, t | n in r.plan.path && t in r.plan.targets[n] && Opens(r.Sent(), privs, ReachedPath(r, next), t)
      ensures Reached(next, n)
    {
      if t in r.plan.path {
        OpenedNew(r, next, n, t);
      } else {
        OpenedStored(r, u, foot, privs, n, t);
      }
    }
  }

  // ------------------------------------------------------------------ after the commit

  lemma NextStands(r: Round, u: nat, foot: Holding, privs: map<nat, Key>, after: map<nat, Key>, l: nat)
    requires Enters(r, u, foot, privs) && Finished(r, privs, after) && NextHolding(r, u, privs, foot)(l).Some?
    ensures StandsAt(NextHolding(r, u, privs, foot)(l).value, l, after, r.After(), u)
  {
    LeafCoordinates(l);
    if InSeatBy(r, u, l, LeafNode(l) in privs, foot(l)) {
      NextIsSettled(r);
      assert SameAt(LeafNode(l), r.st.pubs, r.After());
      OldKeyKept(r, privs, LeafNode(l), after);
    } else {
      var e := MovedGrip(r, u, foot, privs, l);
      if e in r.plan.blanks {
        PathKept(r, NextHolding(r, u, privs, foot)(l).value);
      }
    }
  }

  lemma PathKept(r: Round, n: nat)
    requires r.Valid() && n in r.plan.path
    ensures n in r.keys && n in r.After() && r.After()[n] == r.keys[n]
  {
    assert n in r.Sent().keys;
    assert n !in r.plan.blanks;
  }

  lemma NextHoldsFrom(r: Round, u: nat, foot: Holding, privs: map<nat, Key>, after: map<nat, Key>, l: nat, n: nat)
    requires Enters(r, u, foot, privs) && Finished(r, privs, after)
    requires n in r.After() && Level(n) > 0 && ReachedBy(NextHolding(r, u, privs, foot), l, n)
    ensures SameAt(n, after, r.After())
  {
    var next := NextHolding(r, u, privs, foot);
    if n in r.plan.path {
      ReachedClimbs(r, u, foot, privs);
      ClimbGivesKey(r, privs, ReachedPath(r, next), n, after);
      PathKept(r, n);
    } else {
      InnerStored(r, n);
      assert !Candidate(n, r.st.capacity, r.leaves, r.full);
      ReachedBefore(r, u, foot, privs, l, n);
      HeldBelow(r, u, foot, privs, l, n);
      OldKeyKept(r, privs, n, after);
    }
  }

  lemma ReachedBefore(r: Round, u: nat, foot: Holding, privs: map<nat, Key>, l: nat, n: nat)
    requires Enters(r, u, foot, privs) && n in r.After() && n !in r.plan.path && Level(n) > 0
    requires ReachedBy(NextHolding(r, u, privs, foot), l, n)
    ensures ReachedBy(foot, l, n)
  {
    if InSeatBy(r, u, l, LeafNode(l) in privs, foot(l)) {
      LeafCoordinates(l);
    } else {
      var e := MovedGrip(r, u, foot, privs, l);
      if e in r.plan.blanks {
        var g := NextHolding(r, u, privs, foot)(l).value;
        InnerStored(r, n);
        PathInTree(r, g);
        CandidatesAbove(r, g, n, l);
      }
    }
  }

  lemma NextHoldsOnly(r: Round, u: nat, foot: Holding, privs: map<nat, Key>, after: map<nat, Key>, x: nat, n: nat)
    requires Enters(r, u, foot, privs) && Finished(r, privs, after)
    requires x in after && n in r.After() && Level(n) > 0 && after[x] == r.After()[n]
    ensures Reached(NextHolding(r, u, privs, foot), n)
  {
    var next := NextHolding(r, u, privs, foot);
    var within, all := ReachedPath(r, next), |r.plan.path|;
    OpensOnlyReached(r, u, foot, privs);
    FinishedProgress(r, privs, after);
    if n in r.plan.path {
      PathKept(r, n);
      LearnsOnlyWithin(r.Sent(), privs, within, all, x, n);
    } else {
      KeptOrNew(r.Sent(), privs, within, all, x);
      InnerStored(r, n);
      assert Unknown(r.Sent(), r.Sent().stored, x, n);
      assert Reached(foot, n);
      var l: nat :| ReachedBy(foot, l, n);
      StillReached(r, u, foot, privs, l, n, n);
    }
  }

  lemma KeysKeptOrNew(r: Round, u: nat, foot: Holding, privs: map<nat, Key>, after: map<nat, Key>)
    requires Enters(r, u, foot, privs) && Finished(r, privs, after)
    ensures forall x :: x in after ==> SameAt(x, after, r.keys) || SameAt(x, after, privs)
  {
    FinishedProgress(r, privs, after);
    OpensOnlyReached(r, u, foot, privs);
    forall x | x in after
      ensures SameAt(x, after, r.keys) || SameAt(x, after, privs)
    {
      KeptOrNew(r.Sent(), privs, ReachedPath(r, NextHolding(r, u, privs, foot)), |r.plan.path|, x);
    }
  }

  lemma NextOwnIdentity(r: Round, u: nat, foot: Holding, privs: map<nat, Key>, after: map<nat, Key>)
    requires Enters(r, u, foot, privs) && Finished(r, privs, after)
    ensures OwnIdentity(after, u)
  {
    FinishedProgress(r, privs, after);
    OpensOnlyReached(r, u, foot, privs);
    forall x | x in after && after[x].IdentityKey?
      ensures after[x] == IdentityKey(u)
    {
      KeptOrNew(r.Sent(), privs, ReachedPath(r, NextHolding(r, u, privs, foot)), |r.plan.path|, x);
      assert x in r.plan.path ==> x in r.keys;
    }
    forall l: nat | LeafNode(l) in after
      ensures after[LeafNode(l)] == IdentityKey(u)
    {
      LeafCoordinates(l);
      OldKeyKept(r, privs, LeafNode(l), after);
    }
  }

  // One commit: the footholds after it say exactly which keys of the new tree the user holds.
  lemma CommitIsExact(r: Round, u: nat, foot: Holding, privs: map<nat, Key>, after: map<nat, Key>)
    requires Enters(r, u, foot, privs) && Finished(r, privs, after)
    ensures Exact(NextHolding(r, u, privs, foot), after, r.After(), u)
  {
    var next := NextHolding(r, u, privs, foot);
    forall l: nat | next(l).Some? ensures StandsAt(next(l).value, l, after, r.After(), u) {
      NextStands(r, u, foot, privs, after, l);
    }
    forall l: nat, n: nat | n in r.After() && Level(n) > 0 && ReachedBy(next, l, n) ensures SameAt(n, after, r.After()) {
      NextHoldsFrom(r, u, foot, privs, after, l, n);
    }
    forall x, n | x in after && n in r.After() && Level(n) > 0 && after[x] == r.After()[n] ensures Reached(next, n) {
      NextHoldsOnly(r, u, foot, privs, after, x, n);
    }
    NextOwnIdentity(r, u, foot, privs, after);
  }

  // ------------------------------------------------------------------ the epoch secret

  lemma FootholdInTree(r: Round, u: nat, next: Holding, after: map<nat, Key>, l: nat)
    requires r.Valid() && Stands(next, after, r.After(), u) && next(l).Some?
    ensures l < r.st.capacity && Level(next(l).value) <= Depth(r.st.capacity)
    ensures r.st.capacity == 1 ==> l == 0 && Seated(u, 0, r.st.pubs)
  {
    var g := next(l).value;
    assert StandsAt(g, l, after, r.After(), u);
    NextIsSettled(r);
    if Level(g) == 0 {
      assert SameAt(LeafNode(l), r.st.pubs, r.After());
      assert InTree(LeafNode(l), r.st.capacity);
    } else {
      if g in r.plan.path {
        PathInTree(r, g);
      } else {
        InnerStored(r, g);
      }
      InTreeCoordinates(g, Depth(r.st.capacity));
      UnderInTree(l, g, r.st.capacity);
      TreeLevels(g, r.st.capacity);
    }
  }

  lemma RootReached(r: Round, u: nat, next: Holding, after: map<nat, Key>, l: nat)
    requires r.Valid() && Stands(next, after, r.After(), u) && next(l).Some?
    ensures ReachedBy(next, l, r.plan.root)
  {
    FootholdInTree(r, u, next, after, l);
    RootAboveAll(l, r.st.capacity);
    RootCoordinates(Depth(r.st.capacity));
    NodeCoordinates(Depth(r.st.capacity), 0);
  }

  // In a tree of one leaf the secret is sealed for the member itself.
  lemma SingleLeaf(r: Round, u: nat, foot: Holding, privs: map<nat, Key>, after: map<nat, Key>)
    requires Enters(r, u, foot, privs) && Finished(r, privs, after) && r.st.capacity == 1
    ensures r.plan.root == LeafNode(0) && (SecretFrom(after, r.commit).Some? <==> Seated(u, 0, r.st.pubs) && LeafNode(0) in privs)
    ensures Seated(u, 0, r.st.pubs) && LeafNode(0) in privs ==> NextHolding(r, u, privs, foot)(0).Some?
  {
    PlanIsSealable(r.st, r.leaves, r.full, r.plan);
    LeafCoordinates(0);
    OldKeyKept(r, privs, LeafNode(0), after);
    NextOwnIdentity(r, u, foot, privs, after);
    assert r.commit.rootBox.to == r.st.pubs[0] by {
      assert r.plan.root !in r.Sent().keys;
    }
    assert IsOccupied(0, r.st.pubs);
    forall n | n in r.After() && Level(n) > 0 && Under(0, n) ensures n in r.plan.path {
      if n !in r.plan.path {
        InnerStored(r, n);
      }
    }
  }

  // The exact condition: the secret of a commit is obtained iff the user has a foothold after it.
  lemma SecretIffFoothold(r: Round, u: nat, foot: Holding, privs: map<nat, Key>, after: map<nat, Key>)
    requires Enters(r, u, foot, privs) && Finished(r, privs, after)
    ensures SecretFrom(after, r.commit) ==
      if exists l: nat :: NextHolding(r, u, privs, foot)(l).Some? then Some(r.secret) else None
  {
    var next := NextHolding(r, u, privs, foot);
    CommitIsExact(r, u, foot, privs, after);
    if r.st.capacity == 1 {
      SingleLeaf(r, u, foot, privs, after);
      if l: nat :| next(l).Some? {
        FootholdInTree(r, u, next, after, l);
        assert StandsAt(next(l).value, l, after, r.After(), u);
        SingleSeatKnown(r, u, next, privs, after, l);
      }
    } else {
      PlanIsSealable(r.st, r.leaves, r.full, r.plan);
      PathKept(r, r.plan.root);
      PathInTree(r, r.plan.root);
      assert SecretFrom(after, r.commit).Some? ==> Reached(next, r.plan.root);
      if l: nat :| next(l).Some? {
        RootReached(r, u, next, after, l);
      }
    }
  }

  lemma SingleSeatKnown(r: Round, u: nat, next: Holding, privs: map<nat, Key>, after: map<nat, Key>, l: nat)
    requires r.Valid() && r.st.capacity == 1 && Finished(r, privs, after) && Stands(next, after, r.After(), u) && next(l).Some?
    ensures LeafNode(0) in privs
  {
    FootholdInTree(r, u, next, after, l);
    var g := next(l).value;
    assert StandsAt(g, l, after, r.After(), u);
    LeafCoordinates(0);
    OldKeyKept(r, privs, LeafNode(0), after);
  }

  // ------------------------------------------------------------------ gaining and losing a foothold

  lemma RenewedAboveCandidate(r: Round, l: nat, e: nat)
    requires r.Valid() && e in r.plan.blanks && Under(l, e)
    ensures LowestRenewed(r, l).Some?
  {
    UnderInTree(l, e, r.st.capacity);
    RootAboveAll(l, r.st.capacity);
    RootHasMember(r.st);
    RootCoordinates(Depth(r.st.capacity));
    NodeCoordinates(Depth(r.st.capacity), 0);
    InTreeCoordinates(e, Depth(r.st.capacity));
    CandidatesAbove(r, e, Root(r.st.capacity), l);
    MovesUp(r, l, Root(r.st.capacity));
  }

  lemma MovedIff(r: Round, l: nat, e: nat)
    requires r.Valid() && Under(l, e)
    ensures Moved(r, l, Some(e)).None? <==> e in r.plan.path
  {
    if e in r.plan.blanks {
      RenewedAboveCandidate(r, l, e);
    }
  }

  // Without a seat: an inner foothold is lost exactly when it is renewed ...
  lemma FootholdLostIffRenewed(r: Round, u: nat, foot: Holding, privs: map<nat, Key>, l: nat)
    requires Enters(r, u, foot, privs) && foot(l).Some? && Level(foot(l).value) > 0 && !Seated(u, l, r.st.pubs)
    ensures NextHolding(r, u, privs, foot)(l).None? <==> foot(l).value in r.plan.path
  {
    assert StandsAt(foot(l).value, l, privs, r.base, u);
    MovedIff(r, l, foot(l).value);
  }

  // The lowest keyed node above a leaf that lost its seat is blanked, if any above it is.
  lemma GripBlanked(r: Round, l: nat, e: nat)
    requires r.Valid() && e in r.st.pubs && Level(e) > 0 && Under(l, e) && !SameAt(LeafNode(l), r.base, r.st.pubs)
    requires forall n :: n in r.st.pubs && Level(n) > 0 && Under(l, n) ==> Level(e) <= Level(n)
    ensures e !in r.plan.path <==> exists b :: b in r.plan.blanks && b in r.st.pubs && Under(l, b)
  {
    InnerStored(r, e);
    ChangedAbove(r, l, e);
    if b :| b in r.plan.blanks && b in r.st.pubs && Under(l, b) {
      if e in r.plan.path {
        PathAboveBlank(r, l, e, b);
      }
    }
  }

  // ... and a seat leaves a foothold behind exactly when the next commit blanks a key above it.
  lemma FootholdLeftIffBlanked(r: Round, u: nat, foot: Holding, privs: map<nat, Key>, l: nat)
    requires Enters(r, u, foot, privs) && foot(l) == Some(LeafNode(l)) && !Seated(u, l, r.st.pubs)
    ensures NextHolding(r, u, privs, foot)(l).Some? <==>
      exists b :: b in r.plan.blanks && b in r.st.pubs && Under(l, b)
  {
    LeafCoordinates(l);
    assert StandsAt(LeafNode(l), l, privs, r.base, u);
    GripIs(r, u, foot, privs, l);
    var e := Grip(r, l, foot(l));
    assert forall n :: n in r.st.pubs && Under(l, n) ==> ReachedBy(foot, l, n);
    if e.Some? {
      MovedIff(r, l, e.value);
      GripBlanked(r, l, e.value);
    }
  }
}
