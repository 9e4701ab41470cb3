// A group on the server: its members, its membership events on their way through the chain, and its key tree.
module GroupModel {
  import opened NodeArithmetic
  import opened KeyTree
  import opened GroupCommit

  // Removing a member and leaving have the same effect on the tree.
  datatype Action = Create | Add | Remove

  datatype ChainStatus = Pending | Submitted | Confirmed | Failed

  datatype Rotation = Waiting | Requested | Done

  datatype Event = Event(action: Action, subject: nat, leaf: Option<nat>, chain: ChainStatus, rotation: Rotation)

  datatype Group = Group(
    capacity: nat,
    active: map<nat, nat>,      // active member -> leaf
    pubs: map<nat, Key>,
    events: seq<Event>,
    epoch: nat,
    rotationPending: bool,
    commits: seq<Commit>)

  function Tree(g: Group): TreeState
  {
    TreeState(g.capacity, g.pubs)
  }

  // ------------------------------------------------------------------ creation

  ghost predicate IsNewGroup(g: Group, users: seq<nat>)
  {
    IsCapacity(g.capacity) && |users| <= g.capacity &&
    (forall c: nat :: IsCapacity(c) && |users| <= c ==> g.capacity <= c) &&
    (forall i :: 0 <= i < |users| ==> users[i] in g.active && g.active[users[i]] == i) &&
    (forall u :: u in g.active ==> u in users) &&
    g.pubs == map[] && g.epoch == 0 && !g.rotationPending && g.commits == [] &&
    |g.events| == 1 && g.events[0].action.Create? && g.events[0].leaf.None? &&
    g.events[0].chain.Pending? && g.events[0].rotation.Waiting?
  }

  // ------------------------------------------------------------------ membership

  predicate HasUnfinishedEvent(events: seq<Event>, l: nat)
  {
    exists i :: 0 <= i < |events| && events[i].leaf == Some(l) && !events[i].rotation.Done?
  }

  predicate IsFree(g: Group, l: nat)
  {
    l !in g.active.Values && !HasUnfinishedEvent(g.events, l) && LeafNode(l) !in g.pubs
  }

  // group_service._free_leaf: the first free leaf, or the first one beyond the tree.
  function FreeLeaf(g: Group, from: nat): (l: nat)
    requires from <= g.capacity
    ensures from <= l <= g.capacity
    ensures l < g.capacity ==> IsFree(g, l)
    ensures forall m :: from <= m < l ==> !IsFree(g, m)
    decreases g.capacity - from
  {
    if from == g.capacity || IsFree(g, from) then from else FreeLeaf(g, from + 1)
  }

  function AddMember(g: Group, u: nat): Group
  {
    var l := FreeLeaf(g, 0);
    g.(capacity := if l == g.capacity then 2 * g.capacity else g.capacity,
       active := g.active[u := l],
       events := g.events + [Event(Add, u, Some(l), Pending, Waiting)])
  }

  function RemoveMember(g: Group, u: nat): Group
    requires u in g.active
  {
    g.(active := g.active - {u},
       events := g.events + [Event(Remove, u, Some(g.active[u]), Pending, Waiting)])
  }

  // ------------------------------------------------------------------ the chain

  function WithChain(g: Group, i: nat, status: ChainStatus): Group
    requires i < |g.events|
  {
    g.(events := g.events[i := g.events[i].(chain := status)])
  }

  predicate CanAnchor(g: Group, i: nat)
  {
    i < |g.events| && (g.events[i].chain.Pending? || g.events[i].chain.Failed?)
  }

  // blockchain.anchor_membership: sent, or given up after the last retry.
  function Anchor(g: Group, i: nat, sent: bool): Group
    requires CanAnchor(g, i)
  {
    WithChain(g, i, if sent then Submitted else Failed)
  }

  predicate CanConfirm(g: Group, i: nat)
  {
    i < |g.events| && g.events[i].chain.Submitted?
  }

  // The leaves of all active members hold their identity keys, the rest is unchanged.
  ghost predicate Seats(pubs: map<nat, Key>, active: map<nat, nat>, r: map<nat, Key>)
  {
    (forall u :: u in active ==> LeafNode(active[u]) in r && r[LeafNode(active[u])] == IdentityKey(u)) &&
    (forall x: nat :: (forall u :: u in active ==> LeafNode(active[u]) != x) ==> SameAt(x, pubs, r))
  }

  // blockchain.apply_membership_to_tree
  ghost predicate Applies(g: Group, e: Event, r: map<nat, Key>)
  {
    match e.action
    case Create => Seats(g.pubs, g.active, r)
    case Add =>
      r == if e.leaf.Some? && e.subject in g.active && g.active[e.subject] == e.leaf.value
           then g.pubs[LeafNode(e.leaf.value) := IdentityKey(e.subject)] else g.pubs
    case Remove => r == if e.leaf.Some? then g.pubs - {LeafNode(e.leaf.value)} else g.pubs
  }

  // blockchain.confirm_membership
  ghost predicate Confirms(g: Group, i: nat, h: Group)
  {
    CanConfirm(g, i) && Applies(g, g.events[i], h.pubs) &&
    h == g.(pubs := h.pubs, rotationPending := true,
            events := g.events[i := g.events[i].(chain := Confirmed, rotation := Requested)])
  }

  // ------------------------------------------------------------------ plans and commits

  ghost predicate IsRequested(g: Group, i: int)
  {
    0 <= i < |g.events| && g.events[i].rotation.Requested?
  }

  // The leaf waits for the next commit.
  ghost predicate Touched(g: Group, l: nat)
  {
    exists i :: IsRequested(g, i) && (g.events[i].action.Create? || g.events[i].leaf == Some(l))
  }

  // key_service._plan: what the next plan is made for.
  ghost predicate PlansFor(g: Group, user: nat, periodic: bool, leaves: seq<nat>, full: bool)
  {
    if exists i :: IsRequested(g, i) then
      (full <==> exists i :: IsRequested(g, i) && g.events[i].action.Create?) &&
      (forall l :: l in leaves <==> exists i :: IsRequested(g, i) && g.events[i].leaf == Some(l))
    else
      periodic && g.epoch > 0 && user in g.active && leaves == [g.active[user]] && !full
  }

  function FinishRotations(events: seq<Event>): (r: seq<Event>)
    ensures |r| == |events|
    ensures forall i :: 0 <= i < |events| ==>
      r[i] == if events[i].rotation.Requested? then events[i].(rotation := Done) else events[i]
  {
    seq(|events|, i requires 0 <= i < |events| =>
      if events[i].rotation.Requested? then events[i].(rotation := Done) else events[i])
  }

  // key_service.tree_commit, once the body has been accepted for the plan.
  function CommitTo(g: Group, plan: CommitPlan, body: CommitBody, pubs: map<nat, Key>): Group
  {
    g.(pubs := (g.pubs + pubs) - Elements(plan.blanks),
       events := FinishRotations(g.events),
       epoch := body.epoch,
       rotationPending := false,
       commits := g.commits + [Commit(body.epoch, body.nodes, plan.blanks, plan.root, body.rootBox)])
  }

  // ------------------------------------------------------------------ what every run keeps

  ghost predicate EventsWellFormed(g: Group)
  {
    |g.events| > 0 &&
    (forall i :: 0 <= i < |g.events| ==> (g.events[i].action.Create? <==> i == 0)) &&
    (forall i :: 0 <= i < |g.events| ==> (g.events[i].leaf.None? <==> i == 0)) &&
    (forall i :: 0 <= i < |g.events| && g.events[i].leaf.Some? ==> g.events[i].leaf.value < g.capacity) &&
    (forall i :: 0 <= i < |g.events| ==> (g.events[i].chain.Confirmed? <==> !g.events[i].rotation.Waiting?))
  }

  // Active members sit on distinct leaves of the tree.
  ghost predicate SeatsDistinct(g: Group)
  {
    (forall u :: u in g.active ==> g.active[u] < g.capacity) &&
    (forall u, v :: u in g.active && v in g.active && g.active[u] == g.active[v] ==> u == v)
  }

  // Nobody sits on a leaf whose removal is not finished, and once it is confirmed the leaf is empty.
  ghost predicate RemovalsHold(g: Group)
  {
    forall i :: 0 <= i < |g.events| && g.events[i].action.Remove? && !g.events[i].rotation.Done? ==>
      g.events[i].leaf.Some? && g.events[i].leaf.value !in g.active.Values &&
      (g.events[i].rotation.Requested? ==> LeafNode(g.events[i].leaf.value) !in g.pubs)
  }

  ghost predicate WaitsFor(g: Group, action: Action, l: nat)
  {
    exists i :: 0 <= i < |g.events| && g.events[i].action == action && g.events[i].leaf == Some(l) &&
      g.events[i].rotation.Waiting?
  }

  ghost predicate WaitsToAdd(g: Group, u: nat, l: nat)
  {
    exists i :: 0 <= i < |g.events| && g.events[i].action.Add? && g.events[i].subject == u &&
      g.events[i].leaf == Some(l) && g.events[i].rotation.Waiting?
  }

  ghost predicate WaitsForCreation(g: Group)
  {
    |g.events| > 0 && g.events[0].rotation.Waiting?
  }

  predicate SeatedIn(g: Group, u: nat, l: nat)
  {
    u in g.active && g.active[u] == l
  }

  // An occupied leaf belongs to the member sitting there, unless a removal is still on its way.
  ghost predicate OccupantsKnown(g: Group)
  {
    forall l: nat :: IsOccupied(l, g.pubs) ==>
      g.pubs[LeafNode(l)].IdentityKey? &&
      (SeatedIn(g, g.pubs[LeafNode(l)].user, l) || (l !in g.active.Values && WaitsFor(g, Remove, l)))
  }

  // A member without its key in the tree waits for its own addition or the group's creation.
  ghost predicate MembersArrive(g: Group)
  {
    forall u :: u in g.active ==>
      (IsOccupied(g.active[u], g.pubs) && g.pubs[LeafNode(g.active[u])] == IdentityKey(u)) ||
      WaitsToAdd(g, u, g.active[u]) || WaitsForCreation(g)
  }

  ghost predicate Inv(g: Group)
  {
    InCapacity(Tree(g)) && EventsWellFormed(g) && SeatsDistinct(g) &&
    RemovalsHold(g) && OccupantsKnown(g) && MembersArrive(g)
  }

  lemma NewGroupInv(g: Group, users: seq<nat>)
    requires IsNewGroup(g, users)
    ensures Inv(g)
  {
    forall u | u in g.active
      ensures g.active[u] < g.capacity && 0 <= g.active[u] < |users| && users[g.active[u]] == u
    {
      var i :| 0 <= i < |users| && users[i] == u;
    }
  }

  lemma OtherEventsStay(g: Group, h: Group, e: Event)
    requires h.events == g.events + [e]
    ensures forall i :: 0 <= i < |g.events| ==> h.events[i] == g.events[i]
    ensures forall l: nat, a: Action :: WaitsFor(g, a, l) ==> WaitsFor(h, a, l)
    ensures forall u, l: nat :: WaitsToAdd(g, u, l) ==> WaitsToAdd(h, u, l)
  {
    forall l: nat, a: Action | WaitsFor(g, a, l)
      ensures WaitsFor(h, a, l)
    {
      var i :| 0 <= i < |g.events| && g.events[i].action == a && g.events[i].leaf == Some(l) &&
        g.events[i].rotation.Waiting?;
      assert h.events[i] == g.events[i];
    }
    forall u, l: nat | WaitsToAdd(g, u, l)
      ensures WaitsToAdd(h, u, l)
    {
      var i :| 0 <= i < |g.events| && g.events[i].action.Add? && g.events[i].subject == u &&
        g.events[i].leaf == Some(l) && g.events[i].rotation.Waiting?;
      assert h.events[i] == g.events[i];
    }
  }

  // A leaf beyond the tree is free in every respect.
  lemma FreeLeafIsFree(g: Group)
    requires Inv(g)
    ensures IsFree(g, FreeLeaf(g, 0))
  {
    var l := FreeLeaf(g, 0);
    if l == g.capacity {
      assert l !in g.active.Values;
      assert !InTree(LeafNode(l), g.capacity);
    }
  }

  lemma AddMemberInv(g: Group, u: nat)
    requires Inv(g) && u !in g.active
    ensures Inv(AddMember(g, u))
  {
    var h := AddMember(g, u);
    var l := FreeLeaf(g, 0);
    FreeLeafIsFree(g);
    OtherEventsStay(g, h, Event(Add, u, Some(l), Pending, Waiting));
    DoublingKeepsSubtrees(g.capacity);
    assert h.events[|g.events|].leaf == Some(l);
    assert WaitsToAdd(h, u, l);
    assert h.active.Values == g.active.Values + {l} by {
      assert h.active[u] == l;
      assert forall v :: v in g.active ==> h.active[v] == g.active[v];
    }
    assert RemovalsHold(h) by {
      forall i | 0 <= i < |h.events| && h.events[i].action.Remove? && !h.events[i].rotation.Done?
        ensures h.events[i].leaf.Some? && h.events[i].leaf.value !in h.active.Values
        ensures h.events[i].rotation.Requested? ==> LeafNode(h.events[i].leaf.value) !in h.pubs
      {
        assert h.events[i] == g.events[i];
        assert h.events[i].leaf.value != l;
      }
    }
    assert OccupantsKnown(h) by {
      forall m: nat | IsOccupied(m, h.pubs)
        ensures h.pubs[LeafNode(m)].IdentityKey?
        ensures SeatedIn(h, h.pubs[LeafNode(m)].user, m) || (m !in h.active.Values && WaitsFor(h, Remove, m))
      {
        assert IsOccupied(m, g.pubs) && m != l;
      }
    }
    assert MembersArrive(h) by {
      forall v | v in h.active && v != u
        ensures (IsOccupied(h.active[v], h.pubs) && h.pubs[LeafNode(h.active[v])] == IdentityKey(v)) ||
          WaitsToAdd(h, v, h.active[v]) || WaitsForCreation(h)
      {
        assert v in g.active && h.active[v] == g.active[v];
      }
    }
  }

  lemma RemoveMemberInv(g: Group, u: nat)
    requires Inv(g) && u in g.active
    ensures Inv(RemoveMember(g, u))
  {
    var h := RemoveMember(g, u);
    var l := g.active[u];
    OtherEventsStay(g, h, Event(Remove, u, Some(l), Pending, Waiting));
    assert h.active.Values == g.active.Values - {l} by {
      forall v | v in g.active && v != u ensures h.active[v] in h.active.Values && h.active[v] != l {}
    }
    assert h.events[|g.events|].action.Remove?;
    assert WaitsFor(h, Remove, l);
    assert RemovalsHold(h) by {
      forall i | 0 <= i < |h.events| && h.events[i].action.Remove? && !h.events[i].rotation.Done?
        ensures h.events[i].leaf.Some? && h.events[i].leaf.value !in h.active.Values
        ensures h.events[i].rotation.Requested? ==> LeafNode(h.events[i].leaf.value) !in h.pubs
      {
        assert i < |g.events| ==> h.events[i] == g.events[i];
      }
    }
    assert OccupantsKnown(h) by {
      forall m: nat | IsOccupied(m, h.pubs)
        ensures h.pubs[LeafNode(m)].IdentityKey?
        ensures SeatedIn(h, h.pubs[LeafNode(m)].user, m) || (m !in h.active.Values && WaitsFor(h, Remove, m))
      {
        assert IsOccupied(m, g.pubs);
        assert SeatedIn(g, g.pubs[LeafNode(m)].user, m) && m != l ==> SeatedIn(h, h.pubs[LeafNode(m)].user, m);
      }
    }
    assert MembersArrive(h) by {
      forall v | v in h.active
        ensures (IsOccupied(h.active[v], h.pubs) && h.pubs[LeafNode(h.active[v])] == IdentityKey(v)) ||
          WaitsToAdd(h, v, h.active[v]) || WaitsForCreation(h)
      {
        assert v in g.active && h.active[v] == g.active[v];
      }
    }
  }

  lemma AnchorInv(g: Group, i: nat, sent: bool)
    requires Inv(g) && CanAnchor(g, i)
    ensures Inv(Anchor(g, i, sent))
  {
    var h := Anchor(g, i, sent);
    WaitingStays(g, h, i, None);
    assert h.events[0].rotation == g.events[0].rotation;
    assert RemovalsHold(h) by {
      forall j | 0 <= j < |h.events| ensures h.events[j] == g.events[j].(chain := h.events[j].chain) {}
    }
  }

  // Changing event i disturbs only the waits that event i stands for.
  lemma WaitingStays(g: Group, h: Group, i: nat, changed: Option<Event>)
    requires i < |g.events| == |h.events|
    requires forall j :: 0 <= j < |g.events| && j != i ==> h.events[j] == g.events[j]
    requires changed.None? ==> h.events[i] == g.events[i].(chain := h.events[i].chain)
    requires changed.Some? ==> changed.value == g.events[i]
    ensures forall l: nat, a: Action :: WaitsFor(g, a, l) ==>
      WaitsFor(h, a, l) || (changed.Some? && changed.value.action == a && changed.value.leaf == Some(l))
    ensures forall u, l: nat :: WaitsToAdd(g, u, l) ==>
      WaitsToAdd(h, u, l) || (changed.Some? && changed.value.action.Add? && changed.value.subject == u &&
                              changed.value.leaf == Some(l))
  {
    forall l: nat, a: Action | WaitsFor(g, a, l) &&
      !(changed.Some? && changed.value.action == a && changed.value.leaf == Some(l))
      ensures WaitsFor(h, a, l)
    {
      var j :| 0 <= j < |g.events| && g.events[j].action == a && g.events[j].leaf == Some(l) &&
        g.events[j].rotation.Waiting?;
      assert h.events[j] == g.events[j] || changed.None?;
      assert h.events[j].action == a && h.events[j].leaf == Some(l) && h.events[j].rotation.Waiting?;
    }
    forall u, l: nat | WaitsToAdd(g, u, l) &&
      !(changed.Some? && changed.value.action.Add? && changed.value.subject == u && changed.value.leaf == Some(l))
      ensures WaitsToAdd(h, u, l)
    {
      var j :| 0 <= j < |g.events| && g.events[j].action.Add? && g.events[j].subject == u &&
        g.events[j].leaf == Some(l) && g.events[j].rotation.Waiting?;
      assert h.events[j].action.Add? && h.events[j].subject == u && h.events[j].leaf == Some(l) &&
        h.events[j].rotation.Waiting?;
    }
  }

  lemma ConfirmInv(g: Group, i: nat, h: Group)
    requires Inv(g) && Confirms(g, i, h)
    ensures Inv(h)
  {
    var e := g.events[i];
    WaitingStays(g, h, i, Some(e));
    match e.action {
      case Create => ConfirmCreateInv(g, i, h);
      case Add => ConfirmAddInv(g, i, h);
      case Remove => ConfirmRemoveInv(g, i, h);
    }
  }

  lemma ConfirmCreateInv(g: Group, i: nat, h: Group)
    requires Inv(g) && Confirms(g, i, h) && g.events[i].action.Create?
    ensures Inv(h)
  {
    WaitingStays(g, h, i, Some(g.events[i]));
    forall l: nat
      ensures l !in g.active.Values ==> SameAt(LeafNode(l), g.pubs, h.pubs)
      ensures l in g.active.Values ==> IsOccupied(l, h.pubs)
      ensures l in g.active.Values ==> exists u :: SeatedIn(h, u, l) && h.pubs[LeafNode(l)] == IdentityKey(u)
    {
      if l in g.active.Values {
        var u :| u in g.active && g.active[u] == l;
        assert SeatedIn(h, u, l);
      } else {
        assert forall u :: u in g.active ==> LeafNode(g.active[u]) != LeafNode(l);
      }
    }
    assert InCapacity(Tree(h)) by {
      forall x | x in h.pubs ensures InTree(x, h.capacity) {
        if x !in g.pubs {
          assert !SameAt(x, g.pubs, h.pubs);
          var u :| u in g.active && LeafNode(g.active[u]) == x;
        }
      }
    }
    assert RemovalsHold(h) by {
      forall j | 0 <= j < |h.events| && h.events[j].action.Remove? && !h.events[j].rotation.Done?
        ensures h.events[j].leaf.Some? && h.events[j].leaf.value !in h.active.Values
        ensures h.events[j].rotation.Requested? ==> LeafNode(h.events[j].leaf.value) !in h.pubs
      {
        assert h.events[j] == g.events[j];
        assert SameAt(LeafNode(h.events[j].leaf.value), g.pubs, h.pubs);
      }
    }
    assert OccupantsKnown(h) by {
      forall l: nat | IsOccupied(l, h.pubs)
        ensures h.pubs[LeafNode(l)].IdentityKey?
        ensures SeatedIn(h, h.pubs[LeafNode(l)].user, l) || (l !in h.active.Values && WaitsFor(h, Remove, l))
      {
        if l !in g.active.Values {
          assert SameAt(LeafNode(l), g.pubs, h.pubs);
          assert IsOccupied(l, g.pubs);
        }
      }
    }
  }

  lemma ConfirmAddInv(g: Group, i: nat, h: Group)
    requires Inv(g) && Confirms(g, i, h) && g.events[i].action.Add?
    ensures Inv(h)
  {
    var e := g.events[i];
    var l := e.leaf.value;
    WaitingStays(g, h, i, Some(e));
    assert RemovalsHold(h) by {
      forall j | 0 <= j < |h.events| && h.events[j].action.Remove? && !h.events[j].rotation.Done?
        ensures h.events[j].leaf.Some? && h.events[j].leaf.value !in h.active.Values
        ensures h.events[j].rotation.Requested? ==> LeafNode(h.events[j].leaf.value) !in h.pubs
      {
        assert h.events[j] == g.events[j];
      }
    }
    assert OccupantsKnown(h) by {
      forall m: nat | IsOccupied(m, h.pubs)
        ensures h.pubs[LeafNode(m)].IdentityKey?
        ensures SeatedIn(h, h.pubs[LeafNode(m)].user, m) || (m !in h.active.Values && WaitsFor(h, Remove, m))
      {
        assert m != l ==> IsOccupied(m, g.pubs) && h.pubs[LeafNode(m)] == g.pubs[LeafNode(m)];
        assert m == l && h.pubs == g.pubs ==> IsOccupied(m, g.pubs);
      }
    }
    assert MembersArrive(h) by {
      forall u | u in h.active
        ensures (IsOccupied(h.active[u], h.pubs) && h.pubs[LeafNode(h.active[u])] == IdentityKey(u)) ||
          WaitsToAdd(h, u, h.active[u]) || WaitsForCreation(h)
      {
        assert h.active[u] == l && u != e.subject ==> h.pubs == g.pubs;
      }
    }
  }

  lemma ConfirmRemoveInv(g: Group, i: nat, h: Group)
    requires Inv(g) && Confirms(g, i, h) && g.events[i].action.Remove?
    ensures Inv(h)
  {
    var e := g.events[i];
    WaitingStays(g, h, i, Some(e));
    assert RemovalsHold(h) by {
      forall j | 0 <= j < |h.events| && h.events[j].action.Remove? && !h.events[j].rotation.Done?
        ensures h.events[j].leaf.Some? && h.events[j].leaf.value !in h.active.Values
        ensures h.events[j].rotation.Requested? ==> LeafNode(h.events[j].leaf.value) !in h.pubs
      {
        assert j != i ==> h.events[j] == g.events[j];
      }
    }
    assert OccupantsKnown(h) by {
      forall m: nat | IsOccupied(m, h.pubs)
        ensures h.pubs[LeafNode(m)].IdentityKey?
        ensures SeatedIn(h, h.pubs[LeafNode(m)].user, m) || (m !in h.active.Values && WaitsFor(h, Remove, m))
      {
        assert IsOccupied(m, g.pubs) && m != e.leaf.value;
      }
    }
    assert MembersArrive(h) by {
      forall u | u in h.active
        ensures (IsOccupied(h.active[u], h.pubs) && h.pubs[LeafNode(h.active[u])] == IdentityKey(u)) ||
          WaitsToAdd(h, u, h.active[u]) || WaitsForCreation(h)
      {
        assert h.active[u] != e.leaf.value;
      }
    }
  }

  // A commit changes inner nodes only.
  lemma CommitInv(g: Group, plan: CommitPlan, body: CommitBody, pubs: map<nat, Key>)
    requires Inv(g)
    requires forall x :: x in pubs ==> Level(x) > 0 && InTree(x, g.capacity)
    requires forall x :: x in plan.blanks ==> Level(x) > 0
    ensures Inv(CommitTo(g, plan, body, pubs))
  {
    var h := CommitTo(g, plan, body, pubs);
    forall l: nat
      ensures SameAt(LeafNode(l), g.pubs, h.pubs)
    {
      LeafCoordinates(l);
    }
    forall l: nat, a: Action | WaitsFor(g, a, l)
      ensures WaitsFor(h, a, l)
    {
      var j :| 0 <= j < |g.events| && g.events[j].action == a && g.events[j].leaf == Some(l) &&
        g.events[j].rotation.Waiting?;
      assert h.events[j] == g.events[j];
    }
    forall u, l: nat | WaitsToAdd(g, u, l)
      ensures WaitsToAdd(h, u, l)
    {
      var j :| 0 <= j < |g.events| && g.events[j].action.Add? && g.events[j].subject == u &&
        g.events[j].leaf == Some(l) && g.events[j].rotation.Waiting?;
      assert h.events[j] == g.events[j];
    }
    assert RemovalsHold(h) by {
      forall j | 0 <= j < |h.events| && h.events[j].action.Remove? && !h.events[j].rotation.Done?
        ensures h.events[j].leaf.Some? && h.events[j].leaf.value !in h.active.Values
        ensures h.events[j].rotation.Requested? ==> LeafNode(h.events[j].leaf.value) !in h.pubs
      {
        assert h.events[j] == g.events[j];
      }
    }
    assert OccupantsKnown(h) by {
      forall m: nat | IsOccupied(m, h.pubs)
        ensures h.pubs[LeafNode(m)].IdentityKey?
        ensures SeatedIn(h, h.pubs[LeafNode(m)].user, m) || (m !in h.active.Values && WaitsFor(h, Remove, m))
      {
        assert SameAt(LeafNode(m), g.pubs, h.pubs);
        assert IsOccupied(m, g.pubs);
      }
    }
    assert MembersArrive(h) by {
      forall u | u in h.active
        ensures (IsOccupied(h.active[u], h.pubs) && h.pubs[LeafNode(h.active[u])] == IdentityKey(u)) ||
          WaitsToAdd(h, u, h.active[u]) || WaitsForCreation(h)
      {
        assert SameAt(LeafNode(g.active[u]), g.pubs, h.pubs);
      }
    }
  }

  // ------------------------------------------------------------------ confluence

  // Once every event is confirmed, in whatever order, the occupied leaves are exactly the members' leaves.
  lemma AllConfirmedTreeIsMembers(g: Group)
    requires Inv(g)
    requires forall i :: 0 <= i < |g.events| ==> g.events[i].chain.Confirmed?
    ensures forall u :: u in g.active ==>
      IsOccupied(g.active[u], g.pubs) && g.pubs[LeafNode(g.active[u])] == IdentityKey(u)
    ensures forall l: nat :: IsOccupied(l, g.pubs) <==> l in g.active.Values
    ensures forall l: nat :: IsOccupied(l, g.pubs) ==>
      exists u :: g.pubs[LeafNode(l)] == IdentityKey(u) && u in g.active && g.active[u] == l
  {
    forall i | 0 <= i < |g.events|
      ensures !g.events[i].rotation.Waiting?
    {
    }
  }

  // So two groups with the same members end with the same leaves, however their events were ordered.
  lemma ConfirmationsConfluent(g: Group, h: Group, l: nat)
    requires Inv(g) && Inv(h) && g.active == h.active
    requires forall i :: 0 <= i < |g.events| ==> g.events[i].chain.Confirmed?
    requires forall i :: 0 <= i < |h.events| ==> h.events[i].chain.Confirmed?
    ensures SameAt(LeafNode(l), g.pubs, h.pubs)
  {
    AllConfirmedTreeIsMembers(g);
    AllConfirmedTreeIsMembers(h);
    assert IsOccupied(l, g.pubs) <==> IsOccupied(l, h.pubs);
  }
}
