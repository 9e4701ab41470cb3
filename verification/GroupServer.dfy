// The server's operations on one group, performed on fields and tied to the steps of GroupModel.
module GroupServer {
  import opened NodeArithmetic
  import opened KeyTree
  import opened GroupCommit
  import opened GroupModel

  datatype PlanReply =
    | PlanFor(leaves: seq<nat>, full: bool, plan: CommitPlan)
    | NothingToRotate
    | TreeNotReady
    | NoLeaf
    | NoMembersLeft

  datatype CommitReply =
    | CommitAccepted(epoch: nat)
    | StaleEpoch(current: nat)
    | NoPlan(reply: PlanReply)
    | PlanChanged

  // Adding a list of invitees, those already active being skipped.
  function AddMembers(g: Group, users: seq<nat>): Group
  {
    if users == [] then g
    else
      var h := AddMembers(g, users[..|users| - 1]);
      var u := users[|users| - 1];
      if u in h.active then h else AddMember(h, u)
  }

  lemma {:induction false} AddMembersInv(g: Group, users: seq<nat>)
    requires Inv(g)
    ensures Inv(AddMembers(g, users))
  {
    if users != [] {
      var h := AddMembers(g, users[..|users| - 1]);
      AddMembersInv(g, users[..|users| - 1]);
      if users[|users| - 1] !in h.active {
        AddMemberInv(h, users[|users| - 1]);
      }
    }
  }

  // Exactly the invitees join, and nobody changes seats.
  lemma {:induction false} AddMembersJoin(g: Group, users: seq<nat>)
    ensures AddMembers(g, users).active.Keys == g.active.Keys + (set u | u in users)
    ensures forall u :: u in g.active ==> AddMembers(g, users).active[u] == g.active[u]
  {
    if users != [] {
      var shorter := users[..|users| - 1];
      AddMembersJoin(g, shorter);
      assert users == shorter + [users[|users| - 1]];
    }
  }

  predicate IsNewEvent(e: Event, action: Action)
  {
    e.action == action && e.leaf.Some? && e.chain.Pending? && e.rotation.Waiting?
  }

  // Every new member has one new event with its seat, and nothing else changes.
  lemma {:induction false} AddMembersEvents(g: Group, users: seq<nat>)
    ensures var h := AddMembers(g, users);
      g.events <= h.events && h.pubs == g.pubs && h.epoch == g.epoch && h.commits == g.commits &&
      forall i :: |g.events| <= i < |h.events| ==>
        IsNewEvent(h.events[i], Action.Add) && SeatedIn(h, h.events[i].subject, h.events[i].leaf.value)
    ensures |AddMembers(g, users).events| - |g.events| == |AddMembers(g, users).active| - |g.active|
  {
    if users != [] {
      AddMembersEvents(g, users[..|users| - 1]);
    }
  }

  lemma {:induction false} FreeLeafSkips(g: Group, from: nat, l: nat)
    requires from <= l <= g.capacity
    requires forall m :: from <= m < l ==> !IsFree(g, m)
    ensures FreeLeaf(g, from) == FreeLeaf(g, l)
    decreases l - from
  {
    if from < l {
      FreeLeafSkips(g, from + 1, l);
    }
  }

  ghost predicate RotationRequested(g: Group)
  {
    exists i :: IsRequested(g, i)
  }

  // What an accepted commit has changed.
  ghost predicate Committed(g: Group, plan: CommitPlan, body: CommitBody, h: Group)
  {
    h.epoch == g.epoch + 1 && !h.rotationPending && h.active == g.active && h.capacity == g.capacity &&
    h.commits == g.commits + [Commit(body.epoch, body.nodes, plan.blanks, plan.root, body.rootBox)] &&
    |h.events| == |g.events| &&
    (forall i :: 0 <= i < |g.events| ==>
      h.events[i] == if g.events[i].rotation == Requested then g.events[i].(rotation := Rotation.Done) else g.events[i]) &&
    (forall x :: x in plan.path ==> x in h.pubs && x in ByIndex(body.nodes) && h.pubs[x] == ByIndex(body.nodes)[x].pub) &&
    (forall x :: x in plan.blanks ==> x !in h.pubs) &&
    forall x: nat :: x !in plan.path && x !in plan.blanks ==> SameAt(x, g.pubs, h.pubs)
  }

  // The keys after a commit, whatever the numbers of its nodes.
  lemma CommittedKeys(pubs: map<nat, Key>, path: seq<nat>, blanks: seq<nat>, sent: map<nat, Key>, x: nat)
    requires sent.Keys == Elements(path) && (x in path ==> x !in blanks)
    ensures var after := (pubs + sent) - Elements(blanks);
      (x in path ==> x in sent && x in after && after[x] == sent[x]) && (x in blanks ==> x !in after) &&
      (x !in path && x !in blanks ==> SameAt(x, pubs, after))
  {
    assert x in path <==> x in Elements(path);
    assert x in blanks <==> x in Elements(blanks);
  }

  lemma PathNotBlanked(st: TreeState, leaves: seq<nat>, full: bool, plan: CommitPlan)
    requires IsPlan(st, leaves, full, plan)
    ensures forall x :: x in plan.path ==> x !in plan.blanks
  {
  }

  lemma CommitIs(g: Group, plan: CommitPlan, body: CommitBody)
    requires Indices(body.nodes) == Elements(plan.path) && body.epoch == g.epoch + 1
    requires forall x :: x in plan.path ==> x !in plan.blanks
    ensures Committed(g, plan, body, CommitTo(g, plan, body, PubsOf(body.nodes)))
  {
    forall x: nat
      ensures var sent := PubsOf(body.nodes);
        var after := (g.pubs + sent) - Elements(plan.blanks);
        (x in plan.path ==> x in sent && x in after && after[x] == sent[x]) && (x in plan.blanks ==> x !in after) &&
        (x !in plan.path && x !in plan.blanks ==> SameAt(x, g.pubs, after))
    {
      CommittedKeys(g.pubs, plan.path, plan.blanks, PubsOf(body.nodes), x);
    }
  }

  // What a confirmed event does to the key of one node: a creation seats everybody, an addition the
  // member that still has the seat, a removal empties the leaf, and nothing else changes.
  ghost predicate KeyAfter(active: map<nat, nat>, e: Event, before: map<nat, Key>, after: map<nat, Key>, x: nat)
  {
    if e.action == Action.Remove && e.leaf.Some? && x == LeafNode(e.leaf.value) then x !in after
    else
      SameAt(x, before, after) ||
      exists u :: IsSeat(active, u, x) && (e.action == Action.Create || (e.action == Action.Add && e.subject == u)) &&
        x in after && after[x] == IdentityKey(u)
  }

  predicate IsAdded(e: Event, l: nat)
  {
    e.action == Action.Add && e.leaf == Some(l)
  }

  predicate IsSeat(active: map<nat, nat>, u: nat, x: nat)
  {
    u in active && LeafNode(active[u]) == x
  }

  lemma AppliedKey(g: Group, e: Event, r: map<nat, Key>, x: nat)
    requires Applies(g, e, r)
    ensures KeyAfter(g.active, e, g.pubs, r, x)
  {
    if e.action.Create? {
      if u :| u in g.active && LeafNode(g.active[u]) == x {
        assert IsSeat(g.active, u, x);
      }
    } else if e.action.Add? && e.subject in g.active {
      assert e.leaf == Some(g.active[e.subject]) && x == LeafNode(g.active[e.subject]) ==> IsSeat(g.active, e.subject, x);
    }
  }

  // The leaf is somebody's seat, or has a key, or waits for an event to finish.
  predicate InUse(active: map<nat, nat>, pubs: map<nat, Key>, events: seq<Event>, l: nat)
  {
    l in active.Values || LeafNode(l) in pubs ||
    exists i :: 0 <= i < |events| && events[i].leaf == Some(l) && events[i].rotation != Rotation.Done
  }

  // The free leaf is the lowest one that is not in use.
  lemma FreeLeafIsLowest(g: Group)
    ensures FreeLeaf(g, 0) < g.capacity ==> !InUse(g.active, g.pubs, g.events, FreeLeaf(g, 0))
    ensures forall l: nat :: l < FreeLeaf(g, 0) ==> InUse(g.active, g.pubs, g.events, l)
  {
    forall l: nat | l < FreeLeaf(g, 0) ensures InUse(g.active, g.pubs, g.events, l) {
      assert !IsFree(g, l);
    }
  }

  class GroupRecord {
    var capacity: nat
    var active: map<nat, nat>
    var pubs: map<nat, Key>
    var events: seq<Event>
    var epoch: nat
    var rotationPending: bool
    var commits: seq<Commit>

    ghost function View(): Group
      reads this
    {
      Group(capacity, active, pubs, events, epoch, rotationPending, commits)
    }

    // group_service.create
    constructor Create(users: seq<nat>)
      requires users != [] && forall i, j :: 0 <= i < j < |users| ==> users[i] != users[j]
      ensures IsNewGroup(View(), users) && Inv(View())
    {
      capacity := 1;
      active, pubs, epoch, rotationPending, commits := map[], map[], 0, false, [];
      events := [Event(Action.Create, 0, None, Pending, Waiting)];
      new;
      capacity := CapacityFor(|users|);
      for i := 0 to |users|
        invariant IsCapacity(capacity) && |users| <= capacity
        invariant forall c: nat :: IsCapacity(c) && |users| <= c ==> capacity <= c
        invariant forall j :: 0 <= j < i ==> users[j] in active && active[users[j]] == j
        invariant forall u :: u in active ==> u in users[..i]
        invariant pubs == map[] && epoch == 0 && !rotationPending && commits == []
        invariant events == [Event(Action.Create, 0, None, Pending, Waiting)]
      {
        active := active[users[i] := i];
        assert users[..i + 1] == users[..i] + [users[i]];
      }
      assert users[..|users|] == users;
      NewGroupInv(View(), users);
    }

    // group_service._free_leaf
    method TakeFreeLeaf() returns (leaf: nat)
      requires Inv(View())
      modifies this`capacity
      ensures leaf == FreeLeaf(old(View()), 0)
      ensures leaf < old(capacity) ==> !InUse(active, pubs, events, leaf)
      ensures forall l: nat :: l < leaf ==> InUse(active, pubs, events, l)
      ensures capacity == if leaf == old(capacity) then 2 * old(capacity) else old(capacity)
    {
      var taken := active.Values;
      taken := taken + (set e | e in events && !e.rotation.Done? && e.leaf.Some? :: e.leaf.value);
      ghost var g := View();
      FreeLeafIsLowest(g);
      forall l: nat
        ensures l in taken <==> l in active.Values || HasUnfinishedEvent(events, l)
      {
        if HasUnfinishedEvent(events, l) {
          var i :| 0 <= i < |events| && events[i].leaf == Some(l) && !events[i].rotation.Done?;
          assert events[i] in events && events[i].leaf.value == l;
        }
      }
      for l := 0 to capacity
        invariant forall m :: 0 <= m < l ==> !IsFree(g, m)
        invariant View() == g
      {
        if l !in taken && LeafNode(l) !in pubs {
          FreeLeafSkips(g, 0, l);
          return l;
        }
      }
      FreeLeafSkips(g, 0, capacity);
      leaf := capacity;
      var grown := CapacityFor(leaf + 1);
      NextCapacity(capacity, grown);
      capacity := grown;
    }

    // group_service.add_members
    method Add(users: seq<nat>)
      requires Inv(View())
      modifies this
      ensures View() == AddMembers(old(View()), users) && Inv(View())
      ensures active.Keys == old(active).Keys + (set u | u in users) && forall u :: u in old(active) ==> active[u] == old(active)[u]
      ensures old(events) <= events && pubs == old(pubs) && epoch == old(epoch) && commits == old(commits)
      ensures forall i :: |old(events)| <= i < |events| ==> IsNewEvent(events[i], Action.Add) && SeatedIn(View(), events[i].subject, events[i].leaf.value)
      ensures |events| - |old(events)| == |active| - |old(active)|
    {
      ghost var g := View();
      for i := 0 to |users|
        invariant View() == AddMembers(g, users[..i]) && Inv(View())
      {
        assert users[..i + 1][..i] == users[..i];
        var u := users[i];
        if u !in active {
          AddMemberInv(View(), u);
          var leaf := TakeFreeLeaf();
          active := active[u := leaf];
          events := events + [Event(Action.Add, u, Some(leaf), Pending, Waiting)];
        }
      }
      assert users[..|users|] == users;
      AddMembersJoin(g, users);
      AddMembersEvents(g, users);
    }

    // group_service.remove_member
    method RemoveUser(u: nat) returns (found: bool)
      requires Inv(View())
      modifies this
      ensures found <==> u in old(active)
      ensures View() == (if found then GroupModel.RemoveMember(old(View()), u) else old(View())) && Inv(View())
      ensures active == old(active) - {u} && pubs == old(pubs) && epoch == old(epoch) && commits == old(commits)
      ensures found ==> events == old(events) + [Event(Action.Remove, u, Some(old(active)[u]), Pending, Waiting)]
      ensures !found ==> events == old(events)
    {
      if u !in active {
        return false;
      }
      RemoveMemberInv(View(), u);
      events := events + [Event(Action.Remove, u, Some(active[u]), Pending, Waiting)];
      active := active - {u};
      found := true;
    }

    // blockchain.anchor_membership; `sent` is whether the chain took the transaction within the allowed retries.
    method AnchorMembership(i: nat, sent: bool)
      requires Inv(View())
      modifies this`events
      ensures View() == (if CanAnchor(old(View()), i) then Anchor(old(View()), i, sent) else old(View()))
      ensures Inv(View())
      // a pending or failed event is submitted if the chain took it, and failed if it did not
      ensures |events| == |old(events)| && forall j :: 0 <= j < |events| && j != i ==> events[j] == old(events)[j]
      ensures i < |events| && old(events)[i].chain in {Pending, Failed} ==>
        (events[i].chain == Submitted <==> sent) && (events[i].chain == Failed <==> !sent) &&
        events[i].(chain := old(events)[i].chain) == old(events)[i]
      ensures i < |events| && old(events)[i].chain in {Submitted, Confirmed} ==> events[i] == old(events)[i]
    {
      if i >= |events| || events[i].chain.Submitted? || events[i].chain.Confirmed? {
        return;
      }
      AnchorInv(View(), i, sent);
      events := events[i := events[i].(chain := if sent then Submitted else Failed)];
    }

    // blockchain.confirm_membership; `seen` is whether the chain confirmed the transaction.
    method ConfirmMembership(i: nat, seen: bool) returns (confirmed: bool)
      requires Inv(View())
      modifies this
      ensures if CanConfirm(old(View()), i) && seen then Confirms(old(View()), i, View()) else View() == old(View())
      ensures confirmed <==> i < |events| && events[i].chain.Confirmed?
      ensures Inv(View())
      // an event becomes confirmed, and asks for a rotation, exactly if it was submitted and the chain has it
      ensures |events| == |old(events)| && forall j :: 0 <= j < |events| && j != i ==> events[j] == old(events)[j]
      ensures i < |events| && old(events)[i].chain == Submitted && seen ==>
        events[i] == old(events)[i].(chain := Confirmed, rotation := Requested) && rotationPending
      ensures i < |events| && old(events)[i].chain == Submitted && seen ==>
        forall x: nat {:trigger KeyAfter(active, old(events)[i], old(pubs), pubs, x)} ::
          KeyAfter(active, old(events)[i], old(pubs), pubs, x)
      ensures i < |events| && old(events)[i].chain == Submitted && seen ==>
        forall u :: u in active && (events[i].action == Action.Create || (events[i].subject == u && IsAdded(events[i], active[u]))) ==>
          LeafNode(active[u]) in pubs && pubs[LeafNode(active[u])] == IdentityKey(u)
      ensures !(i < |events| && old(events)[i].chain == Submitted && seen) ==> View() == old(View())
      ensures active == old(active) && capacity == old(capacity) && epoch == old(epoch) && commits == old(commits)
    {
      if i >= |events| || !events[i].chain.Submitted? {
        return i < |events| && events[i].chain.Confirmed?;
      }
      if !seen {
        return false;
      }
      ghost var g := View();
      ApplyMembership(events[i]);
      forall x: nat ensures KeyAfter(active, g.events[i], g.pubs, pubs, x) {
        AppliedKey(g, g.events[i], pubs, x);
      }
      events := events[i := events[i].(chain := Confirmed, rotation := Requested)];
      rotationPending := true;
      ConfirmInv(g, i, View());
      confirmed := true;
    }

    // blockchain.apply_membership_to_tree
    method ApplyMembership(e: Event)
      requires Inv(View())
      modifies this`pubs
      ensures Applies(old(View()), e, pubs)
    {
      match e.action {
        case Create =>
          SeatAll();
        case Add =>
          if e.leaf.Some? && e.subject in active && active[e.subject] == e.leaf.value {
            pubs := pubs[LeafNode(e.leaf.value) := IdentityKey(e.subject)];
          }
        case Remove =>
          if e.leaf.Some? {
            pubs := pubs - {LeafNode(e.leaf.value)};
          }
      }
    }

    method SeatAll()
      requires SeatsDistinct(View())
      modifies this`pubs
      ensures Seats(old(pubs), active, pubs)
    {
      var todo := active.Keys;
      ghost var start := pubs;
      while todo != {}
        invariant todo <= active.Keys
        invariant forall u :: u in active && u !in todo ==>
          LeafNode(active[u]) in pubs && pubs[LeafNode(active[u])] == IdentityKey(u)
        invariant forall x: nat :: (forall u :: u in active ==> LeafNode(active[u]) != x) ==> SameAt(x, start, pubs)
        decreases todo
      {
        var u :| u in todo;
        todo := todo - {u};
        ghost var before := pubs;
        pubs := pubs[LeafNode(active[u]) := IdentityKey(u)];
        forall x: nat | forall v :: v in active ==> LeafNode(active[v]) != x
          ensures SameAt(x, start, pubs)
        {
          assert SameAt(x, start, before);
          assert u in active && LeafNode(active[u]) != x;
        }
      }
    }

    // key_service._plan
    method RequestPlan(user: nat, periodic: bool) returns (r: PlanReply)
      requires Inv(View())
      ensures r.PlanFor? ==>
        PlansFor(View(), user, periodic, r.leaves, r.full) && IsPlan(Tree(View()), r.leaves, r.full, r.plan) &&
        exists l: nat :: IsOccupied(l, pubs)
      // for requested rotations all leaves that they name, or everything after a creation; else the own leaf
      ensures r.PlanFor? && RotationRequested(View()) ==>
        (r.full <==> exists i :: 0 <= i < |events| && events[i].rotation == Requested && events[i].action == Action.Create) &&
        forall l :: l in r.leaves <==> exists i :: 0 <= i < |events| && events[i].rotation == Requested && events[i].leaf == Some(l)
      ensures r.PlanFor? && !RotationRequested(View()) ==>
        periodic && user in active && r.leaves == [active[user]] && !r.full
      ensures r.NoMembersLeft? ==> forall l: nat :: !IsOccupied(l, pubs)
      ensures r.NothingToRotate? <==> !RotationRequested(View()) && !periodic
      ensures r.TreeNotReady? <==> !RotationRequested(View()) && periodic && epoch == 0
      ensures r.NoLeaf? <==> !RotationRequested(View()) && periodic && epoch > 0 && user !in active
    {
      var leaves, full, requested := Requests();
      if requested {
        var planned := PlanCommit(TreeState(capacity, pubs), leaves, full);
        return if planned.Planned? then PlanFor(leaves, full, planned.plan) else NoMembersLeft;
      }
      if !periodic {
        return NothingToRotate;
      }
      if epoch == 0 {
        return TreeNotReady;
      }
      if user !in active {
        return NoLeaf;
      }
      var planned := PlanCommit(TreeState(capacity, pubs), [active[user]], false);
      r := if planned.Planned? then PlanFor([active[user]], false, planned.plan) else NoMembersLeft;
    }

    method Requests() returns (leaves: seq<nat>, full: bool, requested: bool)
      requires EventsWellFormed(View())
      ensures requested <==> RotationRequested(View())
      ensures full <==> exists i :: IsRequested(View(), i) && events[i].action.Create?
      ensures forall l :: l in leaves <==> exists i :: IsRequested(View(), i) && events[i].leaf == Some(l)
      ensures forall l :: l in leaves ==> l < capacity
    {
      leaves, full, requested := [], false, false;
      for i := 0 to |events|
        invariant requested <==> exists j :: j < i && IsRequested(View(), j)
        invariant full <==> exists j :: j < i && IsRequested(View(), j) && events[j].action.Create?
        invariant forall l :: l in leaves <==> exists j :: j < i && IsRequested(View(), j) && events[j].leaf == Some(l)
        invariant forall l :: l in leaves ==> l < capacity
      {
        if events[i].rotation.Requested? {
          assert IsRequested(View(), i);
          requested := true;
          full := full || events[i].action.Create?;
          if events[i].leaf.Some? {
            leaves := leaves + [events[i].leaf.value];
          }
        }
      }
    }

    // key_service.tree_commit
    method TreeCommit(user: nat, body: CommitBody, periodic: bool) returns (r: CommitReply, ghost accepted: PlanReply)
      requires Inv(View())
      modifies this
      ensures !r.CommitAccepted? ==> View() == old(View())
      ensures r.CommitAccepted? ==>
        accepted.PlanFor? && r.epoch == body.epoch == old(epoch) + 1 &&
        PlansFor(old(View()), user, periodic, accepted.leaves, accepted.full) &&
        IsPlan(Tree(old(View())), accepted.leaves, accepted.full, accepted.plan) &&
        MatchesPlan(accepted.plan, body.nodes) &&
        View() == CommitTo(old(View()), accepted.plan, body, PubsOf(body.nodes))
      // the epoch advances, every requested rotation is done, and the tree has the new keys and no blanked ones
      ensures r.CommitAccepted? ==> Committed(old(View()), accepted.plan, body, View())
      ensures r.StaleEpoch? <==> body.epoch != old(epoch) + 1
      ensures r.StaleEpoch? ==> r.current == old(epoch)
      ensures r.NoPlan? ==> r.reply == accepted && !accepted.PlanFor?
      ensures r.PlanChanged? ==>
        accepted.PlanFor? && IsPlan(Tree(old(View())), accepted.leaves, accepted.full, accepted.plan) &&
        !MatchesPlan(accepted.plan, body.nodes)
      ensures Inv(View())
    {
      accepted := NothingToRotate;
      if body.epoch != epoch + 1 {
        return StaleEpoch(epoch), accepted;
      }
      var reply := RequestPlan(user, periodic);
      accepted := reply;
      if !reply.PlanFor? {
        return NoPlan(reply), accepted;
      }
      var plan := reply.plan;
      var checked := ValidateCommit(plan, body.nodes);
      if !checked.Accepted? {
        return PlanChanged, accepted;
      }
      CommitInvFor(View(), reply.leaves, reply.full, plan, body);
      PathNotBlanked(Tree(View()), reply.leaves, reply.full, plan);
      CommitIs(View(), plan, body);
      StoreCommit(plan, body, checked.pubs);
      r := CommitAccepted(body.epoch);
    }

    method StoreCommit(plan: CommitPlan, body: CommitBody, newPubs: map<nat, Key>)
      modifies this
      ensures View() == CommitTo(old(View()), plan, body, newPubs)
    {
      pubs := pubs + newPubs;
      pubs := pubs - Elements(plan.blanks);
      commits := commits + [Commit(body.epoch, body.nodes, plan.blanks, plan.root, body.rootBox)];
      events := FinishRotations(events);
      epoch := body.epoch;
      rotationPending := false;
    }
  }

  lemma CommitInvFor(g: Group, leaves: seq<nat>, full: bool, plan: CommitPlan, body: CommitBody)
    requires Inv(g) && IsPlan(Tree(g), leaves, full, plan) && MatchesPlan(plan, body.nodes)
    ensures Inv(CommitTo(g, plan, body, PubsOf(body.nodes)))
  {
    forall x | x in PubsOf(body.nodes)
      ensures Level(x) > 0 && InTree(x, g.capacity)
    {
      assert x in Elements(plan.path);
    }
    CommitInv(g, plan, body, PubsOf(body.nodes));
  }
}
