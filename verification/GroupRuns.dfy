// Whole runs of a group: membership changes, confirmations, plans handed out and honest commits in any order.
module GroupRuns {
  import opened Bits
  import opened NodeArithmetic
  import opened KeyTree
  import opened PlanProperties
  import opened GroupCommit
  import opened CommitLearning
  import opened KeyDelivery
  import opened GroupModel

  // A plan given to a client, with the tree it was computed from.
  datatype Handed = Handed(epoch: nat, st: TreeState, leaves: seq<nat>, full: bool, plan: CommitPlan)

  datatype World = World(g: Group, rounds: seq<Round>, handed: set<Handed>)

  datatype Step =
    | AddStep(u: nat)
    | RemoveStep(u: nat)
    | AnchorStep(i: nat, sent: bool)
    | ConfirmStep(i: nat)
    | PlanStep(user: nat, periodic: bool, h: Handed)
    | CommitStep(h: Handed, user: nat, periodic: bool, r: Round, body: CommitBody)

  ghost function Base(rounds: seq<Round>): map<nat, Key>
  {
    if rounds == [] then map[] else rounds[|rounds| - 1].After()
  }

  // A client that follows buildCommit on the plan it was given.
  ghost predicate IsHonestCommit(w: World, h: Handed, user: nat, periodic: bool, r: Round, body: CommitBody)
  {
    h in w.handed && h.epoch == w.g.epoch && r.base == Base(w.rounds) &&
    PlansFor(w.g, user, periodic, r.leaves, r.full) && Accepts(w.g, h, r, body)
  }

  ghost predicate Accepts(g: Group, h: Handed, r: Round, body: CommitBody)
  {
    // what the client built
    Sealable(h.plan) && r.keys.Keys == Elements(h.plan.path) &&
    IsHonestBody(body, g.epoch + 1, h.plan, r.keys, r.secret) &&
    // what the server checks when the commit arrives
    r.st == Tree(g) && (exists l: nat :: IsOccupied(l, g.pubs)) &&
    IsPlan(r.st, r.leaves, r.full, r.plan) && MatchesPlan(r.plan, body.nodes) &&
    // what it stores
    r.commit == Commit(body.epoch, body.nodes, r.plan.blanks, r.plan.root, body.rootBox)
  }

  ghost predicate Next(w: World, s: Step, v: World)
  {
    match s
    case AddStep(u) => u !in w.g.active && v == w.(g := AddMember(w.g, u))
    case RemoveStep(u) => u in w.g.active && v == w.(g := RemoveMember(w.g, u))
    case AnchorStep(i, sent) => CanAnchor(w.g, i) && v == w.(g := Anchor(w.g, i, sent))
    case ConfirmStep(i) => Confirms(w.g, i, v.g) && v == w.(g := v.g)
    case PlanStep(user, periodic, h) =>
      h.epoch == w.g.epoch && h.st == Tree(w.g) && PlansFor(w.g, user, periodic, h.leaves, h.full) &&
      (exists l: nat :: IsOccupied(l, w.g.pubs)) && IsPlan(h.st, h.leaves, h.full, h.plan) &&
      v == w.(handed := w.handed + {h})
    case CommitStep(h, user, periodic, r, body) =>
      IsHonestCommit(w, h, user, periodic, r, body) &&
      v == w.(g := CommitTo(w.g, r.plan, body, PubsOf(body.nodes)), rounds := w.rounds + [r])
  }

  ghost predicate IsStart(w: World)
  {
    w.rounds == [] && w.handed == {} && exists users :: IsNewGroup(w.g, users)
  }

  ghost predicate IsRun(ws: seq<World>, steps: seq<Step>)
  {
    |ws| == |steps| + 1 && IsStart(ws[0]) &&
    forall i :: 0 <= i < |steps| ==> Next(ws[i], steps[i], ws[i + 1])
  }

  // ------------------------------------------------------------------ what every run keeps

  // Since the last commit only leaves with a requested rotation changed.
  ghost predicate Drift(base: map<nat, Key>, g: Group)
  {
    Settled(base) && (forall x :: x in base ==> InTree(x, g.capacity)) &&
    (forall x: nat :: Level(x) > 0 ==> SameAt(x, base, g.pubs)) &&
    (forall l: nat :: SameAt(LeafNode(l), base, g.pubs) || Touched(g, l))
  }

  ghost predicate RemovalRequested(g: Group, l: nat)
  {
    exists i :: IsRequested(g, i) && g.events[i].action.Remove? && g.events[i].leaf == Some(l)
  }

  // A plan of the current epoch is outdated at most by leaves that became occupied, or empty for good.
  ghost predicate StillUsable(h: Handed, g: Group)
  {
    InCapacity(h.st) && h.st.capacity <= g.capacity && IsPlan(h.st, h.leaves, h.full, h.plan) && Sealable(h.plan) &&
    (forall x :: x in h.st.pubs && Level(x) > 0 ==> SameAt(x, h.st.pubs, g.pubs)) &&
    (forall l: nat :: IsOccupied(l, h.st.pubs) ==> SameAt(LeafNode(l), h.st.pubs, g.pubs) || RemovalRequested(g, l))
  }

  ghost predicate RoundsOk(rounds: seq<Round>)
  {
    forall i {:trigger RoundOk(rounds, i)} :: 0 <= i < |rounds| ==> RoundOk(rounds, i)
  }

  ghost predicate RoundOk(rounds: seq<Round>, i: nat)
    requires i < |rounds|
  {
    rounds[i].Valid() && rounds[i].base == Base(rounds[..i]) && LeavesAreIdentities(rounds[i].st.pubs) &&
    rounds[i].commit.epoch == i + 1
  }

  ghost predicate WorldInv(w: World)
  {
    Inv(w.g) && Drift(Base(w.rounds), w.g) && RoundsOk(w.rounds) &&
    w.g.epoch == |w.rounds| == |w.g.commits| &&
    (forall i :: 0 <= i < |w.rounds| ==> w.g.commits[i] == w.rounds[i].commit) &&
    (forall h :: h in w.handed ==> h.epoch <= w.g.epoch && (h.epoch == w.g.epoch ==> StillUsable(h, w.g)))
  }

  lemma TouchedStays(g: Group, h: Group)
    requires |g.events| <= |h.events|
    requires forall i :: 0 <= i < |g.events| && g.events[i].rotation.Requested? ==>
      h.events[i].(chain := g.events[i].chain) == g.events[i]
    ensures forall l: nat :: Touched(g, l) ==> Touched(h, l)
    ensures forall l: nat :: RemovalRequested(g, l) ==> RemovalRequested(h, l)
  {
    forall l: nat | Touched(g, l)
      ensures Touched(h, l)
    {
      var i :| IsRequested(g, i) && (g.events[i].action.Create? || g.events[i].leaf == Some(l));
      assert IsRequested(h, i);
    }
    forall l: nat | RemovalRequested(g, l)
      ensures RemovalRequested(h, l)
    {
      var i :| IsRequested(g, i) && g.events[i].action.Remove? && g.events[i].leaf == Some(l);
      assert IsRequested(h, i);
    }
  }

  // Steps that leave the tree alone keep everything about it.
  lemma TreeKept(w: World, h: Group)
    requires WorldInv(w) && Inv(h)
    requires h.pubs == w.g.pubs && w.g.capacity <= h.capacity && h.epoch == w.g.epoch && h.commits == w.g.commits
    requires |w.g.events| <= |h.events|
    requires forall i :: 0 <= i < |w.g.events| && w.g.events[i].rotation.Requested? ==>
      h.events[i].(chain := w.g.events[i].chain) == w.g.events[i]
    ensures WorldInv(w.(g := h))
  {
    TouchedStays(w.g, h);
    forall p | p in w.handed && p.epoch == h.epoch
      ensures StillUsable(p, h)
    {
      assert StillUsable(p, w.g);
    }
  }

  lemma ConfirmKeepsDrift(base: map<nat, Key>, g: Group, i: nat, h: Group)
    requires Inv(g) && Confirms(g, i, h) && Drift(base, g)
    ensures Drift(base, h)
  {
    TouchedStays(g, h);
    assert IsRequested(h, i);
    forall x: nat | Level(x) > 0
      ensures SameAt(x, base, h.pubs)
    {
      ConfirmChanges(g, i, h, x);
    }
    forall l: nat
      ensures SameAt(LeafNode(l), base, h.pubs) || Touched(h, l)
    {
      ConfirmChanges(g, i, h, LeafNode(l));
      assert SameAt(LeafNode(l), base, g.pubs) || Touched(g, l);
    }
  }

  lemma ConfirmKeeps(w: World, i: nat, h: Group)
    requires WorldInv(w) && Confirms(w.g, i, h)
    ensures WorldInv(w.(g := h))
  {
    ConfirmInv(w.g, i, h);
    ConfirmKeepsDrift(Base(w.rounds), w.g, i, h);
    forall p | p in w.handed && p.epoch == h.epoch
      ensures StillUsable(p, h)
    {
      ConfirmKeepsUsable(w.g, i, h, p);
    }
  }

  // A plan handed out before a confirmation stays usable after it.
  lemma ConfirmKeepsUsable(g: Group, i: nat, h: Group, p: Handed)
    requires Inv(g) && Confirms(g, i, h) && StillUsable(p, g)
    ensures StillUsable(p, h)
  {
    forall l: nat | IsOccupied(l, p.st.pubs)
      ensures SameAt(LeafNode(l), p.st.pubs, h.pubs) || RemovalRequested(h, l)
    {
      LeafKeptOrRemoved(g, i, h, l);
      assert SameAt(LeafNode(l), p.st.pubs, g.pubs) || RemovalRequested(g, l);
    }
    forall x | x in p.st.pubs && Level(x) > 0
      ensures SameAt(x, p.st.pubs, h.pubs)
    {
      ConfirmChanges(g, i, h, x);
    }
  }

  // A confirmation changes only leaves its event stands for.
  lemma ConfirmChanges(g: Group, i: nat, h: Group, x: nat)
    requires Inv(g) && Confirms(g, i, h)
    ensures SameAt(x, g.pubs, h.pubs) ||
      (Level(x) == 0 && (g.events[i].action.Create? || g.events[i].leaf == Some(x / 2)))
  {
    LeafCoordinates(x / 2);
    if g.events[i].action.Create? && Level(x) > 0 {
      forall u | u in g.active
        ensures LeafNode(g.active[u]) != x
      {
        LeafCoordinates(g.active[u]);
      }
    } else if !g.events[i].action.Create? {
      LeafCoordinates(g.events[i].leaf.value);
      assert LeafNode(g.events[i].leaf.value) / 2 == g.events[i].leaf.value;
    }
  }

  // An occupied leaf keeps its key, or becomes empty by a removal; a leaf under removal stays empty.
  lemma LeafKeptOrRemoved(g: Group, i: nat, h: Group, l: nat)
    requires Inv(g) && Confirms(g, i, h)
    ensures IsOccupied(l, g.pubs) ==> SameAt(LeafNode(l), g.pubs, h.pubs) || RemovalRequested(h, l)
    ensures RemovalRequested(g, l) ==> RemovalRequested(h, l)
  {
    TouchedStays(g, h);
    assert IsRequested(h, i);
    if IsOccupied(l, g.pubs) {
      ConfirmChanges(g, i, h, LeafNode(l));
      if !g.events[i].action.Remove? {
        if l in g.active.Values {
          var u :| u in g.active && g.active[u] == l;
          assert g.pubs[LeafNode(l)] == IdentityKey(u);
        } else {
          assert forall u :: u in g.active ==> LeafNode(g.active[u]) != LeafNode(l);
        }
      }
    }
  }

  // ------------------------------------------------------------------ plans

  lemma PlannedLeavesInTree(g: Group, user: nat, periodic: bool, leaves: seq<nat>, full: bool, l: nat)
    requires EventsWellFormed(g) && SeatsDistinct(g) && PlansFor(g, user, periodic, leaves, full) && l in leaves
    ensures l < g.capacity
  {
    if exists i :: IsRequested(g, i) {
      var j :| IsRequested(g, j) && g.events[j].leaf == Some(l);
    }
  }

  // What the server plans for covers every leaf that changed since the last commit.
  lemma PlansCoverDrift(base: map<nat, Key>, g: Group, user: nat, periodic: bool, leaves: seq<nat>, full: bool)
    requires Inv(g) && Drift(base, g) && PlansFor(g, user, periodic, leaves, full)
    ensures DriftedFrom(base, Tree(g), leaves, full)
    ensures full || leaves != []
    ensures forall l :: l in leaves ==> l < g.capacity
  {
    forall l: nat | !full && l !in leaves
      ensures SameAt(LeafNode(l), base, g.pubs)
    {
      assert !Touched(g, l);
    }
    if i :| IsRequested(g, i) {
      if !full {
        assert !g.events[i].action.Create?;
        assert g.events[i].leaf.value in leaves;
      }
    }
    forall l | l in leaves
      ensures l < g.capacity
    {
      PlannedLeavesInTree(g, user, periodic, leaves, full, l);
    }
  }

  lemma NewPlanUsable(base: map<nat, Key>, g: Group, user: nat, periodic: bool, h: Handed)
    requires Inv(g) && Drift(base, g) && h.st == Tree(g) && PlansFor(g, user, periodic, h.leaves, h.full)
    requires exists l: nat :: IsOccupied(l, g.pubs)
    requires IsPlan(h.st, h.leaves, h.full, h.plan)
    ensures StillUsable(h, g)
  {
    PlansCoverDrift(base, g, user, periodic, h.leaves, h.full);
    PlanIsSealable(h.st, h.leaves, h.full, h.plan);
  }

  lemma PlanKeeps(w: World, user: nat, periodic: bool, h: Handed)
    requires WorldInv(w)
    requires h.epoch == w.g.epoch && h.st == Tree(w.g) && PlansFor(w.g, user, periodic, h.leaves, h.full)
    requires exists l: nat :: IsOccupied(l, w.g.pubs)
    requires IsPlan(h.st, h.leaves, h.full, h.plan)
    ensures WorldInv(w.(handed := w.handed + {h}))
  {
    NewPlanUsable(Base(w.rounds), w.g, user, periodic, h);
    forall p | p in w.handed + {h}
      ensures p.epoch <= w.g.epoch && (p.epoch == w.g.epoch ==> StillUsable(p, w.g))
    {
      assert p in w.handed || p == h;
    }
  }

  // ------------------------------------------------------------------ commits

  // A body that matches the server's plan was built from a plan with the same path.
  lemma SamePath(g: Group, h: Handed, r: Round, body: CommitBody)
    requires Ascending(h.plan.path) && Accepts(g, h, r, body)
    ensures h.plan.path == r.plan.path
    ensures forall x :: x in r.plan.path ==>
      x in h.plan.targets && multiset(h.plan.targets[x]) == multiset(r.plan.targets[x])
  {
    HonestIndices(body, g.epoch + 1, h.plan, r.keys, r.secret);
    forall x ensures x in h.plan.path <==> x in r.plan.path {
      assert x in Elements(h.plan.path) <==> x in Elements(r.plan.path);
    }
    AscendingUnique(h.plan.path, r.plan.path);
    forall x | x in r.plan.path
      ensures x in h.plan.targets && multiset(h.plan.targets[x]) == multiset(r.plan.targets[x])
    {
      var i :| 0 <= i < |h.plan.path| && h.plan.path[i] == x;
      HonestNodeByIndex(body, g.epoch + 1, h.plan, r.keys, r.secret, i);
    }
  }

  lemma SameTargets(a: seq<nat>, b: seq<nat>, t: nat)
    requires multiset(a) == multiset(b)
    ensures t in a <==> t in b
  {
    assert t in a <==> t in multiset(a);
    assert t in b <==> t in multiset(b);
  }

  // The keys in an outdated plan are still the keys of the tree, wherever both have one.
  lemma KnownStillValid(h: Handed, g: Group, t: nat)
    requires Inv(g) && StillUsable(h, g)
    requires t in h.st.pubs && t in g.pubs
    ensures h.st.pubs[t] == g.pubs[t]
  {
    if Level(t) == 0 {
      var l := t / 2;
      assert LeafNode(l) == t && IsOccupied(l, h.st.pubs);
      assert !RemovalRequested(g, l);
    }
  }

  // A node sealed for one plan is delivered for another with the same path, targets and keys.
  lemma SealedNodeDelivers(a: CommitPlan, b: CommitPlan, node: CommitNode, x: nat, keys: map<nat, Key>, d: Delivery)
    requires Sealable(a) && keys.Keys == Elements(a.path) && x in a.path && IsSealedNode(node, x, a, keys)
    requires x in b.targets && multiset(a.targets[x]) == multiset(b.targets[x])
    requires d.keys == keys && d.targets == b.targets
    requires forall t :: t in b.targets[x] && t !in keys && t in a.knownPubs ==>
      t in d.stored && d.stored[t] == a.knownPubs[t]
    ensures forall c :: c in node.ciphertexts ==>
      c.target in b.targets[x] && d.KeyAt(c.target) == Some(c.box.to) && c.box.content == keys[x]
    ensures forall t :: t in b.targets[x] ==> exists c :: c in node.ciphertexts && c.target == t
  {
    var targets := a.targets[x];
    forall c | c in node.ciphertexts
      ensures c.target in b.targets[x] && d.KeyAt(c.target) == Some(c.box.to) && c.box.content == keys[x]
    {
      var k :| 0 <= k < |node.ciphertexts| && node.ciphertexts[k] == c;
      assert c.target == targets[k];
      SameTargets(targets, b.targets[x], c.target);
      assert HasKey(c.target, a);
    }
    forall t | t in b.targets[x]
      ensures exists c :: c in node.ciphertexts && c.target == t
    {
      SameTargets(targets, b.targets[x], t);
      var k :| 0 <= k < |targets| && targets[k] == t;
      assert node.ciphertexts[k] in node.ciphertexts;
    }
  }

  // Whatever the new plan seals under a stored key, the old plan knew that key.
  lemma KnownPubsCurrent(g: Group, h: Handed, r: Round, body: CommitBody, x: nat, t: nat)
    requires Inv(g) && StillUsable(h, g) && Accepts(g, h, r, body) && h.plan.path == r.plan.path
    requires x in r.plan.path && t in r.plan.targets[x] && t !in r.plan.path && t in h.plan.knownPubs
    ensures t in r.st.pubs && r.st.pubs[t] == h.plan.knownPubs[t]
  {
    TargetsHaveKeys(x, r.st.pubs, Elements(r.plan.path));
    KnownStillValid(h, g, t);
  }

  lemma NodeIsDelivered(g: Group, h: Handed, r: Round, body: CommitBody, i: nat)
    requires Inv(g) && StillUsable(h, g) && Accepts(g, h, r, body)
    requires i < |r.plan.path| && h.plan.path == r.plan.path
    requires multiset(h.plan.targets[r.plan.path[i]]) == multiset(r.plan.targets[r.plan.path[i]])
    ensures |r.commit.nodes| == |r.plan.path| && r.Sent().Delivers(i)
  {
    var x := r.plan.path[i];
    assert x in r.plan.path && x in Elements(r.plan.path);
    assert IsSealedNode(body.nodes[i], x, h.plan, r.keys);
    forall t | t in r.plan.targets[x] && t !in r.keys && t in h.plan.knownPubs
      ensures t in r.st.pubs && r.st.pubs[t] == h.plan.knownPubs[t]
    {
      KnownPubsCurrent(g, h, r, body, x, t);
    }
    SealedNodeDelivers(h.plan, r.plan, body.nodes[i], x, r.keys, r.Sent());
  }

  lemma CloseCapacities(a: nat, b: nat)
    requires IsCapacity(a) && IsCapacity(b) && a <= b < 2 * a
    ensures a == b
  {
    var d, e := Depth(a), Depth(b);
    if d < e {
      Pow2Monotone(d + 1, e);
    } else {
      Pow2Monotone(e, d);
    }
  }

  lemma RootIsDelivered(g: Group, h: Handed, r: Round, body: CommitBody)
    requires Inv(g) && StillUsable(h, g) && Accepts(g, h, r, body)
    requires r.full || r.leaves != []
    requires forall l :: l in r.leaves ==> l < g.capacity
    requires h.plan.path == r.plan.path
    ensures r.Sent().KeyAt(r.plan.root) == Some(body.rootBox.to)
  {
    PlanIsSealable(r.st, r.leaves, r.full, r.plan);
    var root := r.plan.root;
    if r.st.capacity > 1 {
      assert root in h.plan.path;
      CloseCapacities(h.st.capacity, r.st.capacity);
      assert root in Elements(r.plan.path);
    } else {
      assert root !in r.keys;
      var l: nat :| IsOccupied(l, g.pubs);
      assert InTree(LeafNode(l), r.st.capacity);
      KnownStillValid(h, g, root);
    }
  }

  lemma NodesAreDelivered(g: Group, h: Handed, r: Round, body: CommitBody)
    requires Inv(g) && StillUsable(h, g) && Accepts(g, h, r, body)
    ensures r.Sent().Valid() && h.plan.path == r.plan.path
  {
    SamePath(g, h, r, body);
    forall i | 0 <= i < |r.plan.path|
      ensures r.Sent().Delivers(i)
    {
      assert r.plan.path[i] in r.plan.path;
      NodeIsDelivered(g, h, r, body, i);
    }
    forall x
      ensures x in r.keys <==> x in r.plan.path
    {
      assert x in r.keys <==> x in Elements(h.plan.path);
    }
    forall i, j | 0 <= i < j < |r.plan.path|
      ensures r.plan.path[i] != r.plan.path[j]
    {
      assert Before(r.plan.path[i], r.plan.path[j]);
    }
  }

  lemma CommitIsRound(w: World, h: Handed, user: nat, periodic: bool, r: Round, body: CommitBody)
    requires WorldInv(w) && IsHonestCommit(w, h, user, periodic, r, body)
    ensures r.Valid() && r.plan.path == h.plan.path
  {
    PlansCoverDrift(Base(w.rounds), w.g, user, periodic, r.leaves, r.full);
    NodesAreDelivered(w.g, h, r, body);
    RootIsDelivered(w.g, h, r, body);
  }

  lemma RoundsExtend(rounds: seq<Round>, r: Round)
    requires RoundsOk(rounds) && r.Valid() && r.base == Base(rounds)
    requires LeavesAreIdentities(r.st.pubs) && r.commit.epoch == |rounds| + 1
    ensures RoundsOk(rounds + [r])
  {
    var longer := rounds + [r];
    forall i | 0 <= i < |longer|
      ensures RoundOk(longer, i)
    {
      if i < |rounds| {
        assert RoundOk(rounds, i);
        assert longer[..i] == rounds[..i];
      } else {
        assert longer[..i] == rounds;
      }
    }
  }

  lemma CommitKeepsGroup(g: Group, r: Round, body: CommitBody)
    requires Inv(g) && r.Valid() && r.st == Tree(g)
    ensures Inv(CommitTo(g, r.plan, body, r.keys))
    ensures Drift(r.After(), CommitTo(g, r.plan, body, r.keys))
    ensures LeavesAreIdentities(r.st.pubs)
  {
    forall x | x in r.keys
      ensures Level(x) > 0 && InTree(x, g.capacity)
    {
      assert x in r.plan.path;
    }
    CommitInv(g, r.plan, body, r.keys);
    NextIsSettled(r);
  }

  lemma CommitExtends(w: World, h: Handed, user: nat, periodic: bool, r: Round, body: CommitBody)
    requires WorldInv(w) && IsHonestCommit(w, h, user, periodic, r, body) && r.Valid()
    ensures RoundsOk(w.rounds + [r])
    ensures body.epoch == |w.rounds| + 1
  {
    CommitKeepsGroup(w.g, r, body);
    RoundsExtend(w.rounds, r);
  }

  lemma CommitKeeps(w: World, r: Round, body: CommitBody, v: World)
    requires Inv(v.g) && Drift(r.After(), v.g) && RoundsOk(w.rounds + [r]) && body.epoch == |w.rounds| + 1
    requires WorldInv(w) && r.commit == Commit(body.epoch, body.nodes, r.plan.blanks, r.plan.root, body.rootBox)
    requires v == w.(g := CommitTo(w.g, r.plan, body, r.keys), rounds := w.rounds + [r])
    ensures WorldInv(v)
  {
    assert Base(v.rounds) == r.After();
  }

  lemma StepKeeps(w: World, s: Step, v: World)
    requires WorldInv(w) && Next(w, s, v)
    ensures WorldInv(v)
  {
    match s {
      case AddStep(u) =>
        AddMemberInv(w.g, u);
        TreeKept(w, v.g);
      case RemoveStep(u) =>
        RemoveMemberInv(w.g, u);
        TreeKept(w, v.g);
      case AnchorStep(i, sent) =>
        AnchorInv(w.g, i, sent);
        TreeKept(w, v.g);
      case ConfirmStep(i) => ConfirmKeeps(w, i, v.g);
      case PlanStep(user, periodic, h) => PlanKeeps(w, user, periodic, h);
      case CommitStep(h, user, periodic, r, body) =>
        CommitIsRound(w, h, user, periodic, r, body);
        CommitExtends(w, h, user, periodic, r, body);
        HonestPubs(body, w.g.epoch + 1, h.plan, r.keys, r.secret);
        CommitKeepsGroup(w.g, r, body);
        CommitKeeps(w, r, body, v);
    }
  }

  lemma StartInv(w: World)
    requires IsStart(w)
    ensures WorldInv(w)
  {
    var users :| IsNewGroup(w.g, users);
    NewGroupInv(w.g, users);
  }

  lemma {:induction false} RunInv(ws: seq<World>, steps: seq<Step>, i: nat)
    requires IsRun(ws, steps) && i < |ws|
    ensures WorldInv(ws[i])
  {
    if i == 0 {
      StartInv(ws[0]);
    } else {
      RunInv(ws, steps, i - 1);
      StepKeeps(ws[i - 1], steps[i - 1], ws[i]);
    }
  }

  // ------------------------------------------------------------------ the tree in every reachable state

  lemma SameEverywhere(a: map<nat, Key>, b: map<nat, Key>)
    requires forall x: nat :: SameAt(x, a, b)
    ensures a == b
  {
    forall x: nat
      ensures (x in a <==> x in b) && (x in a ==> a[x] == b[x])
    {
      assert SameAt(x, a, b);
    }
  }

  // While no rotation is requested the tree is settled, however often it has grown.
  lemma SettledWhenIdle(ws: seq<World>, steps: seq<Step>, i: nat)
    requires IsRun(ws, steps) && i < |ws|
    requires forall e :: e in ws[i].g.events ==> !e.rotation.Requested?
    ensures Settled(ws[i].g.pubs)
  {
    RunInv(ws, steps, i);
    var g, base := ws[i].g, Base(ws[i].rounds);
    forall l: nat
      ensures SameAt(LeafNode(l), base, g.pubs)
    {
      assert !Touched(g, l);
    }
    forall x: nat
      ensures SameAt(x, base, g.pubs)
    {
      assert Level(x) == 0 ==> LeafNode(x / 2) == x;
    }
    SameEverywhere(base, g.pubs);
  }

  // Every plan the server makes in a reachable state partitions the members below each path
  // node among at most two targets; a target without a member is a node the plan blanks.
  lemma ReachablePlans(
    ws: seq<World>, steps: seq<Step>, i: nat, user: nat, periodic: bool,
    leaves: seq<nat>, full: bool, plan: CommitPlan, n: nat)
    requires IsRun(ws, steps) && i < |ws|
    requires PlansFor(ws[i].g, user, periodic, leaves, full) && IsPlan(Tree(ws[i].g), leaves, full, plan)
    requires n in plan.path
    ensures |plan.targets[n]| <= 2
    ensures forall l: nat :: IsOccupied(l, ws[i].g.pubs) && Under(l, n) ==>
      exists k :: 0 <= k < |plan.targets[n]| && Under(l, plan.targets[n][k])
    ensures forall j, k, l: nat ::
      (0 <= j < |plan.targets[n]| && 0 <= k < |plan.targets[n]| &&
      Under(l, plan.targets[n][j]) && Under(l, plan.targets[n][k])) ==> j == k
    ensures forall t :: t in plan.targets[n] ==> (HasMember(t, ws[i].g.pubs) <==> t !in plan.blanks)
  {
    RunInv(ws, steps, i);
    var base, st := Base(ws[i].rounds), Tree(ws[i].g);
    PlansCoverDrift(base, ws[i].g, user, periodic, leaves, full);
    TargetsPartitionMembers(base, st, leaves, full, plan, n);
    AtMostTwoTargets(base, st, leaves, full, plan, n);
  }

  // ------------------------------------------------------------------ any body the server accepts

  // Ciphertext k of the node is sealed to a node above the leaf.
  ghost predicate Serves(targets: seq<nat>, l: nat, k: int)
  {
    0 <= k < |targets| && Under(l, targets[k])
  }

  lemma {:induction false} TwicePlaced(s: seq<nat>, j: int, k: int)
    requires 0 <= j < k < |s| && s[j] == s[k]
    ensures multiset(s)[s[j]] >= 2
  {
    assert s == s[..k] + [s[k]] + s[k + 1..];
    assert s[..k][j] in multiset(s[..k]);
  }

  lemma {:induction false} TwoPlaces(s: seq<nat>, t: nat)
    requires multiset(s)[t] >= 2
    ensures exists j, k :: 0 <= j < k < |s| && s[j] == s[k] == t
  {
    var n := |s| - 1;
    assert s == s[..n] + [s[n]];
    if s[n] == t {
      assert t in multiset(s[..n]);
      var j :| 0 <= j < n && s[..n][j] == t;
      assert s[j] == s[n] == t;
    } else {
      TwoPlaces(s[..n], t);
      var j, k :| 0 <= j < k < n && s[..n][j] == s[..n][k] == t;
      assert s[j] == s[k] == t;
    }
  }

  // A rearrangement of targets that partition the leaves serves every leaf just as often.
  lemma ServedOnce(planned: seq<nat>, sent: seq<nat>, l: nat)
    requires multiset(sent) == multiset(planned) && exists k :: Serves(planned, l, k)
    requires forall j, k :: Serves(planned, l, j) && Serves(planned, l, k) ==> j == k
    ensures exists k :: Serves(sent, l, k)
    ensures forall j, k :: Serves(sent, l, j) && Serves(sent, l, k) ==> j == k
  {
    var i :| Serves(planned, l, i);
    assert planned[i] in multiset(sent);
    var k :| 0 <= k < |sent| && sent[k] == planned[i];
    assert Serves(sent, l, k);
    forall j | Serves(sent, l, j) ensures j == k {
      assert sent[j] in multiset(planned);
      var m :| 0 <= m < |planned| && planned[m] == sent[j];
      assert Serves(planned, l, m);
      if j != k {
        TwicePlaced(sent, if j < k then j else k, if j < k then k else j);
        TwoPlaces(planned, sent[k]);
        var a, b :| 0 <= a < b < |planned| && planned[a] == planned[b] == sent[k];
        assert Serves(planned, l, a) && Serves(planned, l, b);
      }
    }
  }

  // Whoever built it, a body that the server accepts in a reachable state has for every renewed node
  // and every member below it exactly one ciphertext that is sealed to a node above that member.
  lemma AcceptedServesMembers(
    ws: seq<World>, steps: seq<Step>, i: nat, user: nat, periodic: bool,
    leaves: seq<nat>, full: bool, plan: CommitPlan, nodes: seq<CommitNode>, n: nat, l: nat)
    requires IsRun(ws, steps) && i < |ws|
    requires PlansFor(ws[i].g, user, periodic, leaves, full) && IsPlan(Tree(ws[i].g), leaves, full, plan)
    requires MatchesPlan(plan, nodes) && n in plan.path && IsOccupied(l, ws[i].g.pubs) && Under(l, n)
    ensures n in ByIndex(nodes) && exists k :: Serves(CiphertextTargets(ByIndex(nodes)[n]), l, k)
    ensures forall j, k :: Serves(CiphertextTargets(ByIndex(nodes)[n]), l, j) && Serves(CiphertextTargets(ByIndex(nodes)[n]), l, k) ==> j == k
  {
    assert n in Elements(plan.path);
    ReachablePlans(ws, steps, i, user, periodic, leaves, full, plan, n);
    var k :| 0 <= k < |plan.targets[n]| && Under(l, plan.targets[n][k]);
    assert Serves(plan.targets[n], l, k);
    ServedOnce(plan.targets[n], CiphertextTargets(ByIndex(nodes)[n]), l);
  }

  // In every reachable state, a commit for one changed leaf renews at most one node for each level and
  // seals at most twice as many keys.
  lemma ReachableCommitSize(
    ws: seq<World>, steps: seq<Step>, i: nat, user: nat, periodic: bool, leaf: nat, plan: CommitPlan)
    requires IsRun(ws, steps) && i < |ws|
    requires PlansFor(ws[i].g, user, periodic, [leaf], false) && IsPlan(Tree(ws[i].g), [leaf], false, plan)
    ensures |plan.path| <= Depth(ws[i].g.capacity)
    ensures SealCount(plan.path, plan.targets) <= 2 * Depth(ws[i].g.capacity)
  {
    RunInv(ws, steps, i);
    PlansCoverDrift(Base(ws[i].rounds), ws[i].g, user, periodic, [leaf], false);
    CommitSizeLogarithmic(Base(ws[i].rounds), Tree(ws[i].g), leaf, plan);
  }
}
