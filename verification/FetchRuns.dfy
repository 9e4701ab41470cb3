// Whole runs of a group and its clients: members fetch pending commits, each time told the leaf recorded for them then.
module FetchRuns {
  import opened NodeArithmetic
  import opened KeyTree
  import opened PlanProperties
  import opened GroupCommit
  import opened KeyDelivery
  import opened Footholds
  import opened GroupModel
  import opened GroupRuns
  import opened MemberRuns

  // The client's stored tree, and the leaf that came with each commit it has processed.
  datatype Client = Client(tree: ClientTree, told: seq<Option<nat>>)

  datatype System = System(w: World, clients: map<nat, Client>)

  // The next n pending commits are handed to a member; the server hands out at most a hundred.
  datatype Move = Server(step: Step) | Fetch(u: nat, n: nat)

  function ClientOf(x: System, u: nat): Client
  {
    if u in x.clients then x.clients[u] else Client(NewClient, [])
  }

  // Processing one commit, and several, all with the leaf reported at that moment.
  function OneMore(c: Client, u: nat, commit: Commit, leaf: Option<nat>): Client
  {
    Client(Processed(c.tree, commit, leaf, IdentityKey(u)), c.told + [leaf])
  }

  function Caught(c: Client, u: nat, commits: seq<Commit>, leaf: Option<nat>): Client
  {
    if commits == [] then c
    else OneMore(Caught(c, u, commits[..|commits| - 1], leaf), u, commits[|commits| - 1], leaf)
  }

  lemma {:induction false} CaughtKeeps(c: Client, u: nat, commits: seq<Commit>, leaf: Option<nat>, keeps: (Client, nat) -> bool)
    requires keeps(c, 0)
    requires forall d, i: nat :: i < |commits| && keeps(d, i) ==> keeps(OneMore(d, u, commits[i], leaf), i + 1)
    ensures keeps(Caught(c, u, commits, leaf), |commits|)
    decreases |commits|
  {
    if commits != [] {
      var n := |commits| - 1;
      CaughtKeeps(c, u, commits[..n], leaf, keeps);
      assert keeps(OneMore(Caught(c, u, commits[..n], leaf), u, commits[n], leaf), n + 1);
    }
  }

  // Only members are handed commits.
  ghost predicate Fetches(x: System, u: nat, n: nat, y: System)
  {
    var c := ClientOf(x, u);
    u in x.w.g.active && c.tree.processed + n <= |x.w.g.commits| &&
    y == x.(clients := x.clients[u :=
      Caught(c, u, x.w.g.commits[c.tree.processed..c.tree.processed + n], Some(x.w.g.active[u]))])
  }

  ghost predicate Moves(x: System, m: Move, y: System)
  {
    match m
    case Server(step) => Next(x.w, step, y.w) && y.clients == x.clients
    case Fetch(u, n) => Fetches(x, u, n, y)
  }

  ghost predicate Begins(x: System)
  {
    IsStart(x.w) && x.clients == map[]
  }

  ghost predicate IsFetchRun(xs: seq<System>, moves: seq<Move>)
  {
    |xs| == |moves| + 1 && Begins(xs[0]) && forall i :: 0 <= i < |moves| ==> Moves(xs[i], moves[i], xs[i + 1])
  }

  // ------------------------------------------------------------------ a leaf is emptied only by a removal

  // A leaf that lost its key since the last commit waits for the rotation of a removal.
  ghost predicate EmptiedByRemoval(w: World)
  {
    forall l: nat {:trigger RemovalRequested(w.g, l)} ::
      LeafNode(l) in Base(w.rounds) && LeafNode(l) !in w.g.pubs ==> RemovalRequested(w.g, l)
  }

  lemma EmptiedKept(w: World, h: Group)
    requires EmptiedByRemoval(w) && h.pubs == w.g.pubs && |w.g.events| <= |h.events|
    requires forall i :: 0 <= i < |w.g.events| && w.g.events[i].rotation.Requested? ==>
      h.events[i].(chain := w.g.events[i].chain) == w.g.events[i]
    ensures EmptiedByRemoval(w.(g := h))
  {
    TouchedStays(w.g, h);
    forall l: nat | LeafNode(l) in Base(w.rounds) && LeafNode(l) !in h.pubs ensures RemovalRequested(h, l) {
      assert RemovalRequested(w.g, l);
    }
  }

  lemma EmptiedByConfirm(w: World, i: nat, h: Group)
    requires Inv(w.g) && EmptiedByRemoval(w) && Confirms(w.g, i, h)
    ensures EmptiedByRemoval(w.(g := h))
  {
    forall l: nat | LeafNode(l) in Base(w.rounds) && LeafNode(l) !in h.pubs ensures RemovalRequested(h, l) {
      LeafKeptOrRemoved(w.g, i, h, l);
      if LeafNode(l) !in w.g.pubs {
        assert RemovalRequested(w.g, l);
      }
    }
  }

  lemma EmptiedByCommit(w: World, h: Handed, user: nat, periodic: bool, r: Round, body: CommitBody)
    requires WorldInv(w) && IsHonestCommit(w, h, user, periodic, r, body)
    ensures var v := w.(g := CommitTo(w.g, r.plan, body, PubsOf(body.nodes)), rounds := w.rounds + [r]);
      v.g.pubs == Base(v.rounds)
  {
    assert StillUsable(h, w.g);
    HonestPubs(body, w.g.epoch + 1, h.plan, r.keys, r.secret);
  }

  lemma EmptiedKeeps(w: World, s: Step, v: World)
    requires WorldInv(w) && EmptiedByRemoval(w) && Next(w, s, v)
    ensures EmptiedByRemoval(v)
  {
    match s
    case AddStep(u) => EmptiedKept(w, v.g);
    case RemoveStep(u) => EmptiedKept(w, v.g);
    case AnchorStep(i, sent) => EmptiedKept(w, v.g);
    case ConfirmStep(i) => EmptiedByConfirm(w, i, v.g);
    case PlanStep(user, periodic, h) => EmptiedSame(w, v);
    case CommitStep(h, user, periodic, r, body) => EmptiedByCommit(w, h, user, periodic, r, body);
  }

  lemma EmptiedSame(w: World, v: World)
    requires EmptiedByRemoval(w) && v == w.(handed := v.handed)
    ensures EmptiedByRemoval(v)
  {
    forall l: nat | LeafNode(l) in Base(v.rounds) && LeafNode(l) !in v.g.pubs ensures RemovalRequested(v.g, l) {
      assert RemovalRequested(w.g, l);
    }
  }

  lemma FreeIsNotRemoved(g: Group, l: nat)
    requires !HasUnfinishedEvent(g.events, l)
    ensures !RemovalRequested(g, l)
  {
  }

  // The leaf given to a new member was not its leaf in the last tree.
  lemma NewSeatIsNew(w: World, u: nat)
    requires WorldInv(w) && EmptiedByRemoval(w) && w.rounds != []
    ensures !Seated(u, FreeLeaf(w.g, 0), w.rounds[|w.rounds| - 1].st.pubs)
  {
    var l, last := FreeLeaf(w.g, 0), |w.rounds|;
    FreeLeafIsFree(w.g);
    FreeIsNotRemoved(w.g, l);
    LeavesAfter(w.rounds, last, l);
  }

  // ------------------------------------------------------------------ what clients keep

  // From commit i on the user has sat on the leaf, up to the last commit made.
  ghost predicate SeatLasts(rounds: seq<Round>, u: nat, l: nat, i: nat)
  {
    i < |rounds| && forall j :: i <= j < |rounds| ==> Seated(u, l, rounds[j].st.pubs)
  }

  // After commit i the client held all keys above the leaf, and had stored the secret.
  ghost predicate GotCommit(rounds: seq<Round>, u: nat, told: seq<Option<nat>>, l: nat, i: nat)
    requires i < |rounds| && i < |told|
  {
    var tree := ClientAfter(rounds, u, told, i + 1);
    Holds(tree.privs, rounds[i].After(), l) && i + 1 in tree.epochs && tree.epochs[i + 1] == rounds[i].secret
  }

  // Every commit of the present seat that the client has processed, it got.
  ghost predicate InTime(rounds: seq<Round>, u: nat, told: seq<Option<nat>>, l: nat)
    requires |told| <= |rounds|
  {
    forall i: nat {:trigger SeatLasts(rounds, u, l, i)} ::
      i < |told| && SeatLasts(rounds, u, l, i) ==> GotCommit(rounds, u, told, l, i)
  }

  ghost predicate ClientOk(x: System, u: nat)
  {
    var c := ClientOf(x, u);
    |c.told| <= |x.w.rounds| && c.tree == ClientAfter(x.w.rounds, u, c.told, |c.told|) &&
    (u in x.w.g.active ==> Tracks(x.w.rounds, u, x.w.g.active[u], c, |c.told|))
  }

  ghost predicate FetchInv(x: System)
  {
    WorldInv(x.w) && EmptiedByRemoval(x.w) && forall u {:trigger ClientOk(x, u)} :: ClientOk(x, u)
  }

  lemma {:induction false} ClientAfterPrefix(
    rounds: seq<Round>, more: seq<Round>, u: nat, told: seq<Option<nat>>, longer: seq<Option<nat>>, q: nat)
    requires q <= |rounds| <= |more| && q <= |told| <= |longer| && rounds == more[..|rounds|] && told == longer[..|told|]
    ensures ClientAfter(more, u, longer, q) == ClientAfter(rounds, u, told, q)
  {
    if q > 0 {
      ClientAfterPrefix(rounds, more, u, told, longer, q - 1);
    }
  }

  lemma EpochOf(rounds: seq<Round>, i: nat)
    requires RoundsOk(rounds) && i < |rounds|
    ensures rounds[i].commit.epoch == i + 1
  {
    assert RoundOk(rounds, i);
  }

  lemma {:induction false} ProcessedIs(rounds: seq<Round>, u: nat, told: seq<Option<nat>>, q: nat)
    requires RoundsOk(rounds) && q <= |rounds| && q <= |told|
    ensures ClientAfter(rounds, u, told, q).processed == q
  {
    if q > 0 {
      ProcessedIs(rounds, u, told, q - 1);
      EpochOf(rounds, q - 1);
    }
  }

  lemma SeatLastsBefore(rounds: seq<Round>, more: seq<Round>, u: nat, l: nat, i: nat)
    requires i < |rounds| <= |more| && rounds == more[..|rounds|] && SeatLasts(more, u, l, i)
    ensures SeatLasts(rounds, u, l, i)
  {
  }

  lemma GotStays(
    rounds: seq<Round>, more: seq<Round>, u: nat, told: seq<Option<nat>>, longer: seq<Option<nat>>, l: nat, i: nat)
    requires i < |rounds| <= |more| && i < |told| <= |longer| && rounds == more[..|rounds|] && told == longer[..|told|]
    requires GotCommit(rounds, u, told, l, i)
    ensures GotCommit(more, u, longer, l, i)
  {
    ClientAfterPrefix(rounds, more, u, told, longer, i + 1);
  }

  // A further commit leaves what the client got of the present seat.
  lemma InTimeAfterCommit(rounds: seq<Round>, r: Round, u: nat, told: seq<Option<nat>>, l: nat)
    requires |told| <= |rounds| && InTime(rounds, u, told, l)
    ensures InTime(rounds + [r], u, told, l)
  {
    var more := rounds + [r];
    forall i: nat | i < |told| && SeatLasts(more, u, l, i) ensures GotCommit(more, u, told, l, i) {
      SeatLastsBefore(rounds, more, u, l, i);
      GotStays(rounds, more, u, told, told, l, i);
    }
  }

  // Processing a commit of the present seat, told its leaf.
  lemma GetsCommit(rounds: seq<Round>, u: nat, told: seq<Option<nat>>, l: nat, q: nat)
    requires RoundsOk(rounds) && 0 < q <= |rounds| && q <= |told| && told[q - 1] == Some(l)
    requires Seated(u, l, rounds[q - 1].st.pubs)
    requires q > 1 && Seated(u, l, rounds[q - 2].st.pubs) ==> Holds(ClientAfter(rounds, u, told, q - 1).privs, rounds[q - 2].After(), l)
    ensures GotCommit(rounds, u, told, l, q - 1)
  {
    assert ToldBy(told, l, q);
    if Seated(u, l, rounds[q - 1].base) {
      SeatBefore(rounds, u, q, l);
      EnteringHolds(rounds, u, told, q, l);
    }
    MemberStep(rounds, u, told, q, l);
    EpochsStep(rounds, u, told, q);
  }

  lemma GetsNext(rounds: seq<Round>, u: nat, told: seq<Option<nat>>, longer: seq<Option<nat>>, l: nat)
    requires RoundsOk(rounds) && |told| < |rounds| && longer == told + [Some(l)]
    requires InTime(rounds, u, told, l) && SeatLasts(rounds, u, l, |told|)
    ensures GotCommit(rounds, u, longer, l, |told|)
  {
    if |told| > 0 && Seated(u, l, rounds[|told| - 1].st.pubs) {
      HeldBefore(rounds, u, told, longer, l);
    }
    GetsCommit(rounds, u, longer, l, |told| + 1);
  }

  lemma HeldBefore(rounds: seq<Round>, u: nat, told: seq<Option<nat>>, longer: seq<Option<nat>>, l: nat)
    requires 0 < |told| < |rounds| && longer == told + [Some(l)]
    requires InTime(rounds, u, told, l) && SeatLasts(rounds, u, l, |told|) && Seated(u, l, rounds[|told| - 1].st.pubs)
    ensures Holds(ClientAfter(rounds, u, longer, |told|).privs, rounds[|told| - 1].After(), l)
  {
    assert SeatLasts(rounds, u, l, |told| - 1);
    ClientAfterPrefix(rounds, rounds, u, told, longer, |told|);
  }

  lemma InTimeAfterFetch(rounds: seq<Round>, u: nat, told: seq<Option<nat>>, l: nat)
    requires RoundsOk(rounds) && |told| < |rounds| && InTime(rounds, u, told, l)
    ensures InTime(rounds, u, told + [Some(l)], l)
  {
    var longer := told + [Some(l)];
    assert longer[..|told|] == told;
    forall i: nat | i < |longer| && SeatLasts(rounds, u, l, i) ensures GotCommit(rounds, u, longer, l, i) {
      if i < |told| {
        GotStays(rounds, rounds, u, told, longer, l, i);
      } else {
        GetsNext(rounds, u, told, longer, l);
      }
    }
  }

  // The client after its first p commits, sitting on a leaf.
  ghost predicate Tracks(rounds: seq<Round>, u: nat, l: nat, c: Client, p: nat)
  {
    |c.told| == p <= |rounds| && c.tree == ClientAfter(rounds, u, c.told, p) && InTime(rounds, u, c.told, l)
  }

  lemma NextClient(rounds: seq<Round>, u: nat, told: seq<Option<nat>>, l: nat)
    requires |told| < |rounds|
    ensures var p, longer := |told|, told + [Some(l)];
      ClientAfter(rounds, u, longer, p + 1) == Processed(ClientAfter(rounds, u, told, p), rounds[p].commit, Some(l), IdentityKey(u))
  {
    ClientAfterPrefix(rounds, rounds, u, told, told + [Some(l)], |told|);
  }

  lemma TracksNext(rounds: seq<Round>, u: nat, l: nat, c: Client, p: nat)
    requires RoundsOk(rounds) && p < |rounds| && Tracks(rounds, u, l, c, p)
    ensures Tracks(rounds, u, l, OneMore(c, u, rounds[p].commit, Some(l)), p + 1)
  {
    NextClient(rounds, u, c.told, l);
    InTimeAfterFetch(rounds, u, c.told, l);
  }

  // ------------------------------------------------------------------ every move keeps it

  lemma ClientOkSame(x: System, y: System, u: nat)
    requires ClientOk(x, u) && ClientOf(y, u) == ClientOf(x, u) && y.w.rounds == x.w.rounds
    requires u in y.w.g.active ==> u in x.w.g.active && y.w.g.active[u] == x.w.g.active[u]
    ensures ClientOk(y, u)
  {
  }

  lemma ClientOkAfterCommit(x: System, y: System, r: Round, u: nat)
    requires ClientOk(x, u) && y.clients == x.clients && y.w.rounds == x.w.rounds + [r] && y.w.g.active == x.w.g.active
    ensures ClientOk(y, u)
  {
    var c := ClientOf(x, u);
    assert x.w.rounds == y.w.rounds[..|x.w.rounds|];
    ClientAfterPrefix(x.w.rounds, y.w.rounds, u, c.told, c.told, |c.told|);
    if u in x.w.g.active {
      InTimeAfterCommit(x.w.rounds, r, u, c.told, x.w.g.active[u]);
    }
  }

  lemma NotSeatedNow(rounds: seq<Round>, u: nat, l: nat)
    requires rounds != [] && !Seated(u, l, rounds[|rounds| - 1].st.pubs)
    ensures forall i: nat :: !SeatLasts(rounds, u, l, i)
  {
  }

  lemma ClientOkAfterAdd(x: System, y: System, u: nat)
    requires WorldInv(x.w) && EmptiedByRemoval(x.w) && ClientOk(x, u)
    requires y == x.(w := x.w.(g := AddMember(x.w.g, u)))
    ensures ClientOk(y, u)
  {
    var l, rounds, c := FreeLeaf(x.w.g, 0), x.w.rounds, ClientOf(x, u);
    if rounds != [] {
      NewSeatIsNew(x.w, u);
      NotSeatedNow(rounds, u, l);
    }
  }

  lemma ServerKeepsClient(x: System, s: Step, y: System, u: nat)
    requires WorldInv(x.w) && EmptiedByRemoval(x.w) && ClientOk(x, u) && Next(x.w, s, y.w) && y.clients == x.clients
    ensures ClientOk(y, u)
  {
    match s
    case AddStep(v) =>
      if v == u {
        ClientOkAfterAdd(x, y, u);
      } else {
        ClientOkSame(x, y, u);
      }
    case CommitStep(h, user, periodic, r, body) => ClientOkAfterCommit(x, y, r, u);
    case _ => ClientOkSame(x, y, u);
  }

  ghost function TrackFrom(rounds: seq<Round>, u: nat, l: nat, p: nat): (Client, nat) -> bool
  {
    (d: Client, i: nat) => Tracks(rounds, u, l, d, p + i)
  }

  lemma FromTracks(rounds: seq<Round>, u: nat, l: nat, p: nat, c: Client, n: nat)
    requires TrackFrom(rounds, u, l, p)(c, n)
    ensures Tracks(rounds, u, l, c, |c.told|)
  {
    assert Tracks(rounds, u, l, c, p + n);
  }

  lemma TracksOn(rounds: seq<Round>, u: nat, l: nat, p: nat, d: Client, i: nat, commit: Commit)
    requires RoundsOk(rounds) && p + i < |rounds| && TrackFrom(rounds, u, l, p)(d, i) && commit == rounds[p + i].commit
    ensures TrackFrom(rounds, u, l, p)(OneMore(d, u, commit, Some(l)), i + 1)
  {
    TracksNext(rounds, u, l, d, p + i);
  }

  ghost predicate Stored(rounds: seq<Round>, commits: seq<Commit>)
  {
    |commits| == |rounds| && forall i :: 0 <= i < |rounds| ==> commits[i] == rounds[i].commit
  }

  ghost predicate Steps(keeps: (Client, nat) -> bool, u: nat, commits: seq<Commit>, p: nat, leaf: Option<nat>)
  {
    forall d: Client, i: nat :: p + i < |commits| && keeps(d, i) ==> keeps(OneMore(d, u, commits[p + i], leaf), i + 1)
  }

  lemma SliceKeeps(c: Client, u: nat, commits: seq<Commit>, p: nat, n: nat, leaf: Option<nat>, keeps: (Client, nat) -> bool)
    requires p + n <= |commits| && keeps(c, 0) && Steps(keeps, u, commits, p, leaf)
    ensures keeps(Caught(c, u, commits[p..p + n], leaf), n)
  {
    CaughtKeeps(c, u, commits[p..p + n], leaf, keeps);
  }

  lemma FetchedIs(x: System, n: nat, y: System, u: nat, p: nat)
    requires Fetches(x, u, n, y) && ClientOf(x, u).tree.processed == p
    ensures y.w == x.w && p + n <= |x.w.g.commits|
    ensures ClientOf(y, u) == Caught(ClientOf(x, u), u, x.w.g.commits[p..p + n], Some(x.w.g.active[u]))
  {
  }

  // What every processed commit keeps, a fetch keeps.
  lemma FetchKeeps(x: System, n: nat, y: System, u: nat, p: nat, keeps: (Client, nat) -> bool)
    requires Fetches(x, u, n, y) && ClientOf(x, u).tree.processed == p && keeps(ClientOf(x, u), 0)
    requires Steps(keeps, u, x.w.g.commits, p, Some(x.w.g.active[u]))
    ensures u in y.w.g.active && y.w == x.w && keeps(ClientOf(y, u), n)
  {
    FetchedIs(x, n, y, u, p);
    SliceKeeps(ClientOf(x, u), u, x.w.g.commits, p, n, Some(x.w.g.active[u]), keeps);
  }

  lemma TracksSteps(rounds: seq<Round>, commits: seq<Commit>, u: nat, l: nat, p: nat)
    requires RoundsOk(rounds) && Stored(rounds, commits)
    ensures Steps(TrackFrom(rounds, u, l, p), u, commits, p, Some(l))
  {
    var keeps := TrackFrom(rounds, u, l, p);
    forall d: Client, i: nat | p + i < |commits| && keeps(d, i) ensures keeps(OneMore(d, u, commits[p + i], Some(l)), i + 1) {
      TracksOn(rounds, u, l, p, d, i, commits[p + i]);
    }
  }

  lemma OkTracks(x: System, u: nat)
    requires RoundsOk(x.w.rounds) && ClientOk(x, u) && u in x.w.g.active
    ensures ClientOf(x, u).tree.processed == |ClientOf(x, u).told|
    ensures Tracks(x.w.rounds, u, x.w.g.active[u], ClientOf(x, u), |ClientOf(x, u).told|)
    ensures TrackFrom(x.w.rounds, u, x.w.g.active[u], |ClientOf(x, u).told|)(ClientOf(x, u), 0)
  {
    ProcessedIs(x.w.rounds, u, ClientOf(x, u).told, |ClientOf(x, u).told|);
  }

  lemma TracksOk(x: System, u: nat, p: nat, n: nat)
    requires u in x.w.g.active && TrackFrom(x.w.rounds, u, x.w.g.active[u], p)(ClientOf(x, u), n)
    ensures ClientOk(x, u)
  {
    FromTracks(x.w.rounds, u, x.w.g.active[u], p, ClientOf(x, u), n);
  }

  lemma FetchKeepsClient(x: System, v: nat, n: nat, y: System, u: nat)
    requires RoundsOk(x.w.rounds) && Stored(x.w.rounds, x.w.g.commits) && ClientOk(x, u) && Fetches(x, v, n, y)
    ensures ClientOk(y, u)
  {
    if v == u {
      OkTracks(x, u);
      var p, l := |ClientOf(x, u).told|, x.w.g.active[u];
      TracksSteps(x.w.rounds, x.w.g.commits, u, l, p);
      FetchKeeps(x, n, y, u, p, TrackFrom(x.w.rounds, u, l, p));
      TracksOk(y, u, p, n);
    } else {
      ClientOkSame(x, y, u);
    }
  }

  lemma MoveKeeps(x: System, m: Move, y: System)
    requires FetchInv(x) && Moves(x, m, y)
    ensures FetchInv(y)
  {
    match m {
      case Server(s) =>
        StepKeeps(x.w, s, y.w);
        EmptiedKeeps(x.w, s, y.w);
        forall u ensures ClientOk(y, u) {
          assert ClientOk(x, u);
          ServerKeepsClient(x, s, y, u);
        }
      case Fetch(v, n) =>
        forall u ensures ClientOk(y, u) {
          assert ClientOk(x, u);
          FetchKeepsClient(x, v, n, y, u);
        }
    }
  }

  lemma {:induction false} FetchRunInv(xs: seq<System>, moves: seq<Move>, i: nat)
    requires IsFetchRun(xs, moves) && i < |xs|
    ensures FetchInv(xs[i])
  {
    if i == 0 {
      StartInv(xs[0].w);
    } else {
      FetchRunInv(xs, moves, i - 1);
      MoveKeeps(xs[i - 1], moves[i - 1], xs[i]);
    }
  }

  // ------------------------------------------------------------------ what members have

  lemma TrackedHolds(rounds: seq<Round>, u: nat, l: nat, c: Client, e: nat)
    requires Tracks(rounds, u, l, c, |c.told|) && c.tree.processed == |c.told|
    requires 0 < e <= |c.told| && SeatLasts(rounds, u, l, e - 1)
    ensures Holds(c.tree.privs, rounds[c.tree.processed - 1].After(), l)
  {
    assert SeatLasts(rounds, u, l, |c.told| - 1);
  }

  lemma TrackedStored(rounds: seq<Round>, u: nat, l: nat, c: Client, e: nat)
    requires RoundsOk(rounds) && Tracks(rounds, u, l, c, |c.told|)
    requires 0 < e <= |c.told| && SeatLasts(rounds, u, l, e - 1)
    ensures e in c.tree.epochs && c.tree.epochs[e] == rounds[e - 1].secret
  {
    assert GotCommit(rounds, u, c.told, l, e - 1);
    EpochIsFinal(rounds, u, c.told, e, |c.told|);
  }

  // In every reachable state, for every active member: of all commits of its present seat that its
  // client has fetched it has the secret, and after the last one it holds all keys above its leaf.
  lemma MembersHaveTheirKeys(xs: seq<System>, moves: seq<Move>, i: nat, u: nat, e: nat)
    requires IsFetchRun(xs, moves) && i < |xs| && u in xs[i].w.g.active
    requires var c := ClientOf(xs[i], u);
      0 < e <= c.tree.processed && SeatLasts(xs[i].w.rounds, u, xs[i].w.g.active[u], e - 1)
    ensures var c := ClientOf(xs[i], u);
      e <= c.tree.processed <= |xs[i].w.rounds| && e in c.tree.epochs && c.tree.epochs[e] == xs[i].w.rounds[e - 1].secret &&
      Holds(c.tree.privs, xs[i].w.rounds[c.tree.processed - 1].After(), xs[i].w.g.active[u])
  {
    FetchRunInv(xs, moves, i);
    OkTracks(xs[i], u);
    TrackedHolds(xs[i].w.rounds, u, xs[i].w.g.active[u], ClientOf(xs[i], u), e);
    TrackedStored(xs[i].w.rounds, u, xs[i].w.g.active[u], ClientOf(xs[i], u), e);
  }

  // In particular after fetching everything: every member seated in the last tree holds its keys.
  lemma FetchedMembersHold(xs: seq<System>, moves: seq<Move>, i: nat, u: nat)
    requires IsFetchRun(xs, moves) && i < |xs| && u in xs[i].w.g.active
    requires ClientOf(xs[i], u).tree.processed == |xs[i].w.rounds| > 0
    requires Seated(u, xs[i].w.g.active[u], xs[i].w.rounds[|xs[i].w.rounds| - 1].st.pubs)
    ensures Holds(ClientOf(xs[i], u).tree.privs, Base(xs[i].w.rounds), xs[i].w.g.active[u])
    ensures |xs[i].w.rounds| in ClientOf(xs[i], u).tree.epochs
    ensures ClientOf(xs[i], u).tree.epochs[|xs[i].w.rounds|] == xs[i].w.rounds[|xs[i].w.rounds| - 1].secret
  {
    assert SeatLasts(xs[i].w.rounds, u, xs[i].w.g.active[u], |xs[i].w.rounds| - 1);
    MembersHaveTheirKeys(xs, moves, i, u, |xs[i].w.rounds|);
  }

  // And for every user, member or not, the secrets it has are exactly those of the commits after
  // which it had a foothold.
  lemma SecretsOfRuns(xs: seq<System>, moves: seq<Move>, i: nat, u: nat, e: nat)
    requires IsFetchRun(xs, moves) && i < |xs| && FreshKeys(xs[i].w.rounds)
    requires 0 < e <= ClientOf(xs[i], u).tree.processed
    ensures e <= |ClientOf(xs[i], u).told| <= |xs[i].w.rounds|
    ensures e in ClientOf(xs[i], u).tree.epochs <==> HasFoothold(xs[i].w.rounds, u, ClientOf(xs[i], u).told, e)
    ensures e in ClientOf(xs[i], u).tree.epochs ==> ClientOf(xs[i], u).tree.epochs[e] == xs[i].w.rounds[e - 1].secret
  {
    FetchRunInv(xs, moves, i);
    assert ClientOk(xs[i], u);
    var rounds, told := xs[i].w.rounds, ClientOf(xs[i], u).told;
    ProcessedIs(rounds, u, told, |told|);
    EpochIffHadFoothold(rounds, u, told, e, |told|);
  }

  // ------------------------------------------------------------------ what was told when

  lemma {:induction false} CaughtTold(c: Client, u: nat, commits: seq<Commit>, leaf: Option<nat>, j: nat)
    ensures |Caught(c, u, commits, leaf).told| == |c.told| + |commits|
    ensures j < |c.told| ==> Caught(c, u, commits, leaf).told[j] == c.told[j]
    ensures |c.told| <= j < |c.told| + |commits| ==> Caught(c, u, commits, leaf).told[j] == leaf
    decreases |commits|
  {
    if commits != [] {
      CaughtTold(c, u, commits[..|commits| - 1], leaf, j);
    }
  }

  // Commit j was fetched by move i, while the leaf was recorded for the user.
  ghost predicate ToldAt(xs: seq<System>, moves: seq<Move>, i: nat, u: nat, j: nat, leaf: Option<nat>)
  {
    i < |moves| < |xs| && moves[i].Fetch? && moves[i].u == u && u in xs[i].w.g.active && leaf == Some(xs[i].w.g.active[u]) &&
    |ClientOf(xs[i], u).told| <= j < |ClientOf(xs[i + 1], u).told|
  }

  lemma OnlyFetchesTell(x: System, m: Move, y: System, u: nat)
    requires Moves(x, m, y) && ClientOf(y, u) != ClientOf(x, u)
    ensures m.Fetch? && m.u == u && Fetches(x, u, m.n, y)
  {
  }

  lemma FetchTells(x: System, u: nat, n: nat, y: System, j: nat)
    requires Fetches(x, u, n, y) && j < |ClientOf(y, u).told|
    ensures ClientOf(y, u).told[j] == if j < |ClientOf(x, u).told| then ClientOf(x, u).told[j] else Some(x.w.g.active[u])
  {
    var c, commits := ClientOf(x, u), x.w.g.commits;
    CaughtTold(c, u, commits[c.tree.processed..c.tree.processed + n], Some(x.w.g.active[u]), j);
  }

  lemma ToldByMove(xs: seq<System>, moves: seq<Move>, i: nat, u: nat, j: nat)
    requires IsFetchRun(xs, moves) && i < |moves| && j < |ClientOf(xs[i + 1], u).told|
    ensures if j < |ClientOf(xs[i], u).told| then ClientOf(xs[i + 1], u).told[j] == ClientOf(xs[i], u).told[j]
            else ToldAt(xs, moves, i, u, j, ClientOf(xs[i + 1], u).told[j])
  {
    if ClientOf(xs[i + 1], u) != ClientOf(xs[i], u) {
      OnlyFetchesTell(xs[i], moves[i], xs[i + 1], u);
      FetchTells(xs[i], u, moves[i].n, xs[i + 1], j);
    }
  }

  // Every leaf that came with a commit was the recorded one when that commit was fetched.
  lemma {:induction false} ToldWhenFetched(xs: seq<System>, moves: seq<Move>, i: nat, u: nat, j: nat) returns (at: nat)
    requires IsFetchRun(xs, moves) && i < |xs| && j < |ClientOf(xs[i], u).told|
    ensures at < i && ToldAt(xs, moves, at, u, j, ClientOf(xs[i], u).told[j])
  {
    ToldByMove(xs, moves, i - 1, u, j);
    if j < |ClientOf(xs[i - 1], u).told| {
      at := ToldWhenFetched(xs, moves, i - 1, u, j);
    } else {
      at := i - 1;
    }
  }

  lemma {:induction false} ToldStaysTold(xs: seq<System>, moves: seq<Move>, a: nat, i: nat, u: nat, j: nat)
    requires IsFetchRun(xs, moves) && a <= i < |xs| && j < |ClientOf(xs[a], u).told|
    ensures j < |ClientOf(xs[i], u).told| && ClientOf(xs[i], u).told[j] == ClientOf(xs[a], u).told[j]
    decreases i
  {
    if a < i {
      ToldStaysTold(xs, moves, a, i - 1, u, j);
      ToldNoShorter(xs[i - 1], moves[i - 1], xs[i], u);
      ToldByMove(xs, moves, i - 1, u, j);
    }
  }

  lemma ToldNoShorter(x: System, m: Move, y: System, u: nat)
    requires Moves(x, m, y)
    ensures |ClientOf(x, u).told| <= |ClientOf(y, u).told|
  {
    if ClientOf(y, u) != ClientOf(x, u) {
      OnlyFetchesTell(x, m, y, u);
      var c, commits := ClientOf(x, u), x.w.g.commits;
      CaughtTold(c, u, commits[c.tree.processed..c.tree.processed + m.n], Some(x.w.g.active[u]), 0);
    }
  }

  // Commit j was fetched before move i while the group had the user on leaf l.
  ghost predicate FetchedFrom(xs: seq<System>, moves: seq<Move>, i: nat, u: nat, l: nat, j: nat)
  {
    exists a: nat :: a < i && ToldAt(xs, moves, a, u, j, Some(l))
  }

  lemma ToldIffFetchedFrom(xs: seq<System>, moves: seq<Move>, i: nat, u: nat, l: nat, j: nat)
    requires IsFetchRun(xs, moves) && i < |xs| && j < |ClientOf(xs[i], u).told|
    ensures ClientOf(xs[i], u).told[j] == Some(l) <==> FetchedFrom(xs, moves, i, u, l, j)
  {
    var at := ToldWhenFetched(xs, moves, i, u, j);
    if a: nat :| a < i && ToldAt(xs, moves, a, u, j, Some(l)) {
      assert Moves(xs[a], moves[a], xs[a + 1]);
      FetchTells(xs[a], u, moves[a].n, xs[a + 1], j);
      ToldStaysTold(xs, moves, a + 1, i, u, j);
    }
  }

  // By commit q, which renewed all keys above its leaf, the client had fetched a commit from that leaf.
  ghost predicate LearntBy(xs: seq<System>, moves: seq<Move>, i: nat, u: nat, l: nat, q: nat)
    requires i < |xs| && 0 < q <= |xs[i].w.rounds|
  {
    RenewsAbove(xs[i].w.rounds[q - 1], l) && exists j: nat :: j < q && FetchedFrom(xs, moves, i, u, l, j)
  }

  lemma LearntIff(xs: seq<System>, moves: seq<Move>, i: nat, u: nat, l: nat, q: nat)
    requires IsFetchRun(xs, moves) && i < |xs| && 0 < q <= |ClientOf(xs[i], u).told| && q <= |xs[i].w.rounds|
    ensures LearntBy(xs, moves, i, u, l, q) <==> RenewsAbove(xs[i].w.rounds[q - 1], l) && ToldBy(ClientOf(xs[i], u).told, l, q)
  {
    forall j: nat | j < q
      ensures ClientOf(xs[i], u).told[j] == Some(l) <==> FetchedFrom(xs, moves, i, u, l, j)
    {
      ToldIffFetchedFrom(xs, moves, i, u, l, j);
    }
  }

  // The exact condition, in every reachable state: a user whose only seat began with commit k has the
  // secret of commit e of that seat if and only if some commit from k to e renewed all keys above its
  // leaf, commit k itself does, and the user had by then fetched a commit while on that leaf.
  lemma SecretIffFetchedInSeat(xs: seq<System>, moves: seq<Move>, i: nat, u: nat, l: nat, k: nat, e: nat)
    requires IsFetchRun(xs, moves) && i < |xs| && FreshKeys(xs[i].w.rounds)
    requires OnlySeat(xs[i].w.rounds, u, l, k, e) && e <= ClientOf(xs[i], u).tree.processed
    ensures e in ClientOf(xs[i], u).tree.epochs <==> exists q: nat :: k <= q <= e && LearntBy(xs, moves, i, u, l, q)
  {
    FetchRunInv(xs, moves, i);
    assert ClientOk(xs[i], u);
    var rounds, told := xs[i].w.rounds, ClientOf(xs[i], u).told;
    ProcessedIs(rounds, u, told, |told|);
    SecretIffToldInSeat(rounds, u, told, l, k, e, |told|);
    forall q: nat | k <= q <= e
      ensures LearntBy(xs, moves, i, u, l, q) <==> SeatedSince(rounds, u, told, l, q, e)
    {
      LearntIff(xs, moves, i, u, l, q);
      SeatedFrom(rounds, u, l, k, q, e);
    }
    if q: nat :| SeatedSince(rounds, u, told, l, q, e) {
      assert Seated(u, l, rounds[q - 1].st.pubs);
    }
  }

  lemma SeatedFrom(rounds: seq<Round>, u: nat, l: nat, k: nat, q: nat, e: nat)
    requires OnlySeat(rounds, u, l, k, e) && k <= q <= e
    ensures forall j :: q - 1 <= j < e ==> Seated(u, l, rounds[j].st.pubs)
  {
  }

  // ------------------------------------------------------------------ removed and added again before the first fetch

  lemma NewLeafAfterRemoval(g: Group, u: nat)
    requires Inv(g) && u in g.active
    ensures FreeLeaf(RemoveMember(g, u), 0) != g.active[u]
  {
    var h := RemoveMember(g, u);
    RemoveMemberInv(g, u);
    FreeLeafIsFree(h);
    assert h.events[|g.events|].leaf == Some(g.active[u]);
  }

  // Told only another leaf, a client gains nothing from the seat it had.
  lemma WrongLeafGivesNothing(rounds: seq<Round>, u: nat, told: seq<Option<nat>>, l: nat, e: nat)
    requires RoundsOk(rounds) && FreshKeys(rounds) && |told| <= |rounds|
    requires Some(l) !in told
    requires forall i: nat, m: nat :: i < |rounds| && Seated(u, m, rounds[i].st.pubs) ==> m == l
    ensures e !in ClientAfter(rounds, u, told, |told|).epochs
  {
    if e == 0 {
      NoEpochZero(rounds, u, told, |told|);
    } else if e > |told| {
      EpochsSoFar(rounds, u, told, |told|, e);
    } else {
      EpochIffHadFoothold(rounds, u, told, e, |told|);
      forall m: nat ensures Foothold(rounds, u, told, m, e).None? {
        NeverToldInSeat(rounds, u, told, m, e);
      }
    }
  }

  lemma {:induction false} NoEpochZero(rounds: seq<Round>, u: nat, told: seq<Option<nat>>, q: nat)
    requires RoundsOk(rounds) && q <= |rounds| && q <= |told|
    ensures 0 !in ClientAfter(rounds, u, told, q).epochs
  {
    if q > 0 {
      EpochsStep(rounds, u, told, q);
      NoEpochZero(rounds, u, told, q - 1);
    }
  }

  lemma Rejoined(w: World, v: World, t: World, u: nat)
    requires Inv(w.g) && Next(w, RemoveStep(u), v) && Next(v, AddStep(u), t)
    ensures t.rounds == w.rounds && t.g.commits == w.g.commits
    ensures u in w.g.active && u in t.g.active && t.g.active[u] != w.g.active[u]
  {
    NewLeafAfterRemoval(w.g, u);
  }

  lemma FirstFetch(x: System, u: nat, n: nat, y: System, l: nat)
    requires ClientOf(x, u) == Client(NewClient, []) && Fetches(x, u, n, y) && x.w.g.active[u] != l
    ensures y.w == x.w && |ClientOf(y, u).told| == n
    ensures Some(l) !in ClientOf(y, u).told
  {
    CaughtTold(ClientOf(x, u), u, x.w.g.commits[0..n], Some(x.w.g.active[u]), 0);
    forall j | 0 <= j < |ClientOf(y, u).told| ensures ClientOf(y, u).told[j] != Some(l) {
      CaughtTold(ClientOf(x, u), u, x.w.g.commits[0..n], Some(x.w.g.active[u]), j);
    }
  }

  lemma ThreeMoves(xs: seq<System>, moves: seq<Move>, i: nat, u: nat)
    requires IsFetchRun(xs, moves) && i + 3 < |xs| && Inv(xs[i].w.g) && ClientOf(xs[i], u) == Client(NewClient, [])
    requires moves[i] == Server(RemoveStep(u)) && moves[i + 1] == Server(AddStep(u)) && moves[i + 2].Fetch? && moves[i + 2].u == u
    ensures u in xs[i].w.g.active && xs[i + 3].w.rounds == xs[i].w.rounds && |ClientOf(xs[i + 3], u).told| == moves[i + 2].n
    ensures Some(xs[i].w.g.active[u]) !in ClientOf(xs[i + 3], u).told
  {
    assert Moves(xs[i], moves[i], xs[i + 1]);
    assert Moves(xs[i + 1], moves[i + 1], xs[i + 2]);
    assert Moves(xs[i + 2], moves[i + 2], xs[i + 3]);
    Rejoined(xs[i].w, xs[i + 1].w, xs[i + 2].w, u);
    FirstFetch(xs[i + 2], u, moves[i + 2].n, xs[i + 3], xs[i].w.g.active[u]);
  }

  lemma OkWithout(x: System, u: nat, l: nat, e: nat)
    requires ClientOk(x, u) && RoundsOk(x.w.rounds) && FreshKeys(x.w.rounds)
    requires Some(l) !in ClientOf(x, u).told
    requires forall j: nat, m: nat :: j < |x.w.rounds| && Seated(u, m, x.w.rounds[j].st.pubs) ==> m == l
    ensures ClientOf(x, u).tree.processed == |ClientOf(x, u).told| && e !in ClientOf(x, u).tree.epochs
  {
    ProcessedIs(x.w.rounds, u, ClientOf(x, u).told, |ClientOf(x, u).told|);
    WrongLeafGivesNothing(x.w.rounds, u, ClientOf(x, u).told, l, e);
  }

  // A member that has sat on one leaf and never fetched, is removed, added again and only then
  // fetches everything, obtains no secret at all, those of its first seat included.
  lemma RejoinMisses(xs: seq<System>, moves: seq<Move>, i: nat, u: nat, e: nat)
    requires IsFetchRun(xs, moves) && i + 3 < |xs| && FreshKeys(xs[i].w.rounds)
    requires u in xs[i].w.g.active && ClientOf(xs[i], u) == Client(NewClient, [])
    requires forall j: nat, m: nat :: j < |xs[i].w.rounds| && Seated(u, m, xs[i].w.rounds[j].st.pubs) ==> m == xs[i].w.g.active[u]
    requires moves[i] == Server(RemoveStep(u)) && moves[i + 1] == Server(AddStep(u))
    requires moves[i + 2] == Fetch(u, |xs[i].w.rounds|)
    ensures ClientOf(xs[i + 3], u).tree.processed == |xs[i + 3].w.rounds| == |xs[i].w.rounds|
    ensures e !in ClientOf(xs[i + 3], u).tree.epochs
  {
    FetchRunInv(xs, moves, i);
    FetchRunInv(xs, moves, i + 3);
    ThreeMoves(xs, moves, i, u);
    assert ClientOk(xs[i + 3], u);
    OkWithout(xs[i + 3], u, xs[i].w.g.active[u], e);
  }
}
