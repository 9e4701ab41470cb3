// Three commits in a tree of eight leaves: a removed member opens a commit that blanks nothing and in
// which it has no seat.  The commits are not written out: every tree has a plan, every plan of a drifted
// tree with members has a commit, and only the nodes 7, 11 and 13 above the leaf of that member matter.
module FootholdExample {
  import opened Bits
  import opened NodeArithmetic
  import opened KeyTree
  import opened PlanProperties
  import opened GroupCommit
  import opened CommitLearning
  import opened KeyDelivery
  import opened Footholds
  import opened GroupRuns
  import opened MemberRuns

  // ------------------------------------------------------------------ the commit of an honest client

  ghost function NodeOf(n: nat, plan: CommitPlan, keys: map<nat, Key>): CommitNode
    requires Sealable(plan) && keys.Keys == Elements(plan.path) && n in plan.path
  {
    var targets := plan.targets[n];
    CommitNode(n, keys[n], seq(|targets|, j requires 0 <= j < |targets| =>
      NodeCiphertext(targets[j], Sealed(PubOf(targets[j], plan, keys), keys[n]))))
  }

  ghost function CommitOf(epoch: nat, plan: CommitPlan, keys: map<nat, Key>, secret: nat): Commit
    requires Sealable(plan) && keys.Keys == Elements(plan.path)
  {
    Commit(epoch, seq(|plan.path|, i requires 0 <= i < |plan.path| => NodeOf(plan.path[i], plan, keys)),
           plan.blanks, plan.root, Sealed(PubOf(plan.root, plan, keys), secret))
  }

  ghost function RoundOf(
    base: map<nat, Key>, st: TreeState, leaves: seq<nat>, full: bool, plan: CommitPlan, keys: map<nat, Key>, epoch: nat): Round
    requires Sealable(plan) && keys.Keys == Elements(plan.path)
  {
    Round(base, st, leaves, full, plan, keys, epoch, CommitOf(epoch, plan, keys, epoch))
  }

  ghost predicate Plannable(base: map<nat, Key>, st: TreeState, leaves: seq<nat>, full: bool)
  {
    Settled(base) && DriftedFrom(base, st, leaves, full) && (full || leaves != []) &&
    (forall l :: l in leaves ==> l < st.capacity) && exists l: nat :: IsOccupied(l, st.pubs)
  }

  lemma NodeDelivers(r: Round, i: nat)
    requires IsPlan(r.st, r.leaves, r.full, r.plan) && Sealable(r.plan) && r.keys.Keys == Elements(r.plan.path)
    requires r.commit == CommitOf(r.commit.epoch, r.plan, r.keys, r.secret) && i < |r.plan.path|
    ensures r.Sent().Delivers(i)
  {
    var n := r.plan.path[i];
    var node, targets := NodeOf(n, r.plan, r.keys), r.plan.targets[n];
    assert n in r.keys.Keys;
    forall t | t in targets ensures exists c :: c in node.ciphertexts && c.target == t {
      var j :| 0 <= j < |targets| && targets[j] == t;
      assert node.ciphertexts[j] in node.ciphertexts;
    }
    forall c | c in node.ciphertexts
      ensures c.target in targets && r.Sent().KeyAt(c.target) == Some(c.box.to) && c.box.content == r.keys[n]
    {
      var j :| 0 <= j < |targets| && c == node.ciphertexts[j];
      assert c.target == targets[j] && targets[j] in targets && HasKey(c.target, r.plan);
    }
  }

  lemma DeliversAll(r: Round)
    requires IsPlan(r.st, r.leaves, r.full, r.plan) && Sealable(r.plan) && r.keys.Keys == Elements(r.plan.path)
    requires r.commit == CommitOf(r.commit.epoch, r.plan, r.keys, r.secret)
    ensures r.Sent().Valid()
  {
    forall i | 0 <= i < |r.plan.path| ensures r.Sent().Delivers(i) {
      NodeDelivers(r, i);
    }
    assert forall i, j :: 0 <= i < j < |r.plan.path| ==> Before(r.plan.path[i], r.plan.path[j]);
  }

  // Such a commit can be made for every plan.
  lemma RoundIsValid(
    base: map<nat, Key>, st: TreeState, leaves: seq<nat>, full: bool, plan: CommitPlan, keys: map<nat, Key>, epoch: nat)
    requires Plannable(base, st, leaves, full) && IsPlan(st, leaves, full, plan) && keys.Keys == Elements(plan.path)
    ensures Sealable(plan) && RoundOf(base, st, leaves, full, plan, keys, epoch).Valid()
  {
    PlanIsSealable(st, leaves, full, plan);
    DeliversAll(RoundOf(base, st, leaves, full, plan, keys, epoch));
  }

  // ------------------------------------------------------------------ every tree has a plan

  lemma {:induction false} Sorted(s: set<nat>) returns (r: seq<nat>)
    ensures Ascending(r) && forall x :: x in r <==> x in s
  {
    if s == {} {
      r := [];
    } else {
      var x := LeastExists(s);
      var rest := Sorted(s - {x});
      r := [x] + rest;
      forall i, j | 0 <= i < j < |r| ensures Before(r[i], r[j]) {
        assert i == 0 ==> rest[j - 1] in s;
      }
    }
  }

  lemma PlanExists(st: TreeState, leaves: seq<nat>, full: bool) returns (plan: CommitPlan)
    requires InCapacity(st) && st.capacity > 0
    ensures IsPlan(st, leaves, full, plan)
  {
    var inner := set x: nat | x < 2 * st.capacity && Candidate(x, st.capacity, leaves, full);
    var path := Sorted(set x | x in inner && HasMember(x, st.pubs));
    var blanks := Sorted(set x | x in inner && !HasMember(x, st.pubs));
    var targets := map x | x in Elements(path) && Level(x) > 0 :: ChildResolutions(x, st.pubs, Elements(path));
    plan := CommitPlan(st.capacity, Root(st.capacity), path, blanks, targets, st.pubs - Elements(path));
    assert targets.Keys == Elements(path);
    forall x, t | x in targets && t in targets[x] && t !in path ensures t in plan.knownPubs {
      TargetsHaveKeys(x, st.pubs, Elements(path));
    }
  }

  ghost function NewKeysFor(plan: CommitPlan, epoch: nat): map<nat, Key>
  {
    map x | x in Elements(plan.path) :: NodeKey(16 * epoch + x)
  }

  ghost predicate KeysNumbered(keys: map<nat, Key>, epoch: nat)
  {
    forall n :: n in keys ==> keys[n] == NodeKey(16 * epoch + n) && n < 16
  }

  lemma KeyNumbers(st: TreeState, leaves: seq<nat>, full: bool, plan: CommitPlan, epoch: nat)
    requires IsPlan(st, leaves, full, plan) && st.capacity == 8
    ensures KeysNumbered(NewKeysFor(plan, epoch), epoch)
  {
    forall n | n in plan.path ensures n < 16 {
      assert Candidate(n, st.capacity, leaves, full);
    }
  }

  // A commit of any tree with members, its keys numbered after the epoch.
  lemma RoundExists(base: map<nat, Key>, st: TreeState, leaves: seq<nat>, full: bool, epoch: nat) returns (r: Round)
    requires Plannable(base, st, leaves, full) && st.capacity == 8
    ensures r.Valid() && r.base == base && r.st == st && r.leaves == leaves && r.full == full
    ensures r.commit.epoch == epoch && KeysNumbered(r.keys, epoch)
  {
    var plan := PlanExists(st, leaves, full);
    RoundIsValid(base, st, leaves, full, plan, NewKeysFor(plan, epoch), epoch);
    r := RoundOf(base, st, leaves, full, plan, NewKeysFor(plan, epoch), epoch);
    KeyNumbers(st, leaves, full, plan, epoch);
  }

  lemma RunWith(rounds: seq<Round>, r: Round)
    requires RoundsOk(rounds) && r.Valid() && r.base == Base(rounds) && LeavesAreIdentities(r.st.pubs)
    requires r.commit.epoch == |rounds| + 1
    ensures RoundsOk(rounds + [r])
  {
    var more := rounds + [r];
    forall i | 0 <= i < |more| ensures RoundOk(more, i) {
      if i < |rounds| {
        assert RoundOk(rounds, i) && more[..i] == rounds[..i];
      } else {
        assert more[..i] == rounds;
      }
    }
  }

  // ------------------------------------------------------------------ a tree of eight leaves

  lemma EightLeaves()
    ensures IsCapacity(8) && Depth(8) == 3
    ensures Ancestor(7, 1) == 13 && Ancestor(7, 2) == 11 && Ancestor(7, 3) == 7
    ensures Level(13) == 1 && Level(11) == 2 && InTree(13, 8) && InTree(11, 8)
  {
    assert Pow2(3) == 8;
    assert Shr(7, 1) == 3;
    assert Shr(7, 2) == 1;
    assert Shr(7, 3) == 0;
  }

  lemma EightUnder(l: nat)
    ensures (Under(l, 13) <==> 6 <= l < 8) && (Under(l, 11) <==> 4 <= l < 8)
  {
    assert Level(13) == 1 && Pos(13) == 3;
    assert Level(5) == 1 && Pos(5) == 1;
    assert Level(11) == 2 && Pos(11) == 1;
    assert Shr(l, 1) == l / 2;
    assert Shr(l, 2) == Shr(l, 1) / 2;
  }

  // The occupied leaves are those with the numbers of the users.
  ghost predicate Users(pubs: map<nat, Key>, users: set<nat>)
  {
    (forall x :: x in pubs ==> InTree(x, 8)) &&
    forall l: nat :: (IsOccupied(l, pubs) <==> l in users) && (l in users ==> Seated(l, l, pubs))
  }

  lemma UsersAfter(r: Round, users: set<nat>)
    requires r.Valid() && r.st.capacity == 8 && Users(r.st.pubs, users)
    ensures Users(r.After(), users)
  {
    NextIsSettled(r);
    forall l: nat ensures SameAt(LeafNode(l), r.st.pubs, r.After()) {
    }
    forall x | x in r.After() ensures InTree(x, 8) {
      if x in r.plan.path {
        PathInTree(r, x);
      }
    }
  }

  // A run goes on with such a commit.
  lemma RunGrows(rounds: seq<Round>, st: TreeState, leaves: seq<nat>, full: bool, users: set<nat>)
    returns (more: seq<Round>, r: Round)
    requires RoundsOk(rounds) && Plannable(Base(rounds), st, leaves, full)
    requires st.capacity == 8 && Users(st.pubs, users)
    ensures more == rounds + [r] && RoundsOk(more) && KeysNumbered(r.keys, |rounds| + 1)
    ensures r.base == Base(rounds) && r.st == st && r.leaves == leaves && r.full == full
    ensures Base(more) == r.After() && Users(r.After(), users)
  {
    r := RoundExists(Base(rounds), st, leaves, full, |rounds| + 1);
    UsersAfter(r, users);
    UsersAreIdentities(st.pubs, users);
    RunWith(rounds, r);
    more := rounds + [r];
  }

  lemma UsersAreIdentities(pubs: map<nat, Key>, users: set<nat>)
    requires Users(pubs, users)
    ensures LeavesAreIdentities(pubs)
  {
  }

  lemma BaseIsSettled(rounds: seq<Round>)
    requires RoundsOk(rounds) && rounds != []
    ensures Settled(Base(rounds))
  {
    LastIsValid(rounds, rounds[|rounds| - 1]);
    NextIsSettled(rounds[|rounds| - 1]);
  }

  lemma LastIsValid(rounds: seq<Round>, r: Round)
    requires RoundsOk(rounds) && rounds != [] && rounds[|rounds| - 1] == r
    ensures r.Valid()
  {
    assert RoundOk(rounds, |rounds| - 1);
  }

  // Leaves 0, 4 and 7 are occupied, and leaf 6 beside leaf 7 is not.
  ghost predicate Chosen(users: set<nat>)
  {
    0 in users && 4 in users && 7 in users && 6 !in users && forall l :: l in users ==> l < 8
  }

  lemma FirstTree(users: set<nat>) returns (st: TreeState)
    requires Chosen(users)
    ensures st.capacity == 8 && Users(st.pubs, users) && Plannable(map[], st, [], true)
  {
    EightLeaves();
    var pubs := map x | x in (set l | l in users :: LeafNode(l)) :: IdentityKey(x / 2);
    forall l: nat ensures IsOccupied(l, pubs) <==> l in users {
      assert LeafNode(l) / 2 == l;
    }
    forall l | l in users ensures Seated(l, l, pubs) {
      assert LeafNode(l) / 2 == l;
    }
    assert IsOccupied(0, pubs);
    forall l: nat ensures !IsOccupied(l, map[]) {
    }
    st := TreeState(8, pubs);
  }

  // The tree without leaf l.
  lemma WithoutLeaf(base: map<nat, Key>, users: set<nat>, l: nat, m: nat) returns (st: TreeState)
    requires Users(base, users) && Settled(base) && l < 8 && m in users && m != l && IsCapacity(8)
    ensures st.capacity == 8 && st.pubs == base - {LeafNode(l)}
    ensures Users(st.pubs, users - {l}) && Plannable(base, st, [l], false)
  {
    st := TreeState(8, base - {LeafNode(l)});
    LeafCoordinates(l);
    forall x: nat ensures x != LeafNode(l) ==> SameAt(x, base, st.pubs) {
    }
    forall i: nat ensures (IsOccupied(i, st.pubs) <==> i in users - {l}) && (i in users - {l} ==> Seated(i, i, st.pubs)) {
      assert IsOccupied(i, base) <==> i in users;
    }
    assert IsOccupied(m, st.pubs);
  }

  lemma SameTree(base: map<nat, Key>, users: set<nat>, m: nat)
    requires Users(base, users) && Settled(base) && m in users && m < 8 && IsCapacity(8)
    ensures Plannable(base, TreeState(8, base), [m], false)
  {
    assert IsOccupied(m, base);
  }

  // ------------------------------------------------------------------ three commits

  // The creation gives a key to every node above leaf 7.
  lemma StoredAbove(rounds: seq<Round>, a: Round)
    requires RoundsOk(rounds) && rounds != [] && rounds[|rounds| - 1] == a
    requires a.base == map[] && a.st.capacity == 8 && a.full && Seated(7, 7, a.st.pubs)
    ensures 13 in a.After() && RenewsAbove(a, 7)
  {
    LastIsValid(rounds, a);
    FirstOfSeatRenews(a, 7, 7);
    assert IsOccupied(7, a.st.pubs);
    EightLeaves();
    EightUnder(7);
    assert HasMember(13, a.st.pubs);
    PathKept(a, 13);
  }

  lemma FirstCommit(users: set<nat>, start: seq<Round>) returns (rounds: seq<Round>, a: Round)
    requires Chosen(users) && start == []
    ensures rounds == start + [a] && RoundsOk(rounds) && KeysNumbered(a.keys, 1)
    ensures Base(rounds) == a.After() && Users(a.After(), users) && 13 in a.After()
    ensures Seated(7, 7, a.st.pubs) && RenewsAbove(a, 7)
  {
    var st := FirstTree(users);
    rounds, a := RunGrows(start, st, [], true, users);
    StoredAbove(rounds, a);
  }

  lemma SecondCommit(users: set<nat>, rounds: seq<Round>) returns (more: seq<Round>, b: Round)
    requires Chosen(users) && |rounds| == 1 && RoundsOk(rounds)
    requires Users(Base(rounds), users) && 13 in Base(rounds)
    ensures more == rounds + [b] && RoundsOk(more) && KeysNumbered(b.keys, 2)
    ensures Users(Base(more), users - {7}) && Users(b.st.pubs, users - {7})
    ensures LowestKeyed(b, 7) == Some(13) && LowestRenewed(b, 7) == Some(11)
    ensures 13 in b.plan.blanks && 13 !in b.plan.path
  {
    EightLeaves();
    BaseIsSettled(rounds);
    var st := WithoutLeaf(Base(rounds), users, 7, 0);
    more, b := RunGrows(rounds, st, [7], false, users - {7});
    GripsThenMoves(more, b, users);
  }

  lemma NoMemberBelow(pubs: map<nat, Key>, users: set<nat>)
    requires Users(pubs, users) && 6 !in users && 7 !in users
    ensures !HasMember(13, pubs)
  {
    forall l: nat | IsOccupied(l, pubs) ensures !Under(l, 13) {
      EightUnder(l);
    }
  }

  // Node 13 has a key and loses its last member; node 11 is then the lowest renewed one.
  lemma GripsThenMoves(rounds: seq<Round>, b: Round, users: set<nat>)
    requires RoundsOk(rounds) && rounds != [] && rounds[|rounds| - 1] == b
    requires Chosen(users) && b.st.capacity == 8 && b.leaves == [7] && !b.full
    requires Users(b.st.pubs, users - {7}) && 13 in b.st.pubs
    ensures LowestKeyed(b, 7) == Some(13) && LowestRenewed(b, 7) == Some(11)
    ensures 13 in b.plan.blanks && 13 !in b.plan.path
  {
    LastIsValid(rounds, b);
    EightLeaves();
    EightUnder(4);
    EightUnder(7);
    NoMemberBelow(b.st.pubs, users - {7});
    assert IsOccupied(4, b.st.pubs) && HasMember(11, b.st.pubs);
    assert 7 in b.leaves;
    assert Candidate(13, 8, b.leaves, false) && Candidate(11, 8, b.leaves, false);
  }

  lemma ThirdCommit(users: set<nat>, rounds: seq<Round>) returns (more: seq<Round>, c: Round)
    requires 0 in users && |rounds| == 2 && RoundsOk(rounds) && Users(Base(rounds), users)
    ensures more == rounds + [c] && RoundsOk(more) && KeysNumbered(c.keys, 3) && Users(c.st.pubs, users)
    ensures 11 !in c.plan.path && forall x :: x !in c.plan.blanks
  {
    EightLeaves();
    BaseIsSettled(rounds);
    SameTree(Base(rounds), users, 0);
    more, c := RunGrows(rounds, TreeState(8, Base(rounds)), [0], false, users);
    NothingBlanked(more, c, 0);
    EightUnder(0);
  }

  // A rotation of an occupied leaf blanks nothing.
  lemma NothingBlanked(rounds: seq<Round>, c: Round, l: nat)
    requires RoundsOk(rounds) && rounds != [] && rounds[|rounds| - 1] == c
    requires c.leaves == [l] && !c.full && IsOccupied(l, c.st.pubs)
    ensures forall x :: x in c.plan.path ==> Under(l, x)
    ensures forall x :: x !in c.plan.blanks
  {
    LastIsValid(rounds, c);
    forall x ensures x !in c.plan.blanks {
      assert Under(l, x) ==> HasMember(x, c.st.pubs);
    }
  }

  // ------------------------------------------------------------------ fresh keys

  lemma NumberedKeysBefore(rounds: seq<Round>, q: nat, key: Key)
    requires q <= |rounds| && RoundKey(rounds, q, key)
    requires forall i :: 0 <= i < |rounds| ==> KeysNumbered(rounds[i].keys, i + 1)
    ensures key.NodeKey? && key.id < 16 * (q + 1)
  {
    var i, n :| 0 <= i < q && n in rounds[i].keys && rounds[i].keys[n] == key;
    assert KeysNumbered(rounds[i].keys, i + 1);
  }

  lemma NumberedAreFresh(rounds: seq<Round>)
    requires forall i :: 0 <= i < |rounds| ==> KeysNumbered(rounds[i].keys, i + 1)
    ensures FreshKeys(rounds)
  {
    forall i | 0 <= i < |rounds| ensures FreshRound(rounds, i) {
      var keys := rounds[i].keys;
      assert KeysNumbered(rounds[i].keys, i + 1);
      forall n | n in keys ensures !RoundKey(rounds, i, keys[n]) {
        if RoundKey(rounds, i, keys[n]) {
          NumberedKeysBefore(rounds, i, keys[n]);
          assert false;
        }
      }
    }
  }

  lemma ThreeAreFresh(rounds: seq<Round>)
    requires |rounds| == 3
    requires KeysNumbered(rounds[0].keys, 1) && KeysNumbered(rounds[1].keys, 2) && KeysNumbered(rounds[2].keys, 3)
    ensures FreshKeys(rounds)
  {
    forall i | 0 <= i < |rounds| ensures KeysNumbered(rounds[i].keys, i + 1) {
      assert i == 0 || i == 1 || i == 2;
    }
    NumberedAreFresh(rounds);
  }

  // ------------------------------------------------------------------ the removed member

  lemma NotSeated(pubs: map<nat, Key>, users: set<nat>, u: nat)
    requires Users(pubs, users) && u !in users
    ensures forall l: nat :: !Seated(u, l, pubs)
  {
    forall l: nat ensures !Seated(u, l, pubs) {
      assert LeafNode(l) in pubs ==> IsOccupied(l, pubs);
    }
  }

  // Losing its leaf a user grips the lowest keyed node above it, and is moved up when that is blanked.
  lemma GripMovesUp(rounds: seq<Round>, u: nat, told: seq<Option<nat>>, l: nat, e: nat, g: nat)
    requires |rounds| == |told| == 3 && told[0] == Some(l)
    requires Seated(u, l, rounds[0].st.pubs) && RenewsAbove(rounds[0], l)
    requires !Seated(u, l, rounds[1].st.pubs) && !Seated(u, l, rounds[2].st.pubs)
    requires LowestKeyed(rounds[1], l) == Some(e) && e in rounds[1].plan.blanks && e !in rounds[1].plan.path
    requires LowestRenewed(rounds[1], l) == Some(g) && Level(g) > 0
    requires g !in rounds[2].plan.path && g !in rounds[2].plan.blanks
    ensures HasFoothold(rounds, u, told, 3)
  {
    LeafCoordinates(l);
    assert ToldBy(told, l, 1);
    assert Foothold(rounds, u, told, l, 1) == Some(LeafNode(l));
    assert Foothold(rounds, u, told, l, 2) == Some(g);
    assert Foothold(rounds, u, told, l, 3) == Some(g);
  }

  // What the three commits do to the nodes above leaf 7.
  ghost predicate Story(rounds: seq<Round>)
  {
    |rounds| == 3 && Seated(7, 7, rounds[0].st.pubs) && RenewsAbove(rounds[0], 7) &&
    LowestKeyed(rounds[1], 7) == Some(13) && LowestRenewed(rounds[1], 7) == Some(11) &&
    13 in rounds[1].plan.blanks && 13 !in rounds[1].plan.path && 11 !in rounds[2].plan.path &&
    (forall x :: x !in rounds[2].plan.blanks) &&
    forall l: nat :: !Seated(7, l, rounds[1].st.pubs) && !Seated(7, l, rounds[2].st.pubs)
  }

  lemma StoryOf(rounds: seq<Round>, a: Round, b: Round, c: Round)
    requires rounds == [a, b, c] && Seated(7, 7, a.st.pubs) && RenewsAbove(a, 7)
    requires LowestKeyed(b, 7) == Some(13) && LowestRenewed(b, 7) == Some(11)
    requires 13 in b.plan.blanks && 13 !in b.plan.path && 11 !in c.plan.path && forall x :: x !in c.plan.blanks
    requires forall l: nat :: !Seated(7, l, b.st.pubs) && !Seated(7, l, c.st.pubs)
    ensures Story(rounds)
  {
  }

  lemma ThreeCommits() returns (rounds: seq<Round>)
    ensures Story(rounds) && RoundsOk(rounds) && FreshKeys(rounds)
  {
    var users: set<nat> := {0, 4, 7};
    var one, a := FirstCommit(users, []);
    var two, b := SecondCommit(users, one);
    var c: Round;
    rounds, c := ThirdCommit(users - {7}, two);
    NotSeated(b.st.pubs, users - {7}, 7);
    NotSeated(c.st.pubs, users - {7}, 7);
    StoryOf(rounds, a, b, c);
    ThreeAreFresh(rounds);
  }

  // User 7 is removed after the first commit, grips node 13 and is moved up to node 11 by the second;
  // so it obtains the secret of the third, which blanks nothing and in whose tree it has no seat.
  lemma RemovedMemberOpensLater(told: seq<Option<nat>>) returns (rounds: seq<Round>)
    requires |told| == 3 && told[0] == Some(7)
    ensures |rounds| == 3 && RoundsOk(rounds) && FreshKeys(rounds)
    ensures forall l: nat :: !Seated(7, l, rounds[1].st.pubs) && !Seated(7, l, rounds[2].st.pubs)
    ensures forall x :: x !in rounds[2].plan.blanks
    ensures 3 in ClientAfter(rounds, 7, told, 3).epochs
    ensures ClientAfter(rounds, 7, told, 3).epochs[3] == rounds[2].secret
  {
    rounds := ThreeCommits();
    assert Level(11) == 2;
    GripMovesUp(rounds, 7, told, 7, 13, 11);
    EpochIffHadFoothold(rounds, 7, told, 3, 3);
  }
}
