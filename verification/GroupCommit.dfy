// Commits as they travel: built by the committing client, checked by the server, processed by the receivers.
module GroupCommit {
  import opened NodeArithmetic
  import opened KeyTree

  // ECIES, symbolically: only the matching private key opens a sealed value.
  datatype Sealed<T> = Sealed(to: Key, content: T)

  function Open<T>(priv: Key, box: Sealed<T>): Option<T>
  {
    if priv == box.to then Some(box.content) else None
  }

  datatype NodeCiphertext = NodeCiphertext(target: nat, box: Sealed<Key>)

  datatype CommitNode = CommitNode(index: nat, pub: Key, ciphertexts: seq<NodeCiphertext>)

  datatype CommitBody = CommitBody(epoch: nat, nodes: seq<CommitNode>, rootBox: Sealed<nat>)

  // As stored by the server and handed to the members.
  datatype Commit = Commit(epoch: nat, nodes: seq<CommitNode>, blanks: seq<nat>, root: nat, rootBox: Sealed<nat>)

  // ------------------------------------------------------------------ building (treekem.js buildCommit)

  predicate HasKey(x: nat, plan: CommitPlan)
  {
    x in plan.path || x in plan.knownPubs
  }

  // Everything the committer seals to has a key in the plan.
  ghost predicate Sealable(plan: CommitPlan)
  {
    plan.targets.Keys == Elements(plan.path) &&
    (forall n, t :: n in plan.path && t in plan.targets[n] ==> HasKey(t, plan)) &&
    HasKey(plan.root, plan)
  }

  function PubOf(x: nat, plan: CommitPlan, keys: map<nat, Key>): Key
    requires HasKey(x, plan) && Elements(plan.path) <= keys.Keys
  {
    if x in plan.path then keys[x] else plan.knownPubs[x]
  }

  ghost predicate IsSealedNode(node: CommitNode, n: nat, plan: CommitPlan, keys: map<nat, Key>)
    requires Sealable(plan) && Elements(plan.path) <= keys.Keys && n in plan.path
  {
    node.index == n && node.pub == keys[n] && |node.ciphertexts| == |plan.targets[n]| &&
    forall i :: 0 <= i < |node.ciphertexts| ==>
      node.ciphertexts[i] ==
      NodeCiphertext(plan.targets[n][i], Sealed(PubOf(plan.targets[n][i], plan, keys), keys[n]))
  }

  ghost predicate IsHonestBody(body: CommitBody, epoch: nat, plan: CommitPlan, keys: map<nat, Key>, secret: nat)
    requires Sealable(plan) && Elements(plan.path) <= keys.Keys
  {
    body.epoch == epoch && |body.nodes| == |plan.path| &&
    (forall i {:trigger body.nodes[i]} :: 0 <= i < |plan.path| ==>
      IsSealedNode(body.nodes[i], plan.path[i], plan, keys)) &&
    body.rootBox == Sealed(PubOf(plan.root, plan, keys), secret)
  }

  // The key pairs drawn for the nodes of a path, one each in order.
  function DrawnKeys(path: seq<nat>, drawn: seq<Key>): (keys: map<nat, Key>)
    requires |drawn| == |path|
    ensures keys.Keys == Elements(path)
  {
    if path == [] then map[]
    else
      var n := |path| - 1;
      assert path == path[..n] + [path[n]];
      DrawnKeys(path[..n], drawn[..n])[path[n] := drawn[n]]
  }

  lemma {:induction false} DrawnKeyAt(path: seq<nat>, drawn: seq<Key>, i: nat)
    requires |drawn| == |path| && i < |path| && forall j :: i < j < |path| ==> path[j] != path[i]
    ensures path[i] in DrawnKeys(path, drawn) && DrawnKeys(path, drawn)[path[i]] == drawn[i]
    decreases |path|
  {
    var n := |path| - 1;
    if i < n {
      DrawnKeyAt(path[..n], drawn[..n], i);
    }
  }

  method KeysForPath(path: seq<nat>, drawn: seq<Key>) returns (made: map<nat, Key>)
    requires |drawn| == |path|
    ensures made == DrawnKeys(path, drawn)
  {
    made := map[];
    for i := 0 to |path|
      invariant made == DrawnKeys(path[..i], drawn[..i])
    {
      assert path[..i + 1][..i] == path[..i] && drawn[..i + 1][..i] == drawn[..i];
      made := made[path[i] := drawn[i]];
    }
    assert path[..|path|] == path && drawn[..|path|] == drawn;
  }

  // `drawn` are the generated key pairs, one per path node in order; `secret` is the random epoch secret.
  method BuildCommit(plan: CommitPlan, epoch: nat, drawn: seq<Key>, secret: nat) returns (body: CommitBody)
    requires Sealable(plan) && |drawn| == |plan.path|
    ensures IsHonestBody(body, epoch, plan, DrawnKeys(plan.path, drawn), secret)
  {
    var made := KeysForPath(plan.path, drawn);
    var nodes := [];
    for i := 0 to |plan.path|
      invariant |nodes| == i
      invariant forall j :: 0 <= j < i ==> IsSealedNode(nodes[j], plan.path[j], plan, made)
    {
      var node := SealNode(plan.path[i], plan, made);
      nodes := nodes + [node];
    }
    body := CommitBody(epoch, nodes, Sealed(PubOf(plan.root, plan, made), secret));
  }

  method SealNode(n: nat, plan: CommitPlan, made: map<nat, Key>) returns (node: CommitNode)
    requires Sealable(plan) && Elements(plan.path) <= made.Keys && n in plan.path
    ensures IsSealedNode(node, n, plan, made)
  {
    assert n in Elements(plan.path);
    var targets := plan.targets[n];
    var ciphertexts := [];
    for i := 0 to |targets|
      invariant |ciphertexts| == i
      invariant forall j :: 0 <= j < i ==>
        ciphertexts[j] == NodeCiphertext(targets[j], Sealed(PubOf(targets[j], plan, made), made[n]))
    {
      assert targets[i] in targets;
      ciphertexts := ciphertexts + [NodeCiphertext(targets[i], Sealed(PubOf(targets[i], plan, made), made[n]))];
    }
    node := CommitNode(n, made[n], ciphertexts);
  }

  // A plan for a group with members can always be sealed, including the epoch secret.
  lemma PlanIsSealable(st: TreeState, leaves: seq<nat>, full: bool, plan: CommitPlan)
    requires InCapacity(st) && IsPlan(st, leaves, full, plan)
    requires exists l: nat :: IsOccupied(l, st.pubs)
    requires full || leaves != []
    requires forall l :: l in leaves ==> l < st.capacity
    ensures Sealable(plan)
    ensures plan.root in plan.path <==> st.capacity > 1
  {
    forall n, t | n in plan.path && t in plan.targets[n]
      ensures HasKey(t, plan)
    {
      TargetsHaveKeys(n, st.pubs, Elements(plan.path));
    }
    var l: nat :| IsOccupied(l, st.pubs);
    assert InTree(LeafNode(l), st.capacity);
    RootAboveAll(l, st.capacity);
    if st.capacity > 1 {
      if !full {
        assert leaves[0] in leaves;
        RootAboveAll(leaves[0], st.capacity);
      }
      assert Candidate(plan.root, st.capacity, leaves, full);
    }
  }

  // ------------------------------------------------------------------ checking (treekem.validate_commit)

  datatype Validation = Accepted(pubs: map<nat, Key>) | WrongBranch | WrongTargets(index: nat)

  function Indices(nodes: seq<CommitNode>): set<nat>
  {
    set i | 0 <= i < |nodes| :: nodes[i].index
  }

  function CiphertextTargets(node: CommitNode): seq<nat>
  {
    seq(|node.ciphertexts|, i requires 0 <= i < |node.ciphertexts| => node.ciphertexts[i].target)
  }

  // Later entries win, as in a dictionary built from the list.
  function ByIndex(nodes: seq<CommitNode>): (m: map<nat, CommitNode>)
    ensures m.Keys == Indices(nodes)
  {
    if nodes == [] then map[]
    else
      var m := ByIndex(nodes[..|nodes| - 1]);
      var r := m[nodes[|nodes| - 1].index := nodes[|nodes| - 1]];
      assert r.Keys == Indices(nodes) by {
        forall x
          ensures x in r.Keys <==> x in Indices(nodes)
        {
          if x in Indices(nodes) {
            var i :| 0 <= i < |nodes| && nodes[i].index == x;
            assert i < |nodes| - 1 ==> nodes[..|nodes| - 1][i].index == x;
          }
        }
      }
      r
  }

  // The new public keys in a body.
  function PubsOf(nodes: seq<CommitNode>): map<nat, Key>
  {
    var byIndex := ByIndex(nodes);
    map x | x in byIndex :: byIndex[x].pub
  }

  ghost predicate MatchesPlan(plan: CommitPlan, nodes: seq<CommitNode>)
    requires plan.targets.Keys == Elements(plan.path)
  {
    Indices(nodes) == Elements(plan.path) &&
    forall x :: x in plan.path ==> multiset(CiphertextTargets(ByIndex(nodes)[x])) == multiset(plan.targets[x])
  }

  method ValidateCommit(plan: CommitPlan, nodes: seq<CommitNode>) returns (r: Validation)
    requires plan.targets.Keys == Elements(plan.path)
    ensures r.Accepted? <==> MatchesPlan(plan, nodes)
    ensures r.Accepted? ==> r.pubs == PubsOf(nodes)
    ensures r.WrongBranch? <==> Indices(nodes) != Elements(plan.path)
    ensures r.WrongTargets? ==> r.index in plan.path && r.index in ByIndex(nodes)
    ensures r.WrongTargets? ==>
      multiset(CiphertextTargets(ByIndex(nodes)[r.index])) != multiset(plan.targets[r.index])
  {
    var byIndex := ByIndex(nodes);
    if byIndex.Keys != Elements(plan.path) {
      return WrongBranch;
    }
    var newPubs: map<nat, Key> := map[];
    for i := 0 to |plan.path|
      invariant forall x :: x in plan.path[..i] ==> multiset(CiphertextTargets(byIndex[x])) == multiset(plan.targets[x])
      invariant newPubs.Keys == Elements(plan.path[..i])
      invariant forall x :: x in newPubs ==> newPubs[x] == byIndex[x].pub
    {
      var index := plan.path[i];
      assert index in Elements(plan.path);
      assert plan.path[..i + 1] == plan.path[..i] + [index];
      if multiset(CiphertextTargets(byIndex[index])) != multiset(plan.targets[index]) {
        return WrongTargets(index);
      }
      newPubs := newPubs[index := byIndex[index].pub];
    }
    assert plan.path[..|plan.path|] == plan.path;
    r := Accepted(newPubs);
  }

  // ------------------------------------------------------------------ processing (treekem.js processCommit)

  datatype ClientTree = ClientTree(privs: map<nat, Key>, epochs: map<nat, nat>, processed: nat)

  const NewClient := ClientTree(map[], map[], 0)

  // The stable sort by level and index applied before processing.
  function InsertNode(node: CommitNode, nodes: seq<CommitNode>): seq<CommitNode>
  {
    if nodes == [] || !Before(nodes[0].index, node.index) then [node] + nodes
    else [nodes[0]] + InsertNode(node, nodes[1..])
  }

  function SortNodes(nodes: seq<CommitNode>): seq<CommitNode>
  {
    if nodes == [] then [] else InsertNode(nodes[0], SortNodes(nodes[1..]))
  }

  // The content of the first ciphertext the client can open.
  function Learn(privs: map<nat, Key>, ciphertexts: seq<NodeCiphertext>): Option<Key>
  {
    if ciphertexts == [] then None
    else
      var c := ciphertexts[0];
      if c.target in privs && Open(privs[c.target], c.box).Some? then Open(privs[c.target], c.box)
      else Learn(privs, ciphertexts[1..])
  }

  function LearnNode(privs: map<nat, Key>, node: CommitNode): map<nat, Key>
  {
    match Learn(privs, node.ciphertexts)
    case Some(key) => privs[node.index := key]
    case None => privs - {node.index}
  }

  function LearnNodes(privs: map<nat, Key>, nodes: seq<CommitNode>): map<nat, Key>
  {
    if nodes == [] then privs
    else LearnNode(LearnNodes(privs, nodes[..|nodes| - 1]), nodes[|nodes| - 1])
  }

  function WithLeaf(privs: map<nat, Key>, myLeaf: Option<nat>, identity: Key): map<nat, Key>
  {
    if myLeaf.Some? && LeafNode(myLeaf.value) !in privs then privs[LeafNode(myLeaf.value) := identity] else privs
  }

  function PrivsAfter(privs: map<nat, Key>, commit: Commit, myLeaf: Option<nat>, identity: Key): map<nat, Key>
  {
    LearnNodes(WithLeaf(privs, myLeaf, identity), SortNodes(commit.nodes)) - Elements(commit.blanks)
  }

  function SecretFrom(privs: map<nat, Key>, commit: Commit): Option<nat>
  {
    if commit.root in privs then Open(privs[commit.root], commit.rootBox) else None
  }

  function Processed(c: ClientTree, commit: Commit, myLeaf: Option<nat>, identity: Key): ClientTree
  {
    var privs := PrivsAfter(c.privs, commit, myLeaf, identity);
    var secret := SecretFrom(privs, commit);
    ClientTree(
      privs,
      if secret.Some? then c.epochs[commit.epoch := secret.value] else c.epochs,
      if commit.epoch > c.processed then commit.epoch else c.processed)
  }

  // The nodes of a commit are processed from the leaves upwards, and none is left out.
  lemma {:induction false} SortedUpwards(nodes: seq<CommitNode>)
    ensures multiset(SortNodes(nodes)) == multiset(nodes)
    ensures Upwards(SortNodes(nodes))
  {
    if nodes != [] {
      SortedUpwards(nodes[1..]);
      InsertedUpwards(nodes[0], SortNodes(nodes[1..]));
      assert nodes == [nodes[0]] + nodes[1..];
    }
  }

  predicate Upwards(nodes: seq<CommitNode>)
  {
    forall i, j :: 0 <= i < j < |nodes| ==> !Before(nodes[j].index, nodes[i].index)
  }

  lemma {:induction false} InsertedUpwards(node: CommitNode, nodes: seq<CommitNode>)
    requires Upwards(nodes)
    ensures multiset(InsertNode(node, nodes)) == multiset(nodes) + multiset{node}
    ensures Upwards(InsertNode(node, nodes))
  {
    if nodes != [] && Before(nodes[0].index, node.index) {
      var rest := InsertNode(node, nodes[1..]);
      InsertedUpwards(node, nodes[1..]);
      assert nodes == [nodes[0]] + nodes[1..];
      forall j | 0 <= j < |rest| ensures !Before(rest[j].index, nodes[0].index) {
        assert rest[j] in multiset(rest);
        assert rest[j] == node || rest[j] in nodes[1..];
      }
    } else {
      assert InsertNode(node, nodes) == [node] + nodes;
    }
  }

  // The content of a ciphertext that the commit has for the node.
  ghost predicate IsSentFor(nodes: seq<CommitNode>, x: nat, key: Key)
  {
    exists node, c :: node in nodes && node.index == x && c in node.ciphertexts && c.box.content == key
  }

  // Nodes that are not in the commit keep the client's key; one that is has a key of the commit or none.
  lemma {:induction false} LearntKeys(privs: map<nat, Key>, nodes: seq<CommitNode>, x: nat)
    ensures var after := LearnNodes(privs, nodes);
      (x !in Indices(nodes) ==> SameAt(x, after, privs)) &&
      (x in Indices(nodes) && x in after ==> IsSentFor(nodes, x, after[x]))
  {
    if nodes != [] {
      var n := |nodes| - 1;
      LearntKeys(privs, nodes[..n], x);
      var before := LearnNodes(privs, nodes[..n]);
      if x == nodes[n].index {
        if Learn(before, nodes[n].ciphertexts).Some? {
          var c := LearnedFrom(before, nodes[n].ciphertexts);
          assert nodes[n] in nodes;
        }
      } else if x in Indices(nodes) {
        var i :| 0 <= i < |nodes| && nodes[i].index == x;
        assert nodes[..n][i].index == x;
      } else {
        forall i | 0 <= i < n ensures nodes[..n][i].index != x {
          assert nodes[i].index != x;
        }
      }
    }
  }

  // What the client holds for a node once it has processed a commit.
  ghost predicate HoldsAfter(before: map<nat, Key>, commit: Commit, myLeaf: Option<nat>, identity: Key, after: map<nat, Key>, x: nat)
  {
    if x in commit.blanks then x !in after
    else if x in Indices(commit.nodes) then x in after ==> IsSentFor(commit.nodes, x, after[x])
    else if x !in before && myLeaf.Some? && x == LeafNode(myLeaf.value) then x in after && after[x] == identity
    else SameAt(x, after, before)
  }

  lemma HeldAfter(before: map<nat, Key>, commit: Commit, myLeaf: Option<nat>, identity: Key, x: nat)
    ensures HoldsAfter(before, commit, myLeaf, identity, PrivsAfter(before, commit, myLeaf, identity), x)
  {
    var nodes := SortNodes(commit.nodes);
    SortedUpwards(commit.nodes);
    forall node ensures node in nodes <==> node in commit.nodes {
      assert node in multiset(nodes) <==> node in multiset(commit.nodes);
    }
    LearntKeys(WithLeaf(before, myLeaf, identity), nodes, x);
    assert x in Indices(nodes) <==> x in Indices(commit.nodes) by {
      if x in Indices(nodes) {
        var i :| 0 <= i < |nodes| && nodes[i].index == x;
        assert nodes[i] in nodes;
      }
      if x in Indices(commit.nodes) {
        var i :| 0 <= i < |commit.nodes| && commit.nodes[i].index == x;
        assert commit.nodes[i] in commit.nodes;
      }
    }
    assert x in Elements(commit.blanks) <==> x in commit.blanks;
  }

  class TreeClient {
    var privs: map<nat, Key>
    var epochs: map<nat, nat>
    var processed: nat

    ghost function View(): ClientTree
      reads this
    {
      ClientTree(privs, epochs, processed)
    }

    constructor ()
      ensures View() == NewClient
    {
      privs, epochs, processed := map[], map[], 0;
    }

    method ProcessCommit(commit: Commit, myLeaf: Option<nat>, identity: Key) returns (secret: Option<nat>)
      modifies this
      ensures View() == Processed(old(View()), commit, myLeaf, identity)
      ensures secret == SecretFrom(privs, commit)
      // a node of the commit has a key of the commit or none, a blanked one has none, and the rest is as before
      ensures forall x: nat {:trigger HoldsAfter(old(privs), commit, myLeaf, identity, privs, x)} ::
        HoldsAfter(old(privs), commit, myLeaf, identity, privs, x)
      ensures secret == if commit.root in privs && privs[commit.root] == commit.rootBox.to then Some(commit.rootBox.content) else None
      ensures epochs == if secret.Some? then old(epochs)[commit.epoch := secret.value] else old(epochs)
      ensures processed >= commit.epoch && processed in {old(processed), commit.epoch} && processed >= old(processed)
    {
      forall x: nat ensures HoldsAfter(privs, commit, myLeaf, identity, PrivsAfter(privs, commit, myLeaf, identity), x) {
        HeldAfter(privs, commit, myLeaf, identity, x);
      }
      if myLeaf.Some? {
        var leaf := LeafNode(myLeaf.value);
        if leaf !in privs {
          privs := privs[leaf := identity];
        }
      }
      var nodes := SortNodes(commit.nodes);
      ghost var start := privs;
      for i := 0 to |nodes|
        invariant privs == LearnNodes(start, nodes[..i])
        invariant epochs == old(epochs) && processed == old(processed)
      {
        var got := OpenFirst(nodes[i].ciphertexts);
        assert nodes[..i + 1][..i] == nodes[..i];
        if got.Some? {
          privs := privs[nodes[i].index := got.value];
        } else {
          privs := privs - {nodes[i].index};
        }
      }
      assert nodes[..|nodes|] == nodes;
      ForgetBlanks(commit.blanks);
      processed := if commit.epoch > processed then commit.epoch else processed;
      if commit.root !in privs {
        return None;
      }
      secret := Open(privs[commit.root], commit.rootBox);
      if secret.Some? {
        epochs := epochs[commit.epoch := secret.value];
      }
    }

    method OpenFirst(ciphertexts: seq<NodeCiphertext>) returns (got: Option<Key>)
      ensures got == Learn(privs, ciphertexts)
    {
      for i := 0 to |ciphertexts|
        invariant Learn(privs, ciphertexts) == Learn(privs, ciphertexts[i..])
      {
        var c := ciphertexts[i];
        assert ciphertexts[i..][1..] == ciphertexts[i + 1..];
        if c.target in privs && Open(privs[c.target], c.box).Some? {
          return Open(privs[c.target], c.box);
        }
      }
      got := None;
    }

    method ForgetBlanks(blanks: seq<nat>)
      modifies this`privs
      ensures privs == old(privs) - Elements(blanks)
    {
      for i := 0 to |blanks|
        invariant privs == old(privs) - Elements(blanks[..i])
      {
        assert blanks[..i + 1] == blanks[..i] + [blanks[i]];
        privs := privs - {blanks[i]};
      }
      assert blanks[..|blanks|] == blanks;
    }
  }

  // ------------------------------------------------------------------ small facts

  predicate NodesAscending(nodes: seq<CommitNode>)
  {
    forall i, j :: 0 <= i < j < |nodes| ==> Before(nodes[i].index, nodes[j].index)
  }

  // Honest commits already are in processing order.
  lemma {:induction false} SortedStays(nodes: seq<CommitNode>)
    requires NodesAscending(nodes)
    ensures SortNodes(nodes) == nodes
  {
    if nodes != [] {
      SortedStays(nodes[1..]);
      assert |nodes| > 1 ==> Before(nodes[0].index, nodes[1].index);
      assert nodes == [nodes[0]] + nodes[1..];
    }
  }

  // All ciphertexts of a node seal the same key: opening any of them gives it.
  lemma {:induction false} LearnSucceeds(privs: map<nat, Key>, ciphertexts: seq<NodeCiphertext>, key: Key, i: nat)
    requires forall c :: c in ciphertexts ==> c.box.content == key
    requires i < |ciphertexts| && ciphertexts[i].target in privs
    requires privs[ciphertexts[i].target] == ciphertexts[i].box.to
    ensures Learn(privs, ciphertexts) == Some(key)
  {
    assert ciphertexts[0] in ciphertexts;
    if !(ciphertexts[0].target in privs && Open(privs[ciphertexts[0].target], ciphertexts[0].box).Some?) {
      assert i > 0;
      LearnSucceeds(privs, ciphertexts[1..], key, i - 1);
    }
  }

  lemma {:induction false} LearnedFrom(privs: map<nat, Key>, ciphertexts: seq<NodeCiphertext>) returns (c: NodeCiphertext)
    requires Learn(privs, ciphertexts).Some?
    ensures c in ciphertexts && c.target in privs && privs[c.target] == c.box.to
    ensures Learn(privs, ciphertexts) == Some(c.box.content)
  {
    c := ciphertexts[0];
    if !(c.target in privs && Open(privs[c.target], c.box).Some?) {
      c := LearnedFrom(privs, ciphertexts[1..]);
    }
  }

  lemma {:induction false} ByIndexAt(nodes: seq<CommitNode>, i: nat)
    requires i < |nodes|
    requires forall j, k :: 0 <= j < k < |nodes| ==> nodes[j].index != nodes[k].index
    ensures nodes[i].index in ByIndex(nodes) && ByIndex(nodes)[nodes[i].index] == nodes[i]
  {
    if i < |nodes| - 1 {
      ByIndexAt(nodes[..|nodes| - 1], i);
    }
  }

  lemma HonestNode(body: CommitBody, epoch: nat, plan: CommitPlan, keys: map<nat, Key>, secret: nat, i: nat)
    requires Sealable(plan) && Elements(plan.path) <= keys.Keys
    requires IsHonestBody(body, epoch, plan, keys, secret) && i < |plan.path|
    ensures body.nodes[i].index == plan.path[i] && body.nodes[i].pub == keys[plan.path[i]]
    ensures plan.path[i] in plan.targets && CiphertextTargets(body.nodes[i]) == plan.targets[plan.path[i]]
  {
    assert IsSealedNode(body.nodes[i], plan.path[i], plan, keys);
    assert plan.path[i] in Elements(plan.path);
  }

  // The server sees an honest body node by node, with the targets of the plan it was built from.
  lemma HonestNodeByIndex(body: CommitBody, epoch: nat, plan: CommitPlan, keys: map<nat, Key>, secret: nat, i: nat)
    requires Sealable(plan) && Elements(plan.path) <= keys.Keys && Ascending(plan.path)
    requires IsHonestBody(body, epoch, plan, keys, secret) && i < |plan.path|
    ensures plan.path[i] in ByIndex(body.nodes) && plan.path[i] in plan.targets
    ensures CiphertextTargets(ByIndex(body.nodes)[plan.path[i]]) == plan.targets[plan.path[i]]
    ensures ByIndex(body.nodes)[plan.path[i]].pub == keys[plan.path[i]]
  {
    forall j, k | 0 <= j < k < |body.nodes|
      ensures body.nodes[j].index != body.nodes[k].index
    {
      HonestNode(body, epoch, plan, keys, secret, j);
      HonestNode(body, epoch, plan, keys, secret, k);
      assert Before(plan.path[j], plan.path[k]);
    }
    HonestNode(body, epoch, plan, keys, secret, i);
    ByIndexAt(body.nodes, i);
  }

  lemma HonestIndices(body: CommitBody, epoch: nat, plan: CommitPlan, keys: map<nat, Key>, secret: nat)
    requires Sealable(plan) && Elements(plan.path) <= keys.Keys
    requires IsHonestBody(body, epoch, plan, keys, secret)
    ensures Indices(body.nodes) == Elements(plan.path)
  {
    forall i | 0 <= i < |plan.path|
      ensures body.nodes[i].index == plan.path[i]
    {
      HonestNode(body, epoch, plan, keys, secret, i);
    }
    forall x
      ensures x in Indices(body.nodes) <==> x in plan.path
    {
      if x in plan.path {
        var i :| 0 <= i < |plan.path| && plan.path[i] == x;
        assert body.nodes[i].index == x;
      }
    }
  }

  lemma HonestPubs(body: CommitBody, epoch: nat, plan: CommitPlan, keys: map<nat, Key>, secret: nat)
    requires Sealable(plan) && Elements(plan.path) == keys.Keys && Ascending(plan.path)
    requires IsHonestBody(body, epoch, plan, keys, secret)
    ensures PubsOf(body.nodes) == keys
  {
    HonestIndices(body, epoch, plan, keys, secret);
    forall x | x in keys
      ensures ByIndex(body.nodes)[x].pub == keys[x]
    {
      assert x in plan.path;
      var i :| 0 <= i < |plan.path| && plan.path[i] == x;
      HonestNodeByIndex(body, epoch, plan, keys, secret, i);
    }
  }
}
