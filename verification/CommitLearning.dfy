// What one client learns from one commit, as a matter of who holds which key, whatever the shape of the tree.
module CommitLearning {
  import opened NodeArithmetic
  import opened KeyTree
  import opened GroupCommit

  // A commit as sent: for each path node, in order, its new key sealed to its
  // targets, each under the new key of the target or the stored one.
  datatype Delivery = Delivery(
    nodes: seq<CommitNode>, path: seq<nat>, targets: map<nat, seq<nat>>,
    stored: map<nat, Key>, keys: map<nat, Key>)
  {
    function KeyAt(x: nat): Option<Key>
    {
      if x in keys then Some(keys[x]) else if x in stored then Some(stored[x]) else None
    }

    ghost predicate Delivers(i: nat)
      requires i < |nodes| == |path|
    {
      path[i] in keys && path[i] in targets &&
      nodes[i].index == path[i] && nodes[i].pub == keys[path[i]] &&
      (forall c :: c in nodes[i].ciphertexts ==>
        c.target in targets[path[i]] && KeyAt(c.target) == Some(c.box.to) && c.box.content == keys[path[i]]) &&
      (forall t :: t in targets[path[i]] ==> exists c :: c in nodes[i].ciphertexts && c.target == t)
    }

    ghost predicate Valid()
    {
      |nodes| == |path| &&
      (forall x :: x in keys <==> x in path) &&
      (forall i, j :: 0 <= i < j < |path| ==> path[i] != path[j]) &&
      (forall i {:trigger Delivers(i)} :: 0 <= i < |nodes| ==> Delivers(i))
    }
  }

  // The client's keys after the first i nodes of the commit.
  ghost function Progress(d: Delivery, privs: map<nat, Key>, i: nat): map<nat, Key>
    requires i <= |d.nodes|
  {
    if i == 0 then privs else LearnNode(Progress(d, privs, i - 1), d.nodes[i - 1])
  }

  // What the client opens in node i.
  ghost function Got(d: Delivery, privs: map<nat, Key>, i: nat): Option<Key>
    requires i < |d.nodes|
  {
    Learn(Progress(d, privs, i), d.nodes[i].ciphertexts)
  }

  lemma {:induction false} ProgressIsPrefix(d: Delivery, privs: map<nat, Key>, i: nat)
    requires i <= |d.nodes|
    ensures Progress(d, privs, i) == LearnNodes(privs, d.nodes[..i])
  {
    if i > 0 {
      ProgressIsPrefix(d, privs, i - 1);
      assert d.nodes[..i][..i - 1] == d.nodes[..i - 1];
    }
  }

  lemma Delivered(d: Delivery, i: nat)
    requires d.Valid() && i < |d.path|
    ensures d.Delivers(i)
  {
  }

  // One node of the commit changes only the client's key for that node.
  lemma StepKeeps(d: Delivery, privs: map<nat, Key>, i: nat, x: nat)
    requires d.Valid() && 0 < i <= |d.path| && x != d.path[i - 1]
    ensures SameAt(x, Progress(d, privs, i), Progress(d, privs, i - 1))
  {
    Delivered(d, i - 1);
  }

  lemma StepLearns(d: Delivery, privs: map<nat, Key>, i: nat)
    requires d.Valid() && i < |d.path|
    ensures d.path[i] in Progress(d, privs, i + 1) <==> Got(d, privs, i).Some?
    ensures Got(d, privs, i).Some? ==> Got(d, privs, i) == Some(Progress(d, privs, i + 1)[d.path[i]])
  {
    Delivered(d, i);
  }

  // Nodes outside the processed part of the path keep the client's key.
  lemma {:induction false} OthersUnchanged(d: Delivery, privs: map<nat, Key>, i: nat, x: nat)
    requires d.Valid() && i <= |d.path|
    requires forall j :: 0 <= j < i ==> d.path[j] != x
    ensures SameAt(x, Progress(d, privs, i), privs)
  {
    if i > 0 {
      OthersUnchanged(d, privs, i - 1, x);
      StepKeeps(d, privs, i, x);
    }
  }

  // ------------------------------------------------------------------ enough to learn

  // The client can open a value sealed under t: it is about to learn the new key of t, or holds the stored one.
  ghost predicate Opens(d: Delivery, privs: map<nat, Key>, above: set<nat>, t: nat)
  {
    if t in d.keys then t in above else t in privs && t in d.stored && privs[t] == d.stored[t]
  }

  // Every node of `above` has a target that the client can open, once it has worked up to the node.
  ghost predicate CanClimb(d: Delivery, privs: map<nat, Key>, above: set<nat>)
    requires d.Valid()
  {
    forall i {:trigger Climbable(d, privs, above, i)} ::
      0 <= i < |d.path| && d.path[i] in above ==> Climbable(d, privs, above, i)
  }

  ghost predicate Climbable(d: Delivery, privs: map<nat, Key>, above: set<nat>, i: nat)
    requires d.Valid() && i < |d.path|
  {
    exists t :: OpensBelow(d, privs, above, i, t)
  }

  ghost predicate OpensBelow(d: Delivery, privs: map<nat, Key>, above: set<nat>, i: nat, t: nat)
    requires d.Valid() && i < |d.path|
  {
    d.Delivers(i) && t in d.targets[d.path[i]] && Opens(d, privs, above, t) &&
    (t in d.keys ==> exists j :: 0 <= j < i && d.path[j] == t)
  }

  // The new key of path node j is learnt in step j and kept until step i.
  lemma {:induction false} Climb(d: Delivery, privs: map<nat, Key>, above: set<nat>, i: nat, j: nat)
    requires d.Valid() && CanClimb(d, privs, above)
    requires j < i <= |d.path| && d.path[j] in above
    ensures SameAt(d.path[j], Progress(d, privs, i), d.keys)
    decreases i, 1
  {
    if j < i - 1 {
      StepKeeps(d, privs, i, d.path[j]);
      Climb(d, privs, above, i - 1, j);
    } else {
      Delivered(d, j);
      ClimbOne(d, privs, above, j);
      StepLearns(d, privs, j);
    }
  }

  lemma {:induction false} ClimbOne(d: Delivery, privs: map<nat, Key>, above: set<nat>, i: nat)
    requires d.Valid() && CanClimb(d, privs, above) && i < |d.path| && d.path[i] in above
    ensures d.path[i] in d.keys && Got(d, privs, i) == Some(d.keys[d.path[i]])
    decreases i + 1, 0
  {
    Delivered(d, i);
    assert Climbable(d, privs, above, i);
    var t :| OpensBelow(d, privs, above, i, t);
    var c :| c in d.nodes[i].ciphertexts && c.target == t;
    if t in d.keys {
      var j :| 0 <= j < i && d.path[j] == t;
      Climb(d, privs, above, i, j);
    } else {
      OthersUnchanged(d, privs, i, t);
    }
    var k :| 0 <= k < |d.nodes[i].ciphertexts| && d.nodes[i].ciphertexts[k] == c;
    LearnSucceeds(Progress(d, privs, i), d.nodes[i].ciphertexts, d.keys[d.path[i]], k);
  }

  // ------------------------------------------------------------------ not enough to learn

  // `within` is closed under opening, so path keys outside it are never learnt.
  ghost predicate OpensOnlyWithin(d: Delivery, privs: map<nat, Key>, within: set<nat>)
  {
    forall n, t :: n in d.keys && n in d.targets && t in d.targets[n] && Opens(d, privs, within, t) ==> n in within
  }

  // The commit's keys are new: distinct, no identity keys, and neither in the tree nor known to the client.
  ghost predicate NewKeys(d: Delivery, privs: map<nat, Key>)
  {
    (forall n :: n in d.keys ==> d.keys[n].NodeKey?) &&
    (forall n, m {:trigger Distinct(d, n, m)} :: Distinct(d, n, m)) &&
    (forall n, x {:trigger Unknown(d, privs, n, x)} :: Unknown(d, privs, n, x)) &&
    (forall n, x {:trigger Unknown(d, d.stored, n, x)} :: Unknown(d, d.stored, n, x))
  }

  predicate Distinct(d: Delivery, n: nat, m: nat)
  {
    n in d.keys && m in d.keys && d.keys[n] == d.keys[m] ==> n == m
  }

  // Key n of the commit is not the key that is known for x.
  predicate Unknown(d: Delivery, known: map<nat, Key>, n: nat, x: nat)
  {
    n in d.keys && x in known ==> known[x] != d.keys[n]
  }

  lemma {:induction false} LearnsOnlyWithin(d: Delivery, privs: map<nat, Key>, within: set<nat>, i: nat, x: nat, n: nat)
    requires d.Valid() && OpensOnlyWithin(d, privs, within) && NewKeys(d, privs)
    requires i <= |d.path| && n in d.keys
    requires x in Progress(d, privs, i) && Progress(d, privs, i)[x] == d.keys[n]
    ensures x == n && n in within
    decreases i, 1
  {
    assert Unknown(d, privs, n, x);
    if i > 0 {
      if x != d.path[i - 1] {
        StepKeeps(d, privs, i, x);
        LearnsOnlyWithin(d, privs, within, i - 1, x, n);
      } else {
        StepLearns(d, privs, i - 1);
        LearnsOneWithin(d, privs, within, i - 1);
        assert Distinct(d, x, n);
      }
    }
  }

  lemma {:induction false} LearnsOneWithin(d: Delivery, privs: map<nat, Key>, within: set<nat>, i: nat)
    requires d.Valid() && OpensOnlyWithin(d, privs, within) && NewKeys(d, privs) && i < |d.path|
    requires Got(d, privs, i).Some?
    ensures d.path[i] in d.keys && Got(d, privs, i) == Some(d.keys[d.path[i]]) && d.path[i] in within
    decreases i + 1, 0
  {
    Delivered(d, i);
    var c := LearnedFrom(Progress(d, privs, i), d.nodes[i].ciphertexts);
    if c.target in d.keys {
      LearnsOnlyWithin(d, privs, within, i, c.target, c.target);
    } else {
      OthersUnchanged(d, privs, i, c.target);
    }
    assert Opens(d, privs, within, c.target);
  }

  lemma {:induction false} KeptOrNew(d: Delivery, privs: map<nat, Key>, within: set<nat>, i: nat, x: nat)
    requires d.Valid() && OpensOnlyWithin(d, privs, within) && NewKeys(d, privs)
    requires i <= |d.path| && x in Progress(d, privs, i)
    ensures SameAt(x, Progress(d, privs, i), d.keys) || SameAt(x, Progress(d, privs, i), privs)
  {
    if i > 0 {
      if x != d.path[i - 1] {
        StepKeeps(d, privs, i, x);
        KeptOrNew(d, privs, within, i - 1, x);
      } else {
        StepLearns(d, privs, i - 1);
        LearnsOneWithin(d, privs, within, i - 1);
      }
    }
  }
}
