// Members over whole runs: a client fetches the stored commits in order and processes them one after the other.
module MemberRuns {
  import opened NodeArithmetic
  import opened KeyTree
  import opened PlanProperties
  import opened GroupCommit
  import opened CommitLearning
  import opened KeyDelivery
  import opened Footholds
  import opened GroupRuns

  // The client of user u after the first q commits; told[i] is the leaf the server reported with commit i.
  ghost function ClientAfter(rounds: seq<Round>, u: nat, told: seq<Option<nat>>, q: nat): ClientTree
    requires q <= |rounds| && q <= |told|
  {
    if q == 0 then NewClient
    else Processed(ClientAfter(rounds, u, told, q - 1), rounds[q - 1].commit, told[q - 1], IdentityKey(u))
  }

  // The client's keys when it starts on commit q - 1, its own leaf included.
  ghost function Entering(rounds: seq<Round>, u: nat, told: seq<Option<nat>>, q: nat): map<nat, Key>
    requires 0 < q <= |rounds| && q <= |told|
  {
    WithLeaf(ClientAfter(rounds, u, told, q - 1).privs, told[q - 1], IdentityKey(u))
  }

  lemma EnteringFinishes(rounds: seq<Round>, u: nat, told: seq<Option<nat>>, q: nat)
    requires 0 < q <= |rounds| && q <= |told|
    ensures Finished(rounds[q - 1], Entering(rounds, u, told, q), ClientAfter(rounds, u, told, q).privs)
  {
  }

  lemma SettledBases(rounds: seq<Round>, q: nat)
    requires RoundsOk(rounds) && 0 < q <= |rounds|
    ensures rounds[q - 1].Valid() && LeavesAreIdentities(rounds[q - 1].st.pubs)
    ensures rounds[q - 1].base == if q == 1 then map[] else rounds[q - 2].After()
  {
    assert RoundOk(rounds, q - 1);
    if q > 1 {
      assert rounds[..q - 1][q - 2] == rounds[q - 2];
    }
  }

  // ------------------------------------------------------------------ leaves known to a client

  ghost predicate ToldBy(told: seq<Option<nat>>, l: nat, q: nat)
    requires q <= |told|
  {
    exists i :: 0 <= i < q && told[i] == Some(l)
  }

  // Processing a commit leaves the leaf entries alone.
  lemma LeafKept(rounds: seq<Round>, u: nat, told: seq<Option<nat>>, q: nat, l: nat)
    requires RoundsOk(rounds) && 0 < q <= |rounds| && q <= |told|
    ensures SameAt(LeafNode(l), ClientAfter(rounds, u, told, q).privs, Entering(rounds, u, told, q))
  {
    SettledBases(rounds, q);
    EnteringFinishes(rounds, u, told, q);
    LeafCoordinates(l);
    OldKeyKept(rounds[q - 1], Entering(rounds, u, told, q), LeafNode(l), ClientAfter(rounds, u, told, q).privs);
  }

  // Leaf entries hold the identity key, and are those of the leaves reported so far.
  lemma {:induction false} LeavesKnown(rounds: seq<Round>, u: nat, told: seq<Option<nat>>, q: nat, l: nat)
    requires RoundsOk(rounds) && q <= |rounds| && q <= |told|
    ensures LeafNode(l) in ClientAfter(rounds, u, told, q).privs ==>
      ClientAfter(rounds, u, told, q).privs[LeafNode(l)] == IdentityKey(u)
    ensures LeafNode(l) in ClientAfter(rounds, u, told, q).privs <==> ToldBy(told, l, q)
  {
    if q > 0 {
      LeavesKnown(rounds, u, told, q - 1, l);
      LeafKept(rounds, u, told, q, l);
      ToldNext(told, l, q);
    }
  }

  lemma ToldNext(told: seq<Option<nat>>, l: nat, q: nat)
    requires 0 < q <= |told|
    ensures ToldBy(told, l, q) <==> ToldBy(told, l, q - 1) || told[q - 1] == Some(l)
  {
    if told[q - 1] == Some(l) {
      assert ToldBy(told, l, q);
    }
    if i :| 0 <= i < q && told[i] == Some(l) {
      assert i < q - 1 ==> ToldBy(told, l, q - 1);
    }
  }

  lemma EnteringLeaf(rounds: seq<Round>, u: nat, told: seq<Option<nat>>, q: nat, l: nat)
    requires RoundsOk(rounds) && 0 < q <= |rounds| && q <= |told|
    ensures LeafNode(l) in Entering(rounds, u, told, q) <==> ToldBy(told, l, q)
    ensures LeafNode(l) in Entering(rounds, u, told, q) ==> Entering(rounds, u, told, q)[LeafNode(l)] == IdentityKey(u)
  {
    LeavesKnown(rounds, u, told, q - 1, l);
    ToldNext(told, l, q);
  }

  // ------------------------------------------------------------------ delivery

  // Holding all keys above a leaf after one commit, a client enters the next one with them.
  lemma EnteringHolds(rounds: seq<Round>, u: nat, told: seq<Option<nat>>, q: nat, l: nat)
    requires RoundsOk(rounds) && 1 < q <= |rounds| && q <= |told|
    requires Holds(ClientAfter(rounds, u, told, q - 1).privs, rounds[q - 2].After(), l)
    ensures Holds(Entering(rounds, u, told, q), rounds[q - 1].base, l)
  {
    SettledBases(rounds, q);
  }

  lemma BaseOf(rounds: seq<Round>, q: nat)
    requires RoundsOk(rounds) && 0 < q <= |rounds|
    ensures rounds[q - 1].base == if q == 1 then map[] else rounds[q - 2].After()
  {
    SettledBases(rounds, q);
  }

  lemma LeavesAfter(rounds: seq<Round>, q: nat, l: nat)
    requires RoundsOk(rounds) && 0 < q <= |rounds|
    ensures SameAt(LeafNode(l), rounds[q - 1].st.pubs, rounds[q - 1].After())
  {
    SettledBases(rounds, q);
    NextIsSettled(rounds[q - 1]);
  }

  lemma SeatBefore(rounds: seq<Round>, u: nat, q: nat, l: nat)
    requires RoundsOk(rounds) && 0 < q <= |rounds| && Seated(u, l, rounds[q - 1].base)
    ensures q > 1 && Seated(u, l, rounds[q - 2].st.pubs)
  {
    BaseOf(rounds, q);
    if q > 1 {
      LeavesAfter(rounds, q - 1, l);
    }
  }

  lemma MemberStep(rounds: seq<Round>, u: nat, told: seq<Option<nat>>, q: nat, l: nat)
    requires RoundsOk(rounds) && 0 < q <= |rounds| && q <= |told|
    requires Seated(u, l, rounds[q - 1].st.pubs) && ToldBy(told, l, q)
    requires Seated(u, l, rounds[q - 1].base) ==> Holds(Entering(rounds, u, told, q), rounds[q - 1].base, l)
    ensures Holds(ClientAfter(rounds, u, told, q).privs, rounds[q - 1].After(), l)
    ensures SecretFrom(ClientAfter(rounds, u, told, q).privs, rounds[q - 1].commit) == Some(rounds[q - 1].secret)
  {
    EnteringLeaf(rounds, u, told, q, l);
    EnteringFinishes(rounds, u, told, q);
    SettledBases(rounds, q);
    MemberReceives(rounds[q - 1], Entering(rounds, u, told, q), u, l, ClientAfter(rounds, u, told, q).privs);
  }

  lemma EpochsOf(c: ClientTree, commit: Commit, myLeaf: Option<nat>, identity: Key)
    ensures var d := Processed(c, commit, myLeaf, identity);
      var secret := SecretFrom(d.privs, commit);
      d.epochs == if secret.Some? then c.epochs[commit.epoch := secret.value] else c.epochs
  {
  }

  lemma RoundEpoch(rounds: seq<Round>, q: nat)
    requires RoundsOk(rounds) && 0 < q <= |rounds|
    ensures rounds[q - 1].commit.epoch == q
  {
    assert RoundOk(rounds, q - 1);
  }

  lemma EpochsStep(rounds: seq<Round>, u: nat, told: seq<Option<nat>>, q: nat)
    requires RoundsOk(rounds) && 0 < q <= |rounds| && q <= |told|
    ensures var secret := SecretFrom(ClientAfter(rounds, u, told, q).privs, rounds[q - 1].commit);
      ClientAfter(rounds, u, told, q).epochs ==
      if secret.Some? then ClientAfter(rounds, u, told, q - 1).epochs[q := secret.value]
      else ClientAfter(rounds, u, told, q - 1).epochs
  {
    RoundEpoch(rounds, q);
    EpochsOf(ClientAfter(rounds, u, told, q - 1), rounds[q - 1].commit, told[q - 1], IdentityKey(u));
  }

  // What a client has stored, or not, for an epoch it has processed is final.
  lemma {:induction false} EpochIsFinal(rounds: seq<Round>, u: nat, told: seq<Option<nat>>, e: nat, q: nat)
    requires RoundsOk(rounds) && e <= q <= |rounds| && q <= |told|
    ensures SameEpoch(e, ClientAfter(rounds, u, told, q).epochs, ClientAfter(rounds, u, told, e).epochs)
    decreases q
  {
    if e < q {
      EpochsStep(rounds, u, told, q);
      EpochIsFinal(rounds, u, told, e, q - 1);
    }
  }

  ghost predicate SameEpoch(e: nat, a: map<nat, nat>, b: map<nat, nat>)
  {
    (e in a <==> e in b) && (e in a ==> a[e] == b[e])
  }

  lemma {:induction false} EpochsSoFar(rounds: seq<Round>, u: nat, told: seq<Option<nat>>, q: nat, e: nat)
    requires RoundsOk(rounds) && q <= |rounds| && q <= |told| && q < e
    ensures e !in ClientAfter(rounds, u, told, q).epochs
  {
    if q > 0 {
      EpochsStep(rounds, u, told, q);
      EpochsSoFar(rounds, u, told, q - 1, e);
    }
  }

  // ------------------------------------------------------------------ keys of a run

  ghost predicate RoundKey(rounds: seq<Round>, q: nat, key: Key)
    requires q <= |rounds|
  {
    exists i, n :: 0 <= i < q && n in rounds[i].keys && rounds[i].keys[n] == key
  }

  // Generated keys are distinct over the whole run, and no identity keys.
  ghost predicate FreshKeys(rounds: seq<Round>)
  {
    forall i {:trigger FreshRound(rounds, i)} :: 0 <= i < |rounds| ==> FreshRound(rounds, i)
  }

  ghost predicate FreshRound(rounds: seq<Round>, i: nat)
    requires i < |rounds|
  {
    var keys := rounds[i].keys;
    (forall n :: n in keys ==> keys[n].NodeKey? && !RoundKey(rounds, i, keys[n])) &&
    (forall n, m :: n in keys && m in keys && n != m ==> keys[n] != keys[m])
  }

  // A key of an inner node comes from the previous commit, or was there before it.
  lemma InnerKeyOrigin(rounds: seq<Round>, q: nat, x: nat)
    requires RoundsOk(rounds) && q < |rounds| && x in rounds[q].st.pubs && Level(x) > 0
    ensures x in rounds[q].base && rounds[q].base[x] == rounds[q].st.pubs[x]
    ensures q > 0 && if x in rounds[q - 1].keys then rounds[q - 1].keys[x] == rounds[q].st.pubs[x]
                     else x in rounds[q - 1].st.pubs && rounds[q - 1].st.pubs[x] == rounds[q].st.pubs[x]
  {
    SettledBases(rounds, q + 1);
    assert SameAt(x, rounds[q].base, rounds[q].st.pubs);
  }

  lemma LeafKeyOrigin(rounds: seq<Round>, q: nat, x: nat)
    requires RoundsOk(rounds) && q < |rounds| && x in rounds[q].st.pubs && Level(x) == 0
    ensures rounds[q].st.pubs[x].IdentityKey?
  {
    SettledBases(rounds, q + 1);
    assert LeafNode(x / 2) == x && IsOccupied(x / 2, rounds[q].st.pubs);
  }

  // All keys in the tree are identity keys or keys of earlier commits.
  lemma {:induction false} TreeKeysKnown(rounds: seq<Round>, q: nat, x: nat)
    requires RoundsOk(rounds) && q < |rounds| && x in rounds[q].st.pubs
    ensures rounds[q].st.pubs[x].IdentityKey? || RoundKey(rounds, q, rounds[q].st.pubs[x])
  {
    if Level(x) == 0 {
      LeafKeyOrigin(rounds, q, x);
    } else {
      InnerKeyOrigin(rounds, q, x);
      var p := rounds[q - 1];
      if x in p.keys {
        assert RoundKey(rounds, q, p.keys[x]);
      } else {
        TreeKeysKnown(rounds, q - 1, x);
        RoundKeyLater(rounds, q - 1, p.st.pubs[x]);
      }
    }
  }

  lemma RoundKeyLater(rounds: seq<Round>, q: nat, key: Key)
    requires q < |rounds|
    ensures RoundKey(rounds, q, key) ==> RoundKey(rounds, q + 1, key)
  {
    if RoundKey(rounds, q, key) {
      var i, n :| 0 <= i < q && n in rounds[i].keys && rounds[i].keys[n] == key;
      assert RoundKey(rounds, q + 1, key);
    }
  }

  ghost predicate PrivsKnown(rounds: seq<Round>, u: nat, privs: map<nat, Key>, q: nat)
    requires q <= |rounds|
  {
    forall x :: x in privs ==> privs[x] == IdentityKey(u) || RoundKey(rounds, q, privs[x])
  }

  lemma KeysAreNew(rounds: seq<Round>, u: nat, privs: map<nat, Key>, q: nat)
    requires RoundsOk(rounds) && q < |rounds| && FreshKeys(rounds) && PrivsKnown(rounds, u, privs, q)
    ensures NewKeys(rounds[q].Sent(), privs)
  {
    var r := rounds[q];
    assert FreshRound(rounds, q);
    forall n, x | n in r.keys && x in r.st.pubs
      ensures r.st.pubs[x] != r.keys[n]
    {
      TreeKeysKnown(rounds, q, x);
    }
  }

  lemma BaseKeysAreNodeKeys(rounds: seq<Round>, q: nat)
    requires RoundsOk(rounds) && FreshKeys(rounds) && q < |rounds|
    ensures forall n :: n in rounds[q].base && Level(n) > 0 ==> rounds[q].base[n].NodeKey?
  {
    SettledBases(rounds, q + 1);
    forall n | n in rounds[q].base && Level(n) > 0
      ensures rounds[q].base[n].NodeKey?
    {
      assert SameAt(n, rounds[q].base, rounds[q].st.pubs);
      InnerKeysAreNodeKeys(rounds, q, n);
    }
  }

  lemma BaseIsLast(rounds: seq<Round>, q: nat)
    requires RoundsOk(rounds) && 0 < q <= |rounds|
    ensures rounds[q - 1].base == Base(rounds[..q - 1])
  {
    assert RoundOk(rounds, q - 1);
  }

  lemma {:induction false} InnerKeysAreNodeKeys(rounds: seq<Round>, q: nat, x: nat)
    requires RoundsOk(rounds) && FreshKeys(rounds) && q < |rounds| && x in rounds[q].st.pubs && Level(x) > 0
    ensures rounds[q].st.pubs[x].NodeKey?
  {
    InnerKeyOrigin(rounds, q, x);
    assert FreshRound(rounds, q - 1);
    if x !in rounds[q - 1].keys {
      InnerKeysAreNodeKeys(rounds, q - 1, x);
    }
  }

  // ------------------------------------------------------------------ footholds over a run

  // The foothold of user u for leaf l after the first q commits.
  ghost function Foothold(rounds: seq<Round>, u: nat, told: seq<Option<nat>>, l: nat, q: nat): Option<nat>
    requires q <= |rounds| && q <= |told|
  {
    if q == 0 then None
    else NextFoothold(rounds[q - 1], u, l, ToldBy(told, l, q), Foothold(rounds, u, told, l, q - 1))
  }

  ghost function HoldingAt(rounds: seq<Round>, u: nat, told: seq<Option<nat>>, q: nat): Holding
    requires q <= |rounds| && q <= |told|
  {
    l => Foothold(rounds, u, told, l, q)
  }

  ghost predicate ExactAt(rounds: seq<Round>, u: nat, told: seq<Option<nat>>, q: nat)
    requires q <= |rounds| && q <= |told|
  {
    Exact(HoldingAt(rounds, u, told, q), ClientAfter(rounds, u, told, q).privs, Base(rounds[..q]), u) &&
    PrivsKnown(rounds, u, ClientAfter(rounds, u, told, q).privs, q)
  }

  lemma ExactTransfers(a: Holding, b: Holding, privs: map<nat, Key>, pubs: map<nat, Key>, u: nat)
    requires Exact(a, privs, pubs, u) && forall l: nat :: a(l) == b(l)
    ensures Exact(b, privs, pubs, u)
  {
    forall l: nat | b(l).Some? ensures StandsAt(b(l).value, l, privs, pubs, u) {
      assert a(l).Some?;
    }
    forall l: nat, n: nat ensures ReachedBy(a, l, n) <==> ReachedBy(b, l, n) {
    }
    forall x, n | x in privs && n in pubs && Level(n) > 0 && privs[x] == pubs[n] ensures Reached(b, n) {
      assert Reached(a, n);
      var l: nat :| ReachedBy(a, l, n);
      assert ReachedBy(b, l, n);
    }
  }

  lemma ExactWithLeaf(foot: Holding, privs: map<nat, Key>, pubs: map<nat, Key>, u: nat, leaf: Option<nat>)
    requires Exact(foot, privs, pubs, u)
    requires forall n :: n in pubs && Level(n) > 0 ==> pubs[n].NodeKey?
    ensures Exact(foot, WithLeaf(privs, leaf, IdentityKey(u)), pubs, u)
  {
    var more := WithLeaf(privs, leaf, IdentityKey(u));
    if leaf.Some? {
      LeafCoordinates(leaf.value);
    }
    forall l: nat | foot(l).Some? ensures StandsAt(foot(l).value, l, more, pubs, u) {
      assert StandsAt(foot(l).value, l, privs, pubs, u);
    }
    forall l: nat, n: nat | n in pubs && Level(n) > 0 && ReachedBy(foot, l, n) ensures SameAt(n, more, pubs) {
      assert SameAt(n, privs, pubs);
    }
  }

  lemma EnteringExact(rounds: seq<Round>, u: nat, told: seq<Option<nat>>, q: nat)
    requires RoundsOk(rounds) && FreshKeys(rounds) && 0 < q <= |rounds| && q <= |told| && ExactAt(rounds, u, told, q - 1)
    ensures Enters(rounds[q - 1], u, HoldingAt(rounds, u, told, q - 1), Entering(rounds, u, told, q))
    ensures PrivsKnown(rounds, u, Entering(rounds, u, told, q), q - 1)
  {
    BaseIsLast(rounds, q);
    BaseKeysAreNodeKeys(rounds, q - 1);
    ExactWithLeaf(HoldingAt(rounds, u, told, q - 1), ClientAfter(rounds, u, told, q - 1).privs, rounds[q - 1].base, u, told[q - 1]);
    KeysAreNew(rounds, u, Entering(rounds, u, told, q), q - 1);
    SettledBases(rounds, q);
  }

  lemma NextHoldingIs(rounds: seq<Round>, u: nat, told: seq<Option<nat>>, q: nat, l: nat)
    requires RoundsOk(rounds) && 0 < q <= |rounds| && q <= |told|
    ensures NextHolding(rounds[q - 1], u, Entering(rounds, u, told, q), HoldingAt(rounds, u, told, q - 1))(l) ==
      HoldingAt(rounds, u, told, q)(l)
  {
    EnteringLeaf(rounds, u, told, q, l);
  }

  lemma CommitExact(rounds: seq<Round>, u: nat, told: seq<Option<nat>>, q: nat)
    requires RoundsOk(rounds) && FreshKeys(rounds) && 0 < q <= |rounds| && q <= |told| && ExactAt(rounds, u, told, q - 1)
    ensures Exact(NextHolding(rounds[q - 1], u, Entering(rounds, u, told, q), HoldingAt(rounds, u, told, q - 1)),
                  ClientAfter(rounds, u, told, q).privs, rounds[q - 1].After(), u)
  {
    EnteringExact(rounds, u, told, q);
    EnteringFinishes(rounds, u, told, q);
    CommitIsExact(rounds[q - 1], u, HoldingAt(rounds, u, told, q - 1), Entering(rounds, u, told, q),
                  ClientAfter(rounds, u, told, q).privs);
  }

  lemma ExactStep(rounds: seq<Round>, u: nat, told: seq<Option<nat>>, q: nat)
    requires RoundsOk(rounds) && FreshKeys(rounds) && 0 < q <= |rounds| && q <= |told| && ExactAt(rounds, u, told, q - 1)
    ensures Exact(HoldingAt(rounds, u, told, q), ClientAfter(rounds, u, told, q).privs, Base(rounds[..q]), u)
  {
    var r, foot, privs := rounds[q - 1], HoldingAt(rounds, u, told, q - 1), Entering(rounds, u, told, q);
    CommitExact(rounds, u, told, q);
    forall l: nat ensures NextHolding(r, u, privs, foot)(l) == HoldingAt(rounds, u, told, q)(l) {
      NextHoldingIs(rounds, u, told, q, l);
    }
    assert Base(rounds[..q]) == r.After() by {
      assert rounds[..q][q - 1] == r;
    }
    ExactTransfers(NextHolding(r, u, privs, foot), HoldingAt(rounds, u, told, q),
                   ClientAfter(rounds, u, told, q).privs, r.After(), u);
  }

  lemma KnownStep(rounds: seq<Round>, u: nat, told: seq<Option<nat>>, q: nat)
    requires RoundsOk(rounds) && FreshKeys(rounds) && 0 < q <= |rounds| && q <= |told| && ExactAt(rounds, u, told, q - 1)
    ensures PrivsKnown(rounds, u, ClientAfter(rounds, u, told, q).privs, q)
  {
    var privs, after := Entering(rounds, u, told, q), ClientAfter(rounds, u, told, q).privs;
    EnteringExact(rounds, u, told, q);
    EnteringFinishes(rounds, u, told, q);
    KeysKeptOrNew(rounds[q - 1], u, HoldingAt(rounds, u, told, q - 1), privs, after);
    forall x | x in after
      ensures after[x] == IdentityKey(u) || RoundKey(rounds, q, after[x])
    {
      if SameAt(x, after, rounds[q - 1].keys) {
        assert RoundKey(rounds, q, rounds[q - 1].keys[x]);
      } else {
        RoundKeyLater(rounds, q - 1, privs[x]);
      }
    }
  }

  // In every run, whatever the client was told and when, its footholds say exactly which keys of
  // the tree it holds.
  lemma {:induction false} FootholdsAreExact(rounds: seq<Round>, u: nat, told: seq<Option<nat>>, q: nat)
    requires RoundsOk(rounds) && FreshKeys(rounds) && q <= |rounds| && q <= |told|
    ensures ExactAt(rounds, u, told, q)
  {
    if q == 0 {
      NewClientExact(rounds, u, told);
    } else {
      FootholdsAreExact(rounds, u, told, q - 1);
      ExactNext(rounds, u, told, q);
    }
  }

  lemma ExactNext(rounds: seq<Round>, u: nat, told: seq<Option<nat>>, q: nat)
    requires RoundsOk(rounds) && FreshKeys(rounds) && 0 < q <= |rounds| && q <= |told| && ExactAt(rounds, u, told, q - 1)
    ensures ExactAt(rounds, u, told, q)
  {
    KnownStep(rounds, u, told, q);
    ExactStep(rounds, u, told, q);
  }

  lemma NewClientExact(rounds: seq<Round>, u: nat, told: seq<Option<nat>>)
    ensures ExactAt(rounds, u, told, 0)
  {
    assert ClientAfter(rounds, u, told, 0).privs == map[] && Base(rounds[..0]) == map[];
  }

  ghost predicate HasFoothold(rounds: seq<Round>, u: nat, told: seq<Option<nat>>, q: nat)
    requires q <= |rounds| && q <= |told|
  {
    exists l: nat :: Foothold(rounds, u, told, l, q).Some?
  }

  // The secret of a commit is obtained if and only if the user has a foothold after it.
  lemma SecretIffHasFoothold(rounds: seq<Round>, u: nat, told: seq<Option<nat>>, q: nat)
    requires RoundsOk(rounds) && FreshKeys(rounds) && 0 < q <= |rounds| && q <= |told|
    ensures SecretFrom(ClientAfter(rounds, u, told, q).privs, rounds[q - 1].commit) ==
      if HasFoothold(rounds, u, told, q) then Some(rounds[q - 1].secret) else None
  {
    var r, foot, privs := rounds[q - 1], HoldingAt(rounds, u, told, q - 1), Entering(rounds, u, told, q);
    FootholdsAreExact(rounds, u, told, q - 1);
    EnteringExact(rounds, u, told, q);
    EnteringFinishes(rounds, u, told, q);
    SecretIffFoothold(r, u, foot, privs, ClientAfter(rounds, u, told, q).privs);
    forall l: nat ensures NextHolding(r, u, privs, foot)(l) == Foothold(rounds, u, told, l, q) {
      NextHoldingIs(rounds, u, told, q, l);
    }
  }

  // So are the epochs in the client's store, for good.
  lemma EpochIffHadFoothold(rounds: seq<Round>, u: nat, told: seq<Option<nat>>, e: nat, q: nat)
    requires RoundsOk(rounds) && FreshKeys(rounds) && 0 < e <= q <= |rounds| && q <= |told|
    ensures e in ClientAfter(rounds, u, told, q).epochs <==> HasFoothold(rounds, u, told, e)
    ensures HasFoothold(rounds, u, told, e) ==> ClientAfter(rounds, u, told, q).epochs[e] == rounds[e - 1].secret
  {
    SecretIffHasFoothold(rounds, u, told, e);
    EpochsStep(rounds, u, told, e);
    EpochsSoFar(rounds, u, told, e - 1, e);
    EpochIsFinal(rounds, u, told, e, q);
  }

  // ------------------------------------------------------------------ footholds in seats

  // Since commit k the user has sat on the leaf and known it, and commit k renewed all keys above it.
  ghost predicate SeatedSince(rounds: seq<Round>, u: nat, told: seq<Option<nat>>, l: nat, k: nat, q: nat)
  {
    0 < k <= q <= |rounds| && q <= |told| && (forall i :: k - 1 <= i < q ==> Seated(u, l, rounds[i].st.pubs)) &&
    ToldBy(told, l, k) && RenewsAbove(rounds[k - 1], l)
  }

  ghost predicate IsSeated(rounds: seq<Round>, u: nat, told: seq<Option<nat>>, l: nat, q: nat)
  {
    exists k: nat :: SeatedSince(rounds, u, told, l, k, q)
  }

  // A foothold on the leaf itself is a seat that the client has known since such a commit.
  lemma {:induction false} SeatIsFoothold(rounds: seq<Round>, u: nat, told: seq<Option<nat>>, l: nat, q: nat)
    requires q <= |rounds| && q <= |told|
    ensures Foothold(rounds, u, told, l, q) == Some(LeafNode(l)) <==> IsSeated(rounds, u, told, l, q)
  {
    if q > 0 {
      var r := rounds[q - 1];
      SeatIsFoothold(rounds, u, told, l, q - 1);
      if Foothold(rounds, u, told, l, q) == Some(LeafNode(l)) {
        LeafIsSeat(rounds, u, told, l, q);
      }
      if k: nat :| SeatedSince(rounds, u, told, l, k, q) {
        if k < q {
          assert SeatedSince(rounds, u, told, l, k, q - 1);
          ToldStays(told, l, k, q);
        }
      }
    }
  }

  lemma ToldStays(told: seq<Option<nat>>, l: nat, k: nat, q: nat)
    requires k <= q <= |told| && ToldBy(told, l, k)
    ensures ToldBy(told, l, q)
  {
  }

  lemma LeafIsSeat(rounds: seq<Round>, u: nat, told: seq<Option<nat>>, l: nat, q: nat)
    requires 0 < q <= |rounds| && q <= |told| && Foothold(rounds, u, told, l, q) == Some(LeafNode(l))
    requires Foothold(rounds, u, told, l, q - 1) == Some(LeafNode(l)) ==> IsSeated(rounds, u, told, l, q - 1)
    ensures IsSeated(rounds, u, told, l, q)
  {
    var r, f := rounds[q - 1], Foothold(rounds, u, told, l, q - 1);
    LeafCoordinates(l);
    InnerOnly(r, l, f);
    assert InSeatBy(r, u, l, ToldBy(told, l, q), f);
    if RenewsAbove(r, l) {
      assert SeatedSince(rounds, u, told, l, q, q);
    } else {
      var k: nat :| SeatedSince(rounds, u, told, l, k, q - 1);
      assert SeatedSince(rounds, u, told, l, k, q);
    }
  }

  // Without a seat a foothold is an inner node.
  lemma InnerOnly(r: Round, l: nat, f: Option<nat>)
    ensures Moved(r, l, Grip(r, l, f)).Some? ==> Level(Moved(r, l, Grip(r, l, f)).value) > 0
  {
    LowestIs(r.st.pubs.Keys, l, 1, Depth(r.st.capacity));
    LowestIs(Elements(r.plan.path), l, 1, Depth(r.st.capacity));
  }

  // The first commit of a seat renews all keys above its leaf.
  lemma FirstOfSeatRenews(r: Round, u: nat, l: nat)
    requires r.Valid() && Seated(u, l, r.st.pubs) && !Seated(u, l, r.base)
    ensures RenewsAbove(r, l)
  {
    forall n | n in r.After() && Level(n) > 0 && Under(l, n)
      ensures n in r.plan.path
    {
      if n !in r.plan.path {
        InnerStored(r, n);
        ChangedAbove(r, l, n);
      }
    }
  }

  // A client that was told a leaf by the first commit of its seat has a foothold throughout the seat.
  lemma ToldInTime(rounds: seq<Round>, u: nat, told: seq<Option<nat>>, l: nat, k: nat, q: nat)
    requires RoundsOk(rounds) && 0 < k <= q <= |rounds| && q <= |told| && ToldBy(told, l, k)
    requires forall i :: k - 1 <= i < q ==> Seated(u, l, rounds[i].st.pubs)
    requires !Seated(u, l, rounds[k - 1].base)
    ensures Foothold(rounds, u, told, l, q) == Some(LeafNode(l))
  {
    SettledBases(rounds, k);
    FirstOfSeatRenews(rounds[k - 1], u, l);
    assert SeatedSince(rounds, u, told, l, k, q);
    SeatIsFoothold(rounds, u, told, l, q);
  }

  // Without a seat that it was told about a client never gains a foothold.
  lemma {:induction false} NeverToldInSeat(rounds: seq<Round>, u: nat, told: seq<Option<nat>>, l: nat, q: nat)
    requires q <= |rounds| && q <= |told|
    requires forall i :: 0 <= i < q && Seated(u, l, rounds[i].st.pubs) ==> !ToldBy(told, l, i + 1)
    ensures Foothold(rounds, u, told, l, q).None?
  {
    if q > 0 {
      NeverToldInSeat(rounds, u, told, l, q - 1);
    }
  }

  // The user has sat on the leaf since commit k, and nowhere before or besides.
  ghost predicate OnlySeat(rounds: seq<Round>, u: nat, l: nat, k: nat, e: nat)
  {
    0 < k <= e <= |rounds| &&
    forall i: nat, m: nat {:trigger Seated(u, m, rounds[i].st.pubs)} ::
      i < e ==> (Seated(u, m, rounds[i].st.pubs) <==> m == l && k - 1 <= i)
  }

  // Throughout its only seat a user stands on the leaf itself or has no foothold.
  lemma {:induction false} OnlySeatFoothold(rounds: seq<Round>, u: nat, told: seq<Option<nat>>, l: nat, k: nat, e: nat, q: nat)
    requires OnlySeat(rounds, u, l, k, e) && q <= e <= |told|
    ensures Foothold(rounds, u, told, l, q) in {None, Some(LeafNode(l))}
    ensures Foothold(rounds, u, told, l, q).Some? ==> k <= q && ToldBy(told, l, q)
  {
    if q > 0 {
      OnlySeatFoothold(rounds, u, told, l, k, e, q - 1);
      assert Seated(u, l, rounds[q - 1].st.pubs) <==> k <= q;
    }
  }

  // A user with a single seat has the secret of a commit exactly if it was told its leaf, in that
  // seat or before, by some commit up to this one that renewed all keys above the leaf.
  lemma SecretIffToldInSeat(rounds: seq<Round>, u: nat, told: seq<Option<nat>>, l: nat, k: nat, e: nat, q: nat)
    requires RoundsOk(rounds) && FreshKeys(rounds) && e <= q <= |rounds| && q <= |told| && OnlySeat(rounds, u, l, k, e)
    ensures e in ClientAfter(rounds, u, told, q).epochs <==> IsSeated(rounds, u, told, l, e)
  {
    EpochIffHadFoothold(rounds, u, told, e, q);
    SeatIsFoothold(rounds, u, told, l, e);
    OnlySeatFoothold(rounds, u, told, l, k, e, e);
    forall m: nat | m != l ensures Foothold(rounds, u, told, m, e).None? {
      NeverToldInSeat(rounds, u, told, m, e);
    }
  }
}
