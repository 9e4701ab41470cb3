// In-place reconciliation of a live tree with freshly parsed markup.  A node carries the
// identity of its object; a child list is changed step by step with a moving cursor.
module Morph {
  import opened KeyTree

  datatype Node =
    | Text(id: nat, value: string)
    | Element(id: nat, tag: string, attrs: map<string, string>, children: seq<Node>)

  const MARK := "data-mk"

  function KeyOf(n: Node): Option<string>
  {
    if n.Element? && MARK in n.attrs && n.attrs[MARK] != "" then Some(n.attrs[MARK]) else None
  }

  predicate SameKind(a: Node, b: Node)
  {
    if a.Text? then b.Text? else b.Element? && a.tag == b.tag
  }

  // Equal up to the identities of the nodes, at every depth.
  ghost predicate SameTree(a: Node, b: Node)
    decreases b
  {
    match b
    case Text(_, value) => a.Text? && a.value == value
    case Element(_, tag, attrs, children) =>
      a.Element? && a.tag == tag && a.attrs == attrs && |a.children| == |children| &&
      forall i :: 0 <= i < |children| ==> SameTree(a.children[i], children[i])
  }

  // Sibling keys are different at every depth.
  ghost predicate UniqueKeys(children: seq<Node>)
  {
    (forall i, j :: 0 <= i < j < |children| && KeyOf(children[i]).Some? ==> KeyOf(children[i]) != KeyOf(children[j])) &&
    forall i :: 0 <= i < |children| && children[i].Element? ==> UniqueKeys(children[i].children)
  }

  // ------------------------------------------------------------------ what becomes of a node

  // The live node that a key stands for: the last one that carries it.
  function Candidate(live: seq<Node>, key: string): Option<Node>
  {
    if live == [] then None
    else if KeyOf(live[|live| - 1]) == Some(key) then Some(live[|live| - 1])
    else Candidate(live[..|live| - 1], key)
  }

  // The same object, with the contents of the new node.
  ghost predicate Updated(from: Node, target: Node, r: Node)
    decreases target, 1
  {
    SameKind(from, target) && r.id == from.id &&
    match target
    case Text(_, value) => r == Text(from.id, value)
    case Element(_, tag, attrs, children) =>
      r.Element? && r.tag == tag && r.attrs == attrs && Reconciled(from.children, children, r.children)
  }

  // A keyed node is the object that had the key, if it has the same tag; otherwise the new one.
  // A node without a key may take the place of a live one without a key.
  ghost predicate Placed(live: seq<Node>, wanted: Node, r: Node)
    decreases wanted, 2
  {
    match KeyOf(wanted)
    case Some(key) =>
      (match Candidate(live, key)
       case None => r == wanted
       case Some(had) => if SameKind(had, wanted) then Updated(had, wanted, r) else r == wanted)
    case None =>
      r == wanted || exists n :: n in live && KeyOf(n).None? && Updated(n, wanted, r)
  }

  ghost predicate Reconciled(live: seq<Node>, source: seq<Node>, r: seq<Node>)
    decreases source, 0
  {
    |r| == |source| && forall i :: 0 <= i < |source| ==> Placed(live, source[i], r[i])
  }

  // Two trees whose nodes have the same kinds and keys, position by position at every depth.
  ghost predicate SameShape(a: Node, b: Node)
    decreases b, 1
  {
    SameKind(a, b) && KeyOf(a) == KeyOf(b) && (b.Element? ==> SameShapes(a.children, b.children))
  }

  ghost predicate SameShapes(live: seq<Node>, source: seq<Node>)
    decreases source, 0
  {
    |live| == |source| && forall i :: 0 <= i < |source| ==> SameShape(live[i], source[i])
  }

  // The same objects in the same places at every depth.
  ghost predicate Kept(a: Node, r: Node)
    decreases a
  {
    a.id == r.id &&
    match a
    case Text(_, _) => r.Text?
    case Element(_, _, _, children) =>
      r.Element? && |r.children| == |children| && forall i :: 0 <= i < |children| ==> Kept(children[i], r.children[i])
  }

  // ------------------------------------------------------------------ identities

  ghost function IdsOf(n: Node): set<nat>
    decreases n
  {
    {n.id} + if n.Element? then Ids(n.children) else {}
  }

  ghost function Ids(nodes: seq<Node>): set<nat>
    decreases nodes
  {
    set i: nat, x | i < |nodes| && x in IdsOf(nodes[i]) :: x
  }

  // No object occurs twice, at any depth.
  ghost predicate ApartWithin(n: Node)
    decreases n
  {
    n.Element? ==> n.id !in Ids(n.children) && Apart(n.children)
  }

  ghost predicate Apart(nodes: seq<Node>)
    decreases nodes
  {
    (forall i, j :: 0 <= i < j < |nodes| ==> IdsOf(nodes[i]) !! IdsOf(nodes[j])) &&
    forall i :: 0 <= i < |nodes| ==> ApartWithin(nodes[i])
  }

  lemma IdsAt(nodes: seq<Node>, i: nat)
    requires i < |nodes|
    ensures IdsOf(nodes[i]) <= Ids(nodes)
  {
  }

  lemma IdsBelong(nodes: seq<Node>, x: nat) returns (i: nat)
    requires x in Ids(nodes)
    ensures i < |nodes| && x in IdsOf(nodes[i])
  {
    i :| i < |nodes| && x in IdsOf(nodes[i]);
  }

  // Node k of the list is node from[k] of another one, or the one node that is not among them.
  ghost predicate Rearranges(r: seq<Node>, n: Node, s: seq<Node>, from: seq<Option<nat>>)
  {
    |from| == |s| && (forall j, k :: 0 <= j < k < |from| ==> from[j] != from[k]) &&
    forall k :: 0 <= k < |s| ==> if from[k].Some? then from[k].value < |r| && s[k] == r[from[k].value] else s[k] == n
  }

  lemma RearrangedPair(r: seq<Node>, n: Node, s: seq<Node>, from: seq<Option<nat>>, j: nat, k: nat)
    requires Rearranges(r, n, s, from) && Apart(r) && j < k < |s|
    requires forall m :: 0 <= m < |s| && from[m].Some? ==> IdsOf(s[m]) !! IdsOf(n)
    ensures IdsOf(s[j]) !! IdsOf(s[k])
  {
    assert from[j] != from[k];
    if from[j].Some? && from[k].Some? {
      var a, b := from[j].value, from[k].value;
      assert if a < b then IdsOf(r[a]) !! IdsOf(r[b]) else IdsOf(r[b]) !! IdsOf(r[a]);
    }
  }

  lemma RearrangedApart(r: seq<Node>, n: Node, s: seq<Node>, from: seq<Option<nat>>)
    requires Rearranges(r, n, s, from) && Apart(r) && ApartWithin(n)
    requires forall m :: 0 <= m < |s| && from[m].Some? ==> IdsOf(s[m]) !! IdsOf(n)
    ensures Apart(s) && Ids(s) <= Ids(r) + IdsOf(n)
  {
    forall j, k | 0 <= j < k < |s| ensures IdsOf(s[j]) !! IdsOf(s[k]) {
      RearrangedPair(r, n, s, from, j, k);
    }
    forall x | x in Ids(s) ensures x in Ids(r) + IdsOf(n) {
      var k := IdsBelong(s, x);
      if from[k].Some? {
        IdsAt(r, from[k].value);
      }
    }
  }

  function InsertedFrom(c: nat, k: nat): Option<nat>
  {
    if k < c then Some(k) else if k == c then None else Some(k - 1)
  }

  lemma InsertedAt(r: seq<Node>, c: nat, n: Node, s: seq<Node>, k: nat)
    requires c <= |r| && s == r[..c] + [n] + r[c..] && k < |s|
    ensures k == c ==> s[k] == n
    ensures k != c ==> InsertedFrom(c, k).Some? && InsertedFrom(c, k).value < |r| && s[k] == r[InsertedFrom(c, k).value]
  {
  }

  lemma InsertedApart(r: seq<Node>, c: nat, n: Node, s: seq<Node>)
    requires c <= |r| && s == r[..c] + [n] + r[c..] && Apart(r) && ApartWithin(n) && Ids(r) !! IdsOf(n)
    ensures Apart(s) && Ids(s) <= Ids(r) + IdsOf(n)
  {
    var from := seq(|s|, k requires 0 <= k < |s| => InsertedFrom(c, k));
    assert Rearranges(r, n, s, from) by {
      forall k | 0 <= k < |s|
        ensures if from[k].Some? then from[k].value < |r| && s[k] == r[from[k].value] else s[k] == n
      {
        InsertedAt(r, c, n, s, k);
      }
    }
    forall k | 0 <= k < |s| && from[k].Some? ensures IdsOf(s[k]) !! IdsOf(n) {
      InsertedAt(r, c, n, s, k);
      IdsAt(r, from[k].value);
    }
    RearrangedApart(r, n, s, from);
  }

  function MovedFrom(c: nat, at: nat, k: nat): Option<nat>
  {
    if k < c then Some(k) else if k == c then None else if k <= at then Some(k - 1) else Some(k)
  }

  lemma MovedAt(r: seq<Node>, c: nat, at: nat, n: Node, s: seq<Node>, k: nat)
    requires c <= at < |r| && s == r[..c] + [n] + r[c..at] + r[at + 1..] && k < |s|
    ensures k == c ==> s[k] == n
    ensures k != c ==> MovedFrom(c, at, k).Some? && MovedFrom(c, at, k).value < |r|
    ensures k != c ==> MovedFrom(c, at, k).value != at && s[k] == r[MovedFrom(c, at, k).value]
  {
  }

  lemma MovedApart(r: seq<Node>, c: nat, at: nat, n: Node, s: seq<Node>)
    requires c <= at < |r| && s == r[..c] + [n] + r[c..at] + r[at + 1..] && Apart(r) && ApartWithin(n)
    requires forall j :: 0 <= j < |r| && j != at ==> IdsOf(r[j]) !! IdsOf(n)
    ensures Apart(s) && Ids(s) <= Ids(r) + IdsOf(n)
  {
    var from := seq(|s|, k requires 0 <= k < |s| => MovedFrom(c, at, k));
    assert Rearranges(r, n, s, from) by {
      forall k | 0 <= k < |s|
        ensures if from[k].Some? then from[k].value < |r| && s[k] == r[from[k].value] else s[k] == n
      {
        MovedAt(r, c, at, n, s, k);
      }
    }
    forall k | 0 <= k < |s| && from[k].Some? ensures IdsOf(s[k]) !! IdsOf(n) {
      MovedAt(r, c, at, n, s, k);
    }
    RearrangedApart(r, n, s, from);
  }

  // ------------------------------------------------------------------ syncAttrs

  method SyncAttrs(from: map<string, string>, target: map<string, string>) returns (attrs: map<string, string>)
    ensures attrs == target
  {
    attrs := from;
    var names := target.Keys;
    while names != {}
      invariant names <= target.Keys
      invariant forall a :: a in target && a !in names ==> a in attrs && attrs[a] == target[a]
      decreases |names|
    {
      var a :| a in names;
      if a !in attrs || attrs[a] != target[a] {
        attrs := attrs[a := target[a]];
      }
      names := names - {a};
    }
    var present := attrs.Keys;
    while present != {}
      invariant present <= attrs.Keys
      invariant forall a :: a in target ==> a in attrs && attrs[a] == target[a]
      invariant forall a :: a in attrs && a !in target ==> a in present
      decreases |present|
    {
      var a :| a in present;
      if a !in target {
        attrs := attrs - {a};
      }
      present := present - {a};
    }
  }

  // No object is used twice for an updated node, nor for a list of them.
  ghost predicate StaysApart(from: Node, target: Node, r: Node)
  {
    ApartWithin(from) && ApartWithin(target) && IdsOf(from) !! IdsOf(target) ==>
      ApartWithin(r) && IdsOf(r) <= IdsOf(from) + IdsOf(target)
  }

  ghost predicate Separate(live: seq<Node>, source: seq<Node>)
  {
    Apart(live) && Apart(source) && Ids(live) !! Ids(source)
  }

  lemma ChildrenSeparate(from: Node, target: Node)
    requires from.Element? && target.Element?
    requires ApartWithin(from) && ApartWithin(target) && IdsOf(from) !! IdsOf(target)
    ensures Separate(from.children, target.children)
  {
  }

  // ------------------------------------------------------------------ morph, morphChildren

  method MorphNode(from: Node, target: Node) returns (r: Node)
    requires SameKind(from, target) && (target.Element? ==> UniqueKeys(target.children))
    ensures Updated(from, target, r)
    ensures SameShape(from, target) ==> Kept(from, r)
    ensures StaysApart(from, target, r)
    decreases target, 1
  {
    match target {
      case Text(_, value) => r := Text(from.id, value);
      case Element(_, _, attrs, children) =>
        var synced := SyncAttrs(from.attrs, attrs);
        var kids := MorphChildren(from.children, children);
        r := Element(from.id, from.tag, synced, kids);
        if ApartWithin(from) && ApartWithin(target) && IdsOf(from) !! IdsOf(target) {
          ChildrenSeparate(from, target);
        }
    }
  }

  // The nodes from the cursor on are untouched, and those with a key still to come are among them.
  ghost predicate Ahead(live: seq<Node>, source: seq<Node>, i: nat, rest: seq<Node>)
  {
    (forall n :: n in rest ==> n in live) &&
    forall n :: n in live && KeyOf(n).Some? && (forall j :: 0 <= j < i && j < |source| ==> KeyOf(source[j]) != KeyOf(n)) ==> n in rest
  }

  lemma {:induction false} CandidateCarriesKey(live: seq<Node>, key: string)
    ensures var c := Candidate(live, key); c.Some? ==> c.value in live && KeyOf(c.value) == Some(key)
  {
    if live != [] {
      CandidateCarriesKey(live[..|live| - 1], key);
    }
  }

  // The candidate of the next key has not been placed yet.
  lemma CandidateAhead(live: seq<Node>, source: seq<Node>, i: nat, rest: seq<Node>, key: string)
    requires UniqueKeys(source) && i < |source| && KeyOf(source[i]) == Some(key) && Ahead(live, source, i, rest)
    ensures var c := Candidate(live, key); c.Some? ==> c.value in rest
  {
    CandidateCarriesKey(live, key);
    forall j | 0 <= j < i ensures KeyOf(source[j]) != Some(key) {
      assert KeyOf(source[j]).Some? ==> KeyOf(source[j]) != KeyOf(source[i]);
    }
  }

  // Taking out the node that is placed now leaves the others ahead.
  lemma AheadWithout(live: seq<Node>, source: seq<Node>, i: nat, rest: seq<Node>, at: nat)
    requires i < |source| && Ahead(live, source, i, rest) && at < |rest|
    requires KeyOf(rest[at]).None? || KeyOf(rest[at]) == KeyOf(source[i])
    ensures Ahead(live, source, i + 1, rest[..at] + rest[at + 1..])
  {
    var less := rest[..at] + rest[at + 1..];
    forall n | n in live && KeyOf(n).Some? && (forall j :: 0 <= j < i + 1 && j < |source| ==> KeyOf(source[j]) != KeyOf(n))
      ensures n in less
    {
      assert KeyOf(source[i]) != KeyOf(n);
      assert n in rest;
      var p :| 0 <= p < |rest| && rest[p] == n;
      assert p != at;
      assert less[if p < at then p else p - 1] == n;
    }
  }

  // The live node that takes the place of the wanted one: for a keyed node the one that has
  // its key, if it has the same tag; for a node without a key at most one without a key.
  predicate Match(live: seq<Node>, wanted: Node, m: Option<Node>)
  {
    (m.Some? ==> m.value in live && SameKind(m.value, wanted) && KeyOf(m.value) == KeyOf(wanted)) &&
    (KeyOf(wanted).Some? ==>
       var had := Candidate(live, KeyOf(wanted).value);
       m == if had.Some? && SameKind(had.value, wanted) then had else None)
  }

  // Where the next node of the source finds its match, if it has one.
  method MatchFor(live: seq<Node>, source: seq<Node>, i: nat, r: seq<Node>, cursor: nat) returns (at: Option<nat>)
    requires UniqueKeys(source) && i < |source| && cursor <= |r| && Ahead(live, source, i, r[cursor..])
    ensures at.Some? ==> cursor <= at.value < |r|
    ensures Match(live, source[i], if at.Some? then Some(r[at.value]) else None)
    ensures KeyOf(source[i]).None? ==>
              (at.Some? <==> cursor < |r| && KeyOf(r[cursor]).None? && SameKind(r[cursor], source[i])) &&
              (at.Some? ==> at.value == cursor)
    ensures cursor < |r| && Match(live, source[i], Some(r[cursor])) ==> at == Some(cursor)
  {
    var wanted := source[i];
    var k := KeyOf(wanted);
    at := None;
    if k.Some? {
      var candidate := Candidate(live, k.value);
      if candidate.Some? && SameKind(candidate.value, wanted) {
        CandidateCarriesKey(live, k.value);
        CandidateAhead(live, source, i, r[cursor..], k.value);
        at := FindFrom(r, cursor, candidate.value);
      }
    } else if cursor < |r| && KeyOf(r[cursor]).None? && SameKind(r[cursor], wanted) {
      assert r[cursor] in r[cursor..];
      at := Some(cursor);
    }
  }

  lemma MatchPlaced(live: seq<Node>, wanted: Node, m: Option<Node>, r: Node)
    requires Match(live, wanted, m)
    requires if m.Some? then Updated(m.value, wanted, r) else r == wanted
    ensures Placed(live, wanted, r)
  {
  }

  // A new node goes in front of the cursor.
  lemma AheadOfInserted(live: seq<Node>, source: seq<Node>, i: nat, r: seq<Node>, cursor: nat, s: seq<Node>)
    requires i < |source| && cursor <= |r| && Ahead(live, source, i, r[cursor..])
    requires s == r[..cursor] + [source[i]] + r[cursor..]
    ensures s[..cursor] == r[..cursor] && s[cursor] == source[i] && Ahead(live, source, i + 1, s[cursor + 1..])
  {
    assert s[cursor + 1..] == r[cursor..];
  }

  // A live node is moved in front of the cursor, or the cursor moves on.
  lemma AheadOfMoved(live: seq<Node>, source: seq<Node>, i: nat, r: seq<Node>, cursor: nat, at: nat, n: Node, s: seq<Node>)
    requires i < |source| && cursor <= at < |r| && Ahead(live, source, i, r[cursor..])
    requires KeyOf(r[at]) == KeyOf(source[i]) && s == r[..cursor] + [n] + r[cursor..at] + r[at + 1..]
    ensures s[..cursor] == r[..cursor] && s[cursor] == n && Ahead(live, source, i + 1, s[cursor + 1..])
  {
    var rest := r[cursor..];
    AheadWithout(live, source, i, rest, at - cursor);
    assert s[cursor + 1..] == rest[..at - cursor] + rest[at - cursor + 1..];
  }

  // In a list of the same shape every node is the match for its place.
  lemma {:induction false} MatchInPlace(live: seq<Node>, source: seq<Node>, i: nat)
    requires UniqueKeys(source) && SameShapes(live, source) && i < |source|
    ensures Match(live, source[i], Some(live[i]))
  {
    assert SameShape(live[i], source[i]);
    if KeyOf(source[i]).Some? {
      forall j | i < j < |live| ensures KeyOf(live[j]) != KeyOf(live[i]) {
        assert SameShape(live[j], source[j]);
      }
      OnlyCandidate(live, i, KeyOf(source[i]).value);
    }
  }

  lemma {:induction false} OnlyCandidate(live: seq<Node>, i: nat, key: string)
    requires i < |live| && KeyOf(live[i]) == Some(key)
    requires forall j :: i < j < |live| ==> KeyOf(live[j]) != Some(key)
    ensures Candidate(live, key) == Some(live[i])
  {
    if i < |live| - 1 {
      OnlyCandidate(live[..|live| - 1], i, key);
    }
  }

  // No object has been moved or created so far.
  ghost predicate Untouched(live: seq<Node>, i: nat, r: seq<Node>)
  {
    i <= |r| && i <= |live| && r[i..] == live[i..] && forall j :: 0 <= j < i ==> Kept(live[j], r[j])
  }

  ghost predicate KeptInPlace(live: seq<Node>, wanted: Node, r: seq<Node>, cursor: nat, s: seq<Node>)
  {
    cursor < |r| && Match(live, wanted, Some(r[cursor])) && SameShape(r[cursor], wanted) ==>
      cursor < |s| && s[cursor + 1..] == r[cursor + 1..] && Kept(r[cursor], s[cursor])
  }

  lemma UntouchedStep(live: seq<Node>, source: seq<Node>, i: nat, r: seq<Node>, s: seq<Node>)
    requires UniqueKeys(source) && SameShapes(live, source) && i < |source| && Untouched(live, i, r)
    requires KeptInPlace(live, source[i], r, i, s) && i < |s| && s[..i] == r[..i]
    ensures Untouched(live, i + 1, s)
  {
    MatchInPlace(live, source, i);
    assert r[i] == r[i..][0] == live[i] && SameShape(live[i], source[i]);
    assert r[i + 1..] == r[i..][1..] == live[i + 1..];
    forall j | 0 <= j < i ensures Kept(live[j], s[j]) {
      assert s[j] == s[..i][j] == r[j];
    }
  }

  // Objects of the live list, and those of the source so far, each once.
  ghost predicate Gathered(live: seq<Node>, source: seq<Node>, i: nat, r: seq<Node>)
    requires i <= |source|
  {
    Apart(r) && Ids(r) <= Ids(live) + Ids(source[..i])
  }

  lemma IdsOfPrefix(source: seq<Node>, i: nat, x: nat)
    requires i < |source|
    ensures x in Ids(source[..i + 1]) <==> x in Ids(source[..i]) || x in IdsOf(source[i])
  {
    var longer := source[..i + 1];
    if x in Ids(longer) {
      var j := IdsBelong(longer, x);
      if j < i {
        IdsAt(source[..i], j);
      }
    }
    if x in Ids(source[..i]) {
      var j := IdsBelong(source[..i], x);
      IdsAt(longer, j);
    }
    IdsAt(longer, i);
  }

  lemma GatheredNext(live: seq<Node>, source: seq<Node>, i: nat, r: seq<Node>)
    requires i < |source| && Apart(source) && Ids(live) !! Ids(source) && Ids(r) <= Ids(live) + Ids(source[..i])
    ensures Ids(r) !! IdsOf(source[i]) && ApartWithin(source[i])
    ensures Ids(source[..i + 1]) == Ids(source[..i]) + IdsOf(source[i])
  {
    forall x ensures x in Ids(source[..i + 1]) <==> x in Ids(source[..i]) || x in IdsOf(source[i]) {
      IdsOfPrefix(source, i, x);
    }
    IdsAt(source, i);
    forall x | x in Ids(source[..i]) ensures x !in IdsOf(source[i]) {
      var j := IdsBelong(source[..i], x);
      assert IdsOf(source[j]) !! IdsOf(source[i]);
    }
  }

  lemma GatheredInserted(live: seq<Node>, source: seq<Node>, i: nat, r: seq<Node>, cursor: nat, s: seq<Node>)
    requires i < |source| && Separate(live, source) && Gathered(live, source, i, r)
    requires cursor <= |r| && s == r[..cursor] + [source[i]] + r[cursor..]
    ensures Gathered(live, source, i + 1, s)
  {
    GatheredNext(live, source, i, r);
    InsertedApart(r, cursor, source[i], s);
  }

  lemma GatheredMoved(
    live: seq<Node>, source: seq<Node>, i: nat, r: seq<Node>, cursor: nat, at: nat, n: Node, s: seq<Node>)
    requires i < |source| && Separate(live, source) && Gathered(live, source, i, r)
    requires cursor <= at < |r| && s == r[..cursor] + [n] + r[cursor..at] + r[at + 1..]
    requires StaysApart(r[at], source[i], n)
    ensures Gathered(live, source, i + 1, s)
  {
    GatheredNext(live, source, i, r);
    forall j | 0 <= j < |r| && j != at ensures IdsOf(r[j]) !! IdsOf(n) {
      IdsAt(r, j);
    }
    IdsAt(r, at);
    MovedApart(r, cursor, at, n, s);
  }

  // One node of the source: it is inserted, or its match is moved in front of the cursor and updated.
  method PlaceNext(live: seq<Node>, source: seq<Node>, i: nat, r: seq<Node>, cursor: nat) returns (s: seq<Node>)
    requires UniqueKeys(source) && i < |source| && cursor <= |r| && Ahead(live, source, i, r[cursor..])
    ensures cursor < |s| && s[..cursor] == r[..cursor] && Placed(live, source[i], s[cursor])
    ensures Ahead(live, source, i + 1, s[cursor + 1..])
    ensures KeptInPlace(live, source[i], r, cursor, s)
    ensures Separate(live, source) && Gathered(live, source, i, r) ==> Gathered(live, source, i + 1, s)
    decreases source, 0, 0
  {
    var at := MatchFor(live, source, i, r, cursor);
    if at.None? {
      s := r[..cursor] + [source[i]] + r[cursor..];
      MatchPlaced(live, source[i], None, source[i]);
      AheadOfInserted(live, source, i, r, cursor, s);
      if Separate(live, source) && Gathered(live, source, i, r) {
        GatheredInserted(live, source, i, r, cursor, s);
      }
    } else {
      var updated := MorphNode(r[at.value], source[i]);
      s := r[..cursor] + [updated] + r[cursor..at.value] + r[at.value + 1..];
      MatchPlaced(live, source[i], Some(r[at.value]), updated);
      AheadOfMoved(live, source, i, r, cursor, at.value, updated, s);
      if Separate(live, source) && Gathered(live, source, i, r) {
        GatheredMoved(live, source, i, r, cursor, at.value, updated, s);
      }
    }
  }

  method MorphChildren(live: seq<Node>, source: seq<Node>) returns (r: seq<Node>)
    requires UniqueKeys(source)
    ensures Reconciled(live, source, r)
    ensures SameShapes(live, source) ==> |r| == |live| && forall i :: 0 <= i < |live| ==> Kept(live[i], r[i])
    // no object is used twice
    ensures Separate(live, source) ==> Apart(r) && Ids(r) <= Ids(live) + Ids(source)
    decreases source, 0, 1
  {
    r := live;
    var cursor := 0;
    for i := 0 to |source|
      invariant cursor == i <= |r|
      invariant forall j :: 0 <= j < i ==> Placed(live, source[j], r[j])
      invariant Ahead(live, source, i, r[cursor..])
      invariant SameShapes(live, source) ==> Untouched(live, i, r)
      invariant Separate(live, source) ==> Gathered(live, source, i, r)
    {
      ghost var before, was := r[..cursor], r;
      r := PlaceNext(live, source, i, r, cursor);
      if SameShapes(live, source) {
        UntouchedStep(live, source, i, was, r);
      }
      assert forall j :: 0 <= j < i ==> r[j] == before[j];
      cursor := cursor + 1;
    }
    FrontApart(r, cursor);
    assert source[..|source|] == source;
    r := r[..cursor];
  }

  lemma FrontApart(r: seq<Node>, n: nat)
    requires n <= |r|
    ensures Apart(r) ==> Apart(r[..n])
    ensures Ids(r[..n]) <= Ids(r)
  {
    forall j: nat | j < n ensures r[..n][j] == r[j] {
    }
  }

  method FindFrom(r: seq<Node>, cursor: nat, n: Node) returns (at: Option<nat>)
    requires cursor <= |r|
    ensures n in r[cursor..] ==> at.Some?
    ensures at.Some? ==> cursor <= at.value < |r| && r[at.value] == n && n !in r[cursor..at.value]
  {
    for p := cursor to |r|
      invariant n !in r[cursor..p]
    {
      if r[p] == n {
        return Some(p);
      }
    }
    at := None;
  }

  // ------------------------------------------------------------------ what it amounts to

  lemma {:induction false} SameTreeItself(n: Node)
    ensures SameTree(n, n)
  {
    if n.Element? {
      forall i | 0 <= i < |n.children| ensures SameTree(n.children[i], n.children[i]) {
        SameTreeItself(n.children[i]);
      }
    }
  }

  // The live tree ends up equal to the markup at every depth.
  lemma {:induction false} UpdatedIsSame(from: Node, target: Node, r: Node)
    requires Updated(from, target, r)
    ensures SameTree(r, target)
    decreases target, 1
  {
    if target.Element? {
      ReconciledIsSame(from.children, target.children, r.children);
    }
  }

  lemma {:induction false} ReconciledIsSame(live: seq<Node>, source: seq<Node>, r: seq<Node>)
    requires Reconciled(live, source, r)
    ensures |r| == |source| && forall i :: 0 <= i < |source| ==> SameTree(r[i], source[i])
    decreases source, 0
  {
    forall i | 0 <= i < |source| ensures SameTree(r[i], source[i]) {
      assert Placed(live, source[i], r[i]);
      if r[i] == source[i] {
        SameTreeItself(r[i]);
      } else {
        match KeyOf(source[i])
        case Some(key) => UpdatedIsSame(Candidate(live, key).value, source[i], r[i]);
        case None =>
          var n :| n in live && KeyOf(n).None? && Updated(n, source[i], r[i]);
          UpdatedIsSame(n, source[i], r[i]);
      }
    }
  }

  // A keyed node that is in both with the same tag is the same object afterwards.
  lemma KeyedNodeSurvives(live: seq<Node>, source: seq<Node>, r: seq<Node>, i: nat, n: Node, key: string)
    requires Reconciled(live, source, r) && i < |source| && KeyOf(source[i]) == Some(key)
    requires Candidate(live, key) == Some(n) && SameKind(n, source[i])
    ensures r[i].id == n.id && Updated(n, source[i], r[i])
  {
    assert Placed(live, source[i], r[i]);
  }
}
