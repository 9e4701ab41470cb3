// The blind search index: prefix tokens per message, and the server's search over them,
// against a plain scan of the messages.
module SearchIndex {

  const MIN_PREFIX := 2
  const MAX_PREFIX := 12
  const MAX_GROUPS := 8
  const MAX_CANDIDATES := 32

  // The keyed hash of a prefix under the search key of an epoch.
  datatype Token = Token(epoch: nat, prefix: string)

  type Letters = char -> bool

  // ------------------------------------------------------------------ words

  // A maximal run of letters and digits, at least two long, from i up to j. Text is in lower case.
  ghost predicate IsRun(letters: Letters, text: string, i: nat, j: nat)
  {
    i < j <= |text| && (forall k :: i <= k < j ==> letters(text[k])) &&
    (i == 0 || !letters(text[i - 1])) && (j == |text| || !letters(text[j]))
  }

  ghost predicate IsWord(letters: Letters, text: string, w: string)
  {
    exists i: nat, j: nat :: IsRun(letters, text, i, j) && w == text[i..j] && |w| >= MIN_PREFIX
  }

  // The words of a text, each once.
  method Words(letters: Letters, text: string) returns (words: seq<string>)
    ensures forall w :: w in words <==> IsWord(letters, text, w)
    ensures forall a, b :: 0 <= a < b < |words| ==> words[a] != words[b]
  {
    words := [];
    var start: nat := 0;
    for i := 0 to |text|
      invariant start <= i && (forall k :: start <= k < i ==> letters(text[k])) && (start == 0 || !letters(text[start - 1]))
      invariant forall w :: w in words <==> EndsBy(letters, text, w, start)
      invariant forall a, b :: 0 <= a < b < |words| ==> words[a] != words[b]
    {
      if !letters(text[i]) {
        EndsNext(letters, text, start, i);
        words := AddWord(words, text[start..i]);
        start := i + 1;
      }
    }
    EndsLast(letters, text, start);
    words := AddWord(words, text[start..]);
  }

  // Words whose run ends before a position.
  ghost predicate EndsBy(letters: Letters, text: string, w: string, end: nat)
  {
    exists i: nat, j: nat :: IsRun(letters, text, i, j) && j < end && w == text[i..j] && |w| >= MIN_PREFIX
  }

  method AddWord(words: seq<string>, w: string) returns (longer: seq<string>)
    requires forall a, b :: 0 <= a < b < |words| ==> words[a] != words[b]
    ensures forall v :: v in longer <==> v in words || (v == w && |w| >= MIN_PREFIX)
    ensures forall a, b :: 0 <= a < b < |longer| ==> longer[a] != longer[b]
  {
    longer := if |w| >= MIN_PREFIX && w !in words then words + [w] else words;
  }

  lemma EndsNext(letters: Letters, text: string, start: nat, i: nat)
    requires start <= i < |text| && !letters(text[i]) && (forall k :: start <= k < i ==> letters(text[k]))
    requires start == 0 || !letters(text[start - 1])
    ensures forall w :: EndsBy(letters, text, w, i + 1) <==>
      EndsBy(letters, text, w, start) || (w == text[start..i] && |w| >= MIN_PREFIX)
  {
    if start < i {
      assert IsRun(letters, text, start, i);
    }
  }

  lemma EndsLast(letters: Letters, text: string, start: nat)
    requires start <= |text| && (forall k :: start <= k < |text| ==> letters(text[k]))
    requires start == 0 || !letters(text[start - 1])
    ensures forall w :: IsWord(letters, text, w) <==>
      EndsBy(letters, text, w, start) || (w == text[start..] && |w| >= MIN_PREFIX)
  {
    assert text[start..|text|] == text[start..];
    if start < |text| {
      assert IsRun(letters, text, start, |text|);
    }
  }

  // ------------------------------------------------------------------ tokens of a message

  datatype Message = Message(epoch: nat, text: string)

  function Cut(w: string): string
  {
    if |w| <= MAX_PREFIX then w else w[..MAX_PREFIX]
  }

  // The token of a prefix, two to twelve letters long, of some word of the message.
  ghost predicate IsTokenOf(letters: Letters, m: Message, t: Token)
  {
    t.epoch == m.epoch && MIN_PREFIX <= |t.prefix| <= MAX_PREFIX && HasWordWith(letters, m.text, t.prefix)
  }

  ghost predicate HasWordWith(letters: Letters, text: string, prefix: string)
  {
    exists w :: IsWord(letters, text, w) && prefix <= w
  }

  method WordTokens(letters: Letters, epoch: nat, text: string) returns (tokens: set<Token>)
    ensures forall t :: t in tokens <==> IsTokenOf(letters, Message(epoch, text), t)
  {
    var words := Words(letters, text);
    var prefixes: set<string> := {};
    for i := 0 to |words|
      invariant forall p :: p in prefixes <==> MIN_PREFIX <= |p| <= MAX_PREFIX && exists j :: 0 <= j < i && p <= words[j]
    {
      var w := words[i];
      assert IsWord(letters, text, w);
      ghost var before := prefixes;
      for n := MIN_PREFIX to (if |w| < MAX_PREFIX then |w| else MAX_PREFIX) + 1
        invariant forall p :: p in prefixes <==> p in before || (MIN_PREFIX <= |p| < n && p <= w)
      {
        ShortPrefix(w, n);
        prefixes := prefixes + {w[..n]};
      }
    }
    tokens := set p | p in prefixes :: Token(epoch, p);
    forall t | IsTokenOf(letters, Message(epoch, text), t) ensures t in tokens {
      var w :| IsWord(letters, text, w) && t.prefix <= w;
      assert w in words;
      assert t == Token(epoch, t.prefix);
    }
    forall t | t in tokens ensures IsTokenOf(letters, Message(epoch, text), t) {
      var j :| 0 <= j < |words| && t.prefix <= words[j];
      assert words[j] in words;
    }
  }

  lemma ShortPrefix(w: string, n: nat)
    requires n <= |w|
    ensures forall p :: p <= w && |p| == n <==> p == w[..n]
  {
  }

  // ------------------------------------------------------------------ the index of a thread

  // Tokens as they arrive: well-formed ones, and text that the server drops.
  datatype Candidate = WellFormed(token: Token) | Malformed

  // The newest elements of a set of message numbers, newest first, as many as the limit allows.
  ghost predicate IsNewest(r: seq<nat>, hits: set<nat>, limit: nat)
  {
    |r| <= limit && (forall a, b :: 0 <= a < b < |r| ==> r[a] > r[b]) && (forall a :: 0 <= a < |r| ==> r[a] in hits) &&
    forall h :: h in hits && h !in r ==> |r| == limit && forall a :: 0 <= a < |r| ==> h < r[a]
  }

  function After(ids: set<nat>, after: nat): set<nat>
  {
    set i | i in ids && i > after
  }

  function Accepted(group: seq<Candidate>): (tokens: seq<Token>)
    ensures forall t :: t in tokens <==> WellFormed(t) in group
  {
    if group == [] then []
    else
      var last := group[|group| - 1];
      Accepted(group[..|group| - 1]) + if last.WellFormed? then [last.token] else []
  }

  class ThreadIndex {
    // the message with number i + 1, and the token rows by message number
    var messages: seq<Message>
    var rows: set<(nat, Token)>

    ghost predicate Valid(letters: Letters)
      reads this
    {
      forall i, t :: (i, t) in rows <==> 0 < i <= |messages| && IsTokenOf(letters, messages[i - 1], t)
    }

    constructor (letters: Letters)
      ensures Valid(letters) && messages == []
    {
      messages, rows := [], {};
    }

    method Send(letters: Letters, m: Message)
      requires Valid(letters)
      modifies this
      ensures Valid(letters) && messages == old(messages) + [m]
    {
      var tokens := WordTokens(letters, m.epoch, m.text);
      messages := messages + [m];
      var number := |messages|;
      rows := rows + (set t | t in tokens :: (number, t));
    }

    // Message numbers with at least one of the tokens.
    function WithAny(group: seq<Token>): set<nat>
      reads this
    {
      set row | row in rows && row.1 in group :: row.0
    }

    ghost function Hits(groups: seq<seq<Token>>, after: nat): set<nat>
      reads this
    {
      set row | row in rows && row.0 > after && forall g :: 0 <= g < |groups| ==> row.0 in WithAny(groups[g]) :: row.0
    }

    // repositories: narrow the candidates group by group, then the newest of what is left.
    method Search(letters: Letters, groups: seq<seq<Token>>, after: nat, limit: nat) returns (r: seq<nat>)
      requires Valid(letters)
      ensures groups == [] ==> r == []
      ensures groups != [] ==> IsNewest(r, Hits(groups, after), limit)
    {
      if groups == [] {
        return [];
      }
      var candidates := WithAny(groups[0]);
      for g := 1 to |groups|
        invariant forall i :: i in candidates <==> forall h :: 0 <= h < g ==> i in WithAny(groups[h])
      {
        if candidates == {} {
          break;
        }
        candidates := candidates * WithAny(groups[g]);
      }
      forall i ensures i in Hits(groups, after) <==> i in candidates && i > after {
        if i in candidates && i > after {
          assert i in WithAny(groups[0]);
        }
      }
      r := NewestOf(letters, candidates, after, limit);
    }

    method NewestOf(letters: Letters, candidates: set<nat>, after: nat, limit: nat) returns (r: seq<nat>)
      requires Valid(letters) && forall i :: i in candidates ==> 0 < i <= |messages|
      ensures IsNewest(r, After(candidates, after), limit)
    {
      r := [];
      var i := |messages|;
      while i > after && |r| < limit
        invariant |r| <= limit && i <= |messages|
        invariant forall a :: 0 <= a < |r| ==> r[a] in candidates && r[a] > after && r[a] > i
        invariant forall a, b :: 0 <= a < b < |r| ==> r[a] > r[b]
        invariant forall h :: h in candidates && h > i && h > after ==> h in r
      {
        if i in candidates {
          r := r + [i];
        }
        i := i - 1;
      }
    }

    // message_service: malformed candidates, and groups or candidates beyond the limits, are dropped.
    method SearchThread(letters: Letters, groups: seq<seq<Candidate>>, cleared: nat) returns (r: seq<nat>)
      requires Valid(letters)
      ensures var kept := KeptGroups(groups); if kept == [] then r == [] else IsNewest(r, Hits(kept, cleared), 50)
    {
      r := Search(letters, KeptGroups(groups), cleared, 50);
    }
  }

  function UpTo<T>(s: seq<T>, n: nat): seq<T>
  {
    if |s| <= n then s else s[..n]
  }

  function KeptGroups(groups: seq<seq<Candidate>>): seq<seq<Token>>
  {
    NonEmpty(UpTo(groups, MAX_GROUPS))
  }

  function NonEmpty(groups: seq<seq<Candidate>>): seq<seq<Token>>
  {
    if groups == [] then []
    else
      var tokens := UpTo(Accepted(groups[|groups| - 1]), MAX_CANDIDATES);
      NonEmpty(groups[..|groups| - 1]) + if tokens == [] then [] else [tokens]
  }

  // ------------------------------------------------------------------ the client's query

  // One candidate for every epoch whose key the client knows.
  function WordCandidates(word: string, epochs: seq<nat>): (group: seq<Candidate>)
    ensures |group| == |epochs| && forall e :: 0 <= e < |epochs| ==> group[e] == WellFormed(Token(epochs[e], Cut(word)))
  {
    seq(|epochs|, e requires 0 <= e < |epochs| => WellFormed(Token(epochs[e], Cut(word))))
  }

  function QueryGroups(words: seq<string>, epochs: seq<nat>): (groups: seq<seq<Candidate>>)
    ensures |groups| == |words| && forall w :: 0 <= w < |words| ==> groups[w] == WordCandidates(words[w], epochs)
  {
    seq(|words|, w requires 0 <= w < |words| => WordCandidates(words[w], epochs))
  }

  lemma {:induction false} AcceptedAt(word: string, epochs: seq<nat>, e: nat)
    ensures |Accepted(WordCandidates(word, epochs))| == |epochs|
    ensures e < |epochs| ==> Accepted(WordCandidates(word, epochs))[e] == Token(epochs[e], Cut(word))
  {
    if epochs != [] {
      var n := |epochs| - 1;
      var before := Accepted(WordCandidates(word, epochs[..n]));
      AcceptedAt(word, epochs[..n], e);
      AcceptedLast(word, epochs);
      assert e == n ==> (before + [Token(epochs[n], Cut(word))])[e] == Token(epochs[n], Cut(word));
    }
  }

  lemma AcceptedLast(word: string, epochs: seq<nat>)
    requires epochs != []
    ensures Accepted(WordCandidates(word, epochs)) ==
      Accepted(WordCandidates(word, epochs[..|epochs| - 1])) + [Token(epochs[|epochs| - 1], Cut(word))]
  {
    assert WordCandidates(word, epochs)[..|epochs| - 1] == WordCandidates(word, epochs[..|epochs| - 1]);
  }

  lemma AcceptedAll(word: string, epochs: seq<nat>)
    ensures forall t :: t in Accepted(WordCandidates(word, epochs)) <==> t.epoch in epochs && t.prefix == Cut(word)
  {
    var group := WordCandidates(word, epochs);
    forall t ensures WellFormed(t) in group <==> t.epoch in epochs && t.prefix == Cut(word) {
      if t.epoch in epochs && t.prefix == Cut(word) {
        var e :| 0 <= e < |epochs| && epochs[e] == t.epoch;
        assert group[e] == WellFormed(t);
      }
    }
  }

  function TokensOf(words: seq<string>, epochs: seq<nat>): (groups: seq<seq<Token>>)
    ensures |groups| == |words| && forall w :: 0 <= w < |words| ==> groups[w] == Accepted(WordCandidates(words[w], epochs))
  {
    if words == [] then []
    else TokensOf(words[..|words| - 1], epochs) + [Accepted(WordCandidates(words[|words| - 1], epochs))]
  }

  lemma QueryGroupsInit(words: seq<string>, epochs: seq<nat>)
    requires words != []
    ensures QueryGroups(words, epochs)[..|words| - 1] == QueryGroups(words[..|words| - 1], epochs)
  {
  }

  lemma FirstEpochs(word: string, epochs: seq<nat>)
    ensures UpTo(Accepted(WordCandidates(word, epochs)), MAX_CANDIDATES) ==
      Accepted(WordCandidates(word, UpTo(epochs, MAX_CANDIDATES)))
  {
    forall e: nat
      ensures |Accepted(WordCandidates(word, epochs))| == |epochs|
      ensures e < |epochs| ==> Accepted(WordCandidates(word, epochs))[e] == Token(epochs[e], Cut(word))
    {
      AcceptedAt(word, epochs, e);
    }
    var first := UpTo(epochs, MAX_CANDIDATES);
    forall e: nat
      ensures |Accepted(WordCandidates(word, first))| == |first|
      ensures e < |first| ==> Accepted(WordCandidates(word, first))[e] == Token(first[e], Cut(word))
    {
      AcceptedAt(word, first, e);
    }
  }

  // Of the epochs beyond the limit the candidates are dropped, of the others none.
  lemma {:induction false} KeptTokens(words: seq<string>, epochs: seq<nat>)
    requires epochs != []
    ensures NonEmpty(QueryGroups(words, epochs)) == TokensOf(words, UpTo(epochs, MAX_CANDIDATES))
  {
    if words != [] {
      KeptTokens(words[..|words| - 1], epochs);
      QueryGroupsInit(words, epochs);
      FirstEpochs(words[|words| - 1], epochs);
      AcceptedAt(words[|words| - 1], UpTo(epochs, MAX_CANDIDATES), 0);
    }
  }

  // ------------------------------------------------------------------ the plain scan

  // Every query word, cut to twelve letters, begins some word of the message.
  ghost predicate Matches(letters: Letters, m: Message, words: seq<string>)
  {
    forall w :: 0 <= w < |words| ==> HasWordWith(letters, m.text, Cut(words[w]))
  }

  ghost predicate Found(letters: Letters, messages: seq<Message>, words: seq<string>, epochs: seq<nat>, cleared: nat, i: nat)
    requires 0 < i <= |messages|
  {
    cleared < i && messages[i - 1].epoch in epochs && Matches(letters, messages[i - 1], words)
  }

  ghost function Scan(letters: Letters, messages: seq<Message>, words: seq<string>, epochs: seq<nat>, cleared: nat): set<nat>
  {
    set i | 0 < i <= |messages| && Found(letters, messages, words, epochs, cleared, i)
  }

  // Message i is readable and has a word that the cut query word begins.
  ghost predicate Begins(letters: Letters, messages: seq<Message>, word: string, epochs: seq<nat>, i: nat)
  {
    0 < i <= |messages| && messages[i - 1].epoch in epochs && HasWordWith(letters, messages[i - 1].text, Cut(word))
  }

  // A message is under a group whose tokens can only be this one for it iff it has the token.
  lemma UnderGroup(letters: Letters, index: ThreadIndex, group: seq<Token>, i: nat, t: Token)
    requires index.Valid(letters) && 0 < i <= |index.messages|
    requires forall u :: u in group && IsTokenOf(letters, index.messages[i - 1], u) ==> u == t
    ensures i in index.WithAny(group) <==> t in group && IsTokenOf(letters, index.messages[i - 1], t)
  {
    assert (i, t) in index.rows <==> IsTokenOf(letters, index.messages[i - 1], t);
  }

  lemma GroupIsWord(letters: Letters, index: ThreadIndex, word: string, epochs: seq<nat>, i: nat)
    requires index.Valid(letters) && |word| >= MIN_PREFIX
    ensures i in index.WithAny(Accepted(WordCandidates(word, epochs))) <==>
      Begins(letters, index.messages, word, epochs, i)
  {
    AcceptedAll(word, epochs);
    if 0 < i <= |index.messages| {
      var m := index.messages[i - 1];
      UnderGroup(letters, index, Accepted(WordCandidates(word, epochs)), i, Token(m.epoch, Cut(word)));
    }
  }

  lemma HitIsFound(letters: Letters, index: ThreadIndex, groups: seq<seq<Token>>, words: seq<string>, epochs: seq<nat>,
                   cleared: nat, i: nat)
    requires words != [] && |groups| == |words|
    requires forall w :: 0 <= w < |words| ==>
      (i in index.WithAny(groups[w]) <==> Begins(letters, index.messages, words[w], epochs, i))
    ensures i in index.Hits(groups, cleared) <==> i in Scan(letters, index.messages, words, epochs, cleared)
  {
    if i in Scan(letters, index.messages, words, epochs, cleared) {
      assert Begins(letters, index.messages, words[0], epochs, i);
      assert i in index.WithAny(groups[0]);
    }
    if i in index.Hits(groups, cleared) {
      assert i in index.WithAny(groups[0]);
    }
  }

  // The search by tokens finds what a plain scan of the readable messages finds.
  lemma HitsAreScan(letters: Letters, index: ThreadIndex, words: seq<string>, epochs: seq<nat>, cleared: nat)
    requires index.Valid(letters) && words != [] && epochs != []
    requires forall w :: 0 <= w < |words| ==> |words[w]| >= MIN_PREFIX
    ensures index.Hits(NonEmpty(QueryGroups(words, epochs)), cleared) ==
      Scan(letters, index.messages, words, UpTo(epochs, MAX_CANDIDATES), cleared)
  {
    var known := UpTo(epochs, MAX_CANDIDATES);
    var kept := TokensOf(words, known);
    KeptTokens(words, epochs);
    forall i: nat
      ensures i in index.Hits(kept, cleared) <==> i in Scan(letters, index.messages, words, known, cleared)
    {
      forall w | 0 <= w < |words|
        ensures i in index.WithAny(kept[w]) <==> Begins(letters, index.messages, words[w], known, i)
      {
        GroupIsWord(letters, index, words[w], known, i);
      }
      HitIsFound(letters, index, kept, words, known, cleared, i);
    }
  }

  // From the query to the answer, for the first eight words and the first thirty-two known epochs.
  method SearchMessages(letters: Letters, index: ThreadIndex, query: string, epochs: seq<nat>, cleared: nat)
    returns (words: seq<string>, asked: bool, r: seq<nat>)
    requires index.Valid(letters)
    ensures forall w :: w in words <==> IsWord(letters, query, w)
    ensures asked <==> words != [] && epochs != []
    ensures if asked then IsNewest(r, Scan(letters, index.messages, UpTo(words, MAX_GROUPS),
                                           UpTo(epochs, MAX_CANDIDATES), cleared), 50)
            else r == []
  {
    words := Words(letters, query);
    asked := words != [] && epochs != [];
    if !asked {
      return words, false, [];
    }
    var first := UpTo(words, MAX_GROUPS);
    r := index.SearchThread(letters, QueryGroups(first, epochs), cleared);
    forall w | 0 <= w < |first| ensures |first[w]| >= MIN_PREFIX {
      assert first[w] == words[w] && words[w] in words;
    }
    KeptTokens(first, epochs);
    HitsAreScan(letters, index, first, epochs, cleared);
  }
}
