// What the decoder makes of what the encoder writes, and of unknown records in between: every
// well-typed message comes back with its defaults filled in.
module WireRoundTrip {
  import opened Bits
  import opened KeyTree
  import opened Varint
  import opened Wire

  // ------------------------------------------------------------------ one record

  predicate EntryOk(e: Entry)
  {
    e.num < 0x2000_0000 && match e.data case Varint_(n) => n < SIZE_LIMIT case Payload(bytes) => |bytes| < SIZE_LIMIT
  }

  // Records of the Protocol Buffers encoding specification: 150 in field 1, "testing" in field 2.
  lemma StandardExamples()
    ensures EncodeEntry(Entry(1, Varint_(150))) == [0x08, 0x96, 0x01]
    ensures EncodeEntry(Entry(2, Payload([0x74, 0x65, 0x73, 0x74, 0x69, 0x6e, 0x67]))) ==
      [0x12, 0x07, 0x74, 0x65, 0x73, 0x74, 0x69, 0x6e, 0x67]
    ensures ReadRecord([0x08, 0x96, 0x01]) == Parsed(Record(1, Varint_(150)), 3)
  {
    assert EncodeVarint(150) == [0x96] + EncodeVarint(1);
    assert EncodeEntry(Entry(1, Varint_(150))) + [] == EncodeEntry(Entry(1, Varint_(150)));
    ReadNumber(1, 150, []);
  }

  lemma ShortVarint(v: nat)
    requires v < SIZE_LIMIT
    ensures |EncodeVarint(v)| <= 10
  {
    var n: nat := 63;
    Factor(10);
    assert Doubled(1, n + 7) > 2 * 0x8000_0000_0000_0000 by {
      Factor(9);
      SevenPlaces(1, n);
      SixtyThree(n);
    }
    VarintSize(v, 10);
  }

  lemma SixtyThree(n: nat)
    requires n == 63
    ensures Doubled(1, n) == 0x8000_0000_0000_0000
  {
    SevenPlaces(1, n - 7);
    SevenPlaces(1, n - 14);
    SevenPlaces(1, n - 21);
    SevenPlaces(1, n - 28);
    SevenPlaces(1, n - 35);
    SevenPlaces(1, n - 42);
    SevenPlaces(1, n - 49);
    SevenPlaces(1, n - 56);
    SevenPlaces(1, n - 63);
  }

  lemma ReadPrefix(v: nat, tail: Buffer, buf: Buffer)
    requires v < SIZE_LIMIT && buf == EncodeVarint(v) + tail
    ensures ReadVarint(buf, 0) == Parsed(v, |EncodeVarint(v)|) && buf[|EncodeVarint(v)|..] == tail
  {
    ShortVarint(v);
    VarintRoundTrip(v, tail, 0);
  }

  lemma KeyParts(num: nat, wire: nat)
    requires wire < 8
    ensures (num * 8 + wire) / 8 == num && (num * 8 + wire) % 8 == wire
  {
  }

  lemma ReadNumber(num: nat, n: nat, rest: Buffer)
    requires num < 0x2000_0000 && n < SIZE_LIMIT
    ensures var e := Entry(num, Varint_(n));
      EncodeEntry(e) != [] && ReadRecord(EncodeEntry(e) + rest) == Parsed(Record(num, Varint_(n)), |EncodeEntry(e)|)
  {
    var key, number := EncodeVarint(num * 8), EncodeVarint(n);
    var buf := EncodeEntry(Entry(num, Varint_(n))) + rest;
    assert buf == key + (number + rest);
    KeyParts(num, 0);
    ReadPrefix(num * 8, number + rest, buf);
    ReadPrefix(n, rest, number + rest);
  }

  // A key and a length in front of the payload.
  lemma SplitPayload(key: Buffer, size: Buffer, bytes: Buffer, rest: Buffer)
    ensures key + size + bytes + rest == key + (size + (bytes + rest))
    ensures (size + (bytes + rest))[|size|..|size| + |bytes|] == bytes
  {
  }

  lemma ReadPayload(num: nat, bytes: Buffer, rest: Buffer)
    requires num < 0x2000_0000 && |bytes| < SIZE_LIMIT
    ensures var e := Entry(num, Payload(bytes));
      EncodeEntry(e) != [] && ReadRecord(EncodeEntry(e) + rest) == Parsed(Record(num, Payload(bytes)), |EncodeEntry(e)|)
  {
    var key, size := EncodeVarint(num * 8 + 2), EncodeVarint(|bytes|);
    SplitPayload(key, size, bytes, rest);
    var tail := size + (bytes + rest);
    var buf := key + size + bytes + rest;
    KeyParts(num, 2);
    ReadPrefix(num * 8 + 2, tail, buf);
    ReadPrefix(|bytes|, bytes + rest, tail);
  }

  lemma ReadEntry(e: Entry, rest: Buffer)
    requires EntryOk(e)
    ensures EncodeEntry(e) != []
    ensures ReadRecord(EncodeEntry(e) + rest) == Parsed(Record(e.num, e.data), |EncodeEntry(e)|)
  {
    match e.data
    case Varint_(n) => ReadNumber(e.num, n, rest);
    case Payload(bytes) => ReadPayload(e.num, bytes, rest);
  }

  // ------------------------------------------------------------------ several records

  function StoreAll(utf8: Utf8, kind: Kind, entries: seq<Entry>, acc: Message): Decoded
  {
    if entries == [] then Decoded(acc)
    else
      match Store(utf8, kind, entries[0].num, entries[0].data, acc)
      case ProtoError => ProtoError
      case Decoded(next) => StoreAll(utf8, kind, entries[1..], next)
  }

  function Then(utf8: Utf8, kind: Kind, first: Decoded, rest: Buffer): Decoded
  {
    match first
    case ProtoError => ProtoError
    case Decoded(acc) => DecodeFrom(utf8, kind, rest, acc)
  }

  lemma DecodeEntry(utf8: Utf8, kind: Kind, e: Entry, rest: Buffer, acc: Message)
    requires EntryOk(e)
    ensures DecodeFrom(utf8, kind, EncodeEntry(e) + rest, acc) ==
      Then(utf8, kind, Store(utf8, kind, e.num, e.data, acc), rest)
  {
    ReadEntry(e, rest);
    assert (EncodeEntry(e) + rest)[|EncodeEntry(e)|..] == rest;
  }

  ghost predicate AllOk(entries: seq<Entry>)
  {
    forall i :: 0 <= i < |entries| ==> EntryOk(entries[i])
  }

  // Decoding a sequence of records stores them one after the other.
  lemma {:induction false} DecodeEntries(utf8: Utf8, kind: Kind, entries: seq<Entry>, rest: Buffer, acc: Message)
    requires AllOk(entries)
    ensures DecodeFrom(utf8, kind, Flatten(entries) + rest, acc) ==
      Then(utf8, kind, StoreAll(utf8, kind, entries, acc), rest)
    decreases |entries|
  {
    if entries == [] {
      assert [] + rest == rest;
    } else {
      var e, tail := entries[0], Flatten(entries[1..]) + rest;
      assert Flatten(entries) + rest == EncodeEntry(e) + tail;
      DecodeEntry(utf8, kind, e, tail, acc);
      match Store(utf8, kind, e.num, e.data, acc)
      case ProtoError =>
      case Decoded(next) => DecodeEntries(utf8, kind, entries[1..], rest, next);
    }
  }

  // ------------------------------------------------------------------ unknown records

  // A record that the schema does not know, or one of fixed width, with wire type 1 or 5.
  datatype Unknown = UnknownField(e: Entry) | FixedWidth(key: nat, bytes: Buffer)

  predicate IsFixed(key: nat, bytes: Buffer)
  {
    key < SIZE_LIMIT && ((key % 8 == 1 && |bytes| == 8) || (key % 8 == 5 && |bytes| == 4))
  }

  predicate IsUnknown(kind: Kind, u: Unknown)
  {
    match u
    case UnknownField(e) => EntryOk(e) && FieldOf(kind, e.num) == None
    case FixedWidth(key, bytes) => IsFixed(key, bytes)
  }

  function UnknownBytes(u: Unknown): Buffer
  {
    match u
    case UnknownField(e) => EncodeEntry(e)
    case FixedWidth(key, bytes) => EncodeVarint(key) + bytes
  }

  lemma FixedSkipped(utf8: Utf8, kind: Kind, key: nat, bytes: Buffer, rest: Buffer, acc: Message)
    requires IsFixed(key, bytes)
    ensures DecodeFrom(utf8, kind, (EncodeVarint(key) + bytes) + rest, acc) == DecodeFrom(utf8, kind, rest, acc)
  {
    var buf := (EncodeVarint(key) + bytes) + rest;
    assert buf == EncodeVarint(key) + (bytes + rest);
    ReadPrefix(key, bytes + rest, buf);
    assert buf[|EncodeVarint(key)| + |bytes|..] == rest;
  }

  lemma UnknownFieldSkipped(utf8: Utf8, kind: Kind, e: Entry, rest: Buffer, acc: Message)
    requires EntryOk(e) && FieldOf(kind, e.num) == None
    ensures DecodeFrom(utf8, kind, EncodeEntry(e) + rest, acc) == DecodeFrom(utf8, kind, rest, acc)
  {
    DecodeEntry(utf8, kind, e, rest, acc);
    assert Store(utf8, kind, e.num, e.data, acc) == Decoded(acc);
  }

  lemma UnknownSkipped(utf8: Utf8, kind: Kind, u: Unknown, rest: Buffer, acc: Message)
    requires IsUnknown(kind, u)
    ensures DecodeFrom(utf8, kind, UnknownBytes(u) + rest, acc) == DecodeFrom(utf8, kind, rest, acc)
  {
    match u
    case UnknownField(e) => UnknownFieldSkipped(utf8, kind, e, rest, acc);
    case FixedWidth(key, bytes) => FixedSkipped(utf8, kind, key, bytes, rest, acc);
  }

  // An unknown record between any two others changes nothing.
  lemma UnknownBetween(utf8: Utf8, kind: Kind, before: seq<Entry>, u: Unknown, after: Buffer)
    requires AllOk(before) && IsUnknown(kind, u)
    ensures DecodeMessage(utf8, kind, Flatten(before) + (UnknownBytes(u) + after)) ==
      DecodeMessage(utf8, kind, Flatten(before) + after)
  {
    var acc := Defaults(Schema(kind));
    DecodeEntries(utf8, kind, before, UnknownBytes(u) + after, acc);
    DecodeEntries(utf8, kind, before, after, acc);
    match StoreAll(utf8, kind, before, acc)
    case ProtoError =>
    case Decoded(next) => UnknownSkipped(utf8, kind, u, after, next);
  }

  // ------------------------------------------------------------------ round trip

  // The message with its defaults filled in.
  function Filled(kind: Kind, d: Message): Message
    decreases Rank(kind), 1, |Schema(kind)| + 1
  {
    FilledUpTo(kind, d, |Schema(kind)|)
  }

  function FilledUpTo(kind: Kind, d: Message, n: nat): Message
    requires n <= |Schema(kind)|
    decreases Rank(kind), 1, n
  {
    if n == 0 then Defaults(Schema(kind))
    else FilledUpTo(kind, d, n - 1)[Schema(kind)[n - 1].num := FilledValue(kind, Schema(kind)[n - 1], d)]
  }

  function FilledValue(kind: Kind, f: Field, d: Message): Value
    decreases Rank(kind), 0
  {
    match Get(d, f.num)
    case VNone => Default(f)
    case VMessage(m) => if kind == WsFrame then VMessage(Filled(MessagePacket, m)) else VNone
    case v => v
  }

  // Text that is text, numbers below 2^64, sizes below 2^64; nested messages likewise.
  ghost predicate WellTyped(utf8: Utf8, kind: Kind, d: Message)
    decreases Rank(kind)
  {
    forall i :: 0 <= i < |Schema(kind)| ==>
      var f := Schema(kind)[i];
      ValueOk(utf8, f, Get(d, f.num)) &&
      (f.ftype == Packet && Get(d, f.num).VMessage? ==>
        (|EncodeMessage(MessagePacket, d[f.num].fields)| < SIZE_LIMIT && kind == WsFrame &&
         WellTyped(utf8, MessagePacket, d[f.num].fields)))
  }

  ghost predicate ValueOk(utf8: Utf8, f: Field, v: Value)
  {
    Fits(f, v) &&
    match v
    case VText(bytes) => utf8(bytes) && |bytes| < SIZE_LIMIT
    case VBlob(bytes) => |bytes| < SIZE_LIMIT
    case VNumber(n) => 0 <= n < SIZE_LIMIT
    case VList(items) => f.ftype == Text && forall i :: 0 <= i < |items| ==> utf8(items[i]) && |items[i]| < SIZE_LIMIT
    case _ => true
  }

  lemma {:induction false} StoreConcat(utf8: Utf8, kind: Kind, a: seq<Entry>, b: seq<Entry>, acc: Message)
    ensures StoreAll(utf8, kind, a + b, acc) ==
      match StoreAll(utf8, kind, a, acc) case ProtoError => ProtoError case Decoded(next) => StoreAll(utf8, kind, b, next)
    decreases |a|
  {
    if a == [] {
      assert [] + b == b;
    } else {
      assert (a + b)[1..] == a[1..] + b;
      match Store(utf8, kind, a[0].num, a[0].data, acc)
      case ProtoError =>
      case Decoded(next) => StoreConcat(utf8, kind, a[1..], b, next);
    }
  }

  lemma UpdateTwice(acc: Message, num: nat, v: Value, w: Value)
    ensures acc[num := v][num := w] == acc[num := w]
  {
  }

  lemma StoreItem(utf8: Utf8, kind: Kind, f: Field, item: Buffer, acc: Message, done: seq<Buffer>)
    requires FieldOf(kind, f.num) == Some(f) && f.ftype == Text && f.repeated && utf8(item)
    requires f.num in acc && acc[f.num] == VList(done)
    ensures Store(utf8, kind, f.num, Payload(item), acc) == Decoded(acc[f.num := VList(done + [item])])
  {
  }

  lemma NextItem(done: seq<Buffer>, items: seq<Buffer>)
    requires items != []
    ensures (done + [items[0]]) + items[1..] == done + items
  {
  }

  lemma StoreFirst(utf8: Utf8, kind: Kind, entries: seq<Entry>, acc: Message, next: Message)
    requires entries != [] && Store(utf8, kind, entries[0].num, entries[0].data, acc) == Decoded(next)
    ensures StoreAll(utf8, kind, entries, acc) == StoreAll(utf8, kind, entries[1..], next)
  {
  }

  lemma {:induction false} StoreList(utf8: Utf8, kind: Kind, f: Field, items: seq<Buffer>, acc: Message, done: seq<Buffer>)
    requires FieldOf(kind, f.num) == Some(f) && f.ftype == Text && f.repeated
    requires f.num in acc && acc[f.num] == VList(done)
    requires forall i :: 0 <= i < |items| ==> utf8(items[i])
    ensures StoreAll(utf8, kind, ListEntries(f.num, items), acc) == Decoded(acc[f.num := VList(done + items)])
    decreases |items|
  {
    if items == [] {
      assert done + [] == done;
      assert acc[f.num := VList(done)] == acc;
    } else {
      var longer := done + [items[0]];
      var next := acc[f.num := VList(longer)];
      var entries := ListEntries(f.num, items);
      StoreItem(utf8, kind, f, items[0], acc, done);
      StoreFirst(utf8, kind, entries, acc, next);
      StoreList(utf8, kind, f, items[1..], next, longer);
      NextItem(done, items);
      UpdateTwice(acc, f.num, VList(longer), VList(done + items));
    }
  }

  lemma {:induction false} ListEntriesOk(num: nat, items: seq<Buffer>)
    requires num < 0x2000_0000 && forall i :: 0 <= i < |items| ==> |items[i]| < SIZE_LIMIT
    ensures AllOk(ListEntries(num, items))
  {
    if items != [] {
      ListEntriesOk(num, items[1..]);
    }
  }

  lemma {:induction false} FoundAt(fields: seq<Field>, i: nat)
    requires i < |fields| && forall j :: 0 <= j < i ==> fields[j].num != fields[i].num
    ensures FindField(fields, fields[i].num) == Some(fields[i])
    decreases i
  {
    if i > 0 {
      FoundAt(fields[1..], i - 1);
    }
  }

  lemma SchemaFound(kind: Kind, i: nat)
    requires i < |Schema(kind)|
    ensures FieldOf(kind, Schema(kind)[i].num) == Some(Schema(kind)[i])
  {
    SchemaNumbers(kind);
    FoundAt(Schema(kind), i);
  }

  lemma {:induction false} DefaultsAt(fields: seq<Field>, i: nat)
    requires i < |fields| && forall j, k :: 0 <= j < k < |fields| ==> fields[j].num != fields[k].num
    ensures fields[i].num in Defaults(fields) && Defaults(fields)[fields[i].num] == Default(fields[i])
    decreases |fields|
  {
    var n := |fields| - 1;
    if i < n {
      DefaultsAt(fields[..n], i);
    }
  }

  // Fields that are not reached yet hold their defaults.
  lemma {:induction false} StillDefault(kind: Kind, d: Message, n: nat, i: nat)
    requires n <= i < |Schema(kind)|
    ensures var f := Schema(kind)[i]; f.num in FilledUpTo(kind, d, n) && FilledUpTo(kind, d, n)[f.num] == Default(f)
    decreases n
  {
    SchemaNumbers(kind);
    if n == 0 {
      DefaultsAt(Schema(kind), i);
    } else {
      StillDefault(kind, d, n - 1, i);
    }
  }

  // A nested message that is known to come back.
  ghost predicate Nested(utf8: Utf8, kind: Kind, f: Field, v: Value)
  {
    v.VMessage? ==>
      (kind == WsFrame && |EncodeMessage(MessagePacket, v.fields)| < SIZE_LIMIT &&
       DecodeMessage(utf8, MessagePacket, EncodeMessage(MessagePacket, v.fields)) == Decoded(Filled(MessagePacket, v.fields)))
  }

  lemma FieldEntriesOk(utf8: Utf8, kind: Kind, f: Field, v: Value)
    requires f.num < 0x2000_0000 && ValueOk(utf8, f, v) && Nested(utf8, kind, f, v)
    ensures AllOk(FieldEntries(kind, f, v))
  {
    if v.VList? {
      ListEntriesOk(f.num, v.items);
    }
  }

  // One field of a message, from its records back to its value.
  lemma StoreField(utf8: Utf8, kind: Kind, d: Message, f: Field, acc: Message)
    requires FieldOf(kind, f.num) == Some(f) && f.num in acc && acc[f.num] == Default(f)
    requires ValueOk(utf8, f, Get(d, f.num)) && Nested(utf8, kind, f, Get(d, f.num))
    ensures StoreAll(utf8, kind, FieldEntries(kind, f, Get(d, f.num)), acc) ==
      Decoded(acc[f.num := FilledValue(kind, f, d)])
  {
    assert acc[f.num := acc[f.num]] == acc;
    match Get(d, f.num)
    case VList(items) =>
      assert [] + items == items;
      StoreList(utf8, kind, f, items, acc, []);
    case VMessage(m) => StoreOne(utf8, kind, Entry(f.num, Payload(EncodeMessage(MessagePacket, m))), acc);
    case VText(bytes) => StoreOne(utf8, kind, Entry(f.num, Payload(bytes)), acc);
    case VBlob(bytes) => StoreOne(utf8, kind, Entry(f.num, Payload(bytes)), acc);
    case VNumber(n) => if n > 0 { StoreOne(utf8, kind, Entry(f.num, Varint_(n)), acc); }
    case VNone =>
  }

  lemma StoreOne(utf8: Utf8, kind: Kind, e: Entry, acc: Message)
    ensures StoreAll(utf8, kind, [e], acc) == Store(utf8, kind, e.num, e.data, acc)
  {
  }

  lemma NestedComesBack(utf8: Utf8, kind: Kind, d: Message, i: nat)
    requires WellTyped(utf8, kind, d) && i < |Schema(kind)|
    ensures ValueOk(utf8, Schema(kind)[i], Get(d, Schema(kind)[i].num))
    ensures Nested(utf8, kind, Schema(kind)[i], Get(d, Schema(kind)[i].num))
    decreases Rank(kind), 0
  {
    var f := Schema(kind)[i];
    SchemaNumbers(kind);
    if Get(d, f.num).VMessage? {
      RoundTrip(utf8, MessagePacket, d[f.num].fields);
    }
  }

  lemma {:induction false} EntriesOk(utf8: Utf8, kind: Kind, d: Message, n: nat)
    requires WellTyped(utf8, kind, d) && n <= |Schema(kind)|
    ensures AllOk(EntriesUpTo(kind, d, n))
    decreases Rank(kind), 1, n
  {
    if n > 0 {
      SchemaNumbers(kind);
      EntriesOk(utf8, kind, d, n - 1);
      NestedComesBack(utf8, kind, d, n - 1);
      FieldEntriesOk(utf8, kind, Schema(kind)[n - 1], Get(d, Schema(kind)[n - 1].num));
    }
  }

  lemma {:induction false} StoreFields(utf8: Utf8, kind: Kind, d: Message, n: nat)
    requires WellTyped(utf8, kind, d) && n <= |Schema(kind)|
    ensures StoreAll(utf8, kind, EntriesUpTo(kind, d, n), Defaults(Schema(kind))) == Decoded(FilledUpTo(kind, d, n))
    decreases Rank(kind), 1, n
  {
    if n > 0 {
      var f := Schema(kind)[n - 1];
      var acc := FilledUpTo(kind, d, n - 1);
      assert StoreAll(utf8, kind, FieldEntries(kind, f, Get(d, f.num)), acc) ==
        Decoded(acc[f.num := FilledValue(kind, f, d)]) by {
        SchemaFound(kind, n - 1);
        StillDefault(kind, d, n - 1, n - 1);
        NestedComesBack(utf8, kind, d, n - 1);
        StoreField(utf8, kind, d, f, acc);
      }
      StoreFields(utf8, kind, d, n - 1);
      StoreConcat(utf8, kind, EntriesUpTo(kind, d, n - 1), FieldEntries(kind, f, Get(d, f.num)), Defaults(Schema(kind)));
    }
  }

  // Decoding an encoded message gives the message with its defaults filled in.
  lemma {:induction false} RoundTrip(utf8: Utf8, kind: Kind, d: Message)
    requires WellTyped(utf8, kind, d)
    ensures DecodeMessage(utf8, kind, EncodeMessage(kind, d)) == Decoded(Filled(kind, d))
    decreases Rank(kind), 2
  {
    var n := |Schema(kind)|;
    EntriesOk(utf8, kind, d, n);
    StoreFields(utf8, kind, d, n);
    DecodeEntries(utf8, kind, EntriesUpTo(kind, d, n), [], Defaults(Schema(kind)));
    assert EncodeMessage(kind, d) + [] == EncodeMessage(kind, d);
  }

  // Every field is there: as it was given, or with the default of its type.
  lemma {:induction false} FilledAt(kind: Kind, d: Message, n: nat, i: nat)
    requires i < n <= |Schema(kind)|
    ensures var f := Schema(kind)[i];
      f.num in FilledUpTo(kind, d, n) && FilledUpTo(kind, d, n)[f.num] == FilledValue(kind, f, d)
    decreases n
  {
    SchemaNumbers(kind);
    if i < n - 1 {
      FilledAt(kind, d, n - 1, i);
    }
  }
}
