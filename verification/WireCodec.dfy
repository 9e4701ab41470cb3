// The encoders and the decoder as they run: wire.py with bit operations and positions in one
// buffer, proto.js with division and pushed bytes.  Both encoders are tied to the same
// functions, so they write the same bytes; the decoder's loop is tied to the recursive one
// through a name for decoding from a position on.
module WireCodec {
  import opened Bits
  import opened KeyTree
  import opened Varint
  import opened Wire

  lemma {:induction false} FlattenConcat(a: seq<Entry>, b: seq<Entry>)
    ensures Flatten(a + b) == Flatten(a) + Flatten(b)
    decreases |a|
  {
    if a == [] {
      assert [] + b == b;
    } else {
      assert (a + b)[1..] == a[1..] + b;
      FlattenConcat(a[1..], b);
      assert EncodeEntry(a[0]) + (Flatten(a[1..]) + Flatten(b)) == (EncodeEntry(a[0]) + Flatten(a[1..])) + Flatten(b);
    }
  }

  lemma FlattenOne(e: Entry)
    ensures Flatten([e]) == EncodeEntry(e)
  {
    assert Flatten([e]) == EncodeEntry(e) + [];
  }

  // The numbers and sizes an encoder accepts: from zero up to the largest, if there is one.
  predicate InRange(n: int, largest: Option<nat>)
  {
    0 <= n && (largest.Some? ==> n <= largest.value)
  }

  predicate ItemsInRange(items: seq<Buffer>, largest: Option<nat>)
  {
    forall i :: 0 <= i < |items| ==> InRange(|items[i]|, largest)
  }

  ghost predicate FieldEncodable(kind: Kind, v: Value, largest: Option<nat>)
    decreases Rank(kind), 0
  {
    match v
    case VNone => true
    case VText(bytes) => InRange(|bytes|, largest)
    case VBlob(bytes) => InRange(|bytes|, largest)
    case VNumber(n) => InRange(n, largest)
    case VList(items) => ItemsInRange(items, largest)
    case VMessage(m) =>
      kind == WsFrame ==>
        (Encodable(MessagePacket, m, largest, |Schema(MessagePacket)|) && InRange(|EncodeMessage(MessagePacket, m)|, largest))
  }

  // The first n fields of a message, and what is nested in them.
  ghost predicate Encodable(kind: Kind, d: Message, largest: Option<nat>, n: nat)
    requires n <= |Schema(kind)|
    decreases Rank(kind), 1, n
  {
    n == 0 ||
    (Encodable(kind, d, largest, n - 1) && FieldEncodable(kind, Get(d, Schema(kind)[n - 1].num), largest))
  }

  lemma {:induction false} EncodablePrefix(kind: Kind, d: Message, largest: Option<nat>, i: nat, n: nat)
    requires i <= n <= |Schema(kind)| && Encodable(kind, d, largest, n)
    ensures Encodable(kind, d, largest, i)
    decreases n
  {
    if i < n {
      EncodablePrefix(kind, d, largest, i, n - 1);
    }
  }

  // ------------------------------------------------------------------ wire.py

  lemma {:induction false} OrCommutes(a: nat, b: nat)
    ensures Or(a, b) == Or(b, a)
    decreases a + b
  {
    if a > 0 || b > 0 {
      OrCommutes(a / 2, b / 2);
    }
  }

  // (num << 3) | wire
  method Key(num: nat, wire: nat) returns (key: nat)
    requires wire < 8
    ensures key == num * 8 + wire
  {
    ghost var n: nat := 3;
    assert Doubled(1, n - 2) == 2 && Doubled(num, n - 2) == num * 2;
    assert Doubled(1, n) == 8 && Doubled(num, n) == num * 8;
    DoubledIsShl(num, n);
    OrDisjoint(wire, num, n);
    OrCommutes(wire, num * 8);
    key := Or(Shl(num, 3), wire);
  }

  method AppendNumber(out: Buffer, num: nat, n: nat) returns (r: Buffer)
    ensures r == out + EncodeEntry(Entry(num, Varint_(n)))
  {
    var key := Key(num, 0);
    var withKey := EncVarint(key, out);
    var withNumber := EncVarint(n, withKey.value);
    r := withNumber.value;
    assert (out + EncodeVarint(num * 8)) + EncodeVarint(n) == out + (EncodeVarint(num * 8) + EncodeVarint(n));
  }

  method AppendPayload(out: Buffer, num: nat, bytes: Buffer) returns (r: Buffer)
    ensures r == out + EncodeEntry(Entry(num, Payload(bytes)))
  {
    var key := Key(num, 2);
    var withKey := EncVarint(key, out);
    var withSize := EncVarint(|bytes|, withKey.value);
    r := withSize.value + bytes;
    var k, s := EncodeVarint(num * 8 + 2), EncodeVarint(|bytes|);
    assert out + k + s + bytes == out + (k + s + bytes);
  }

  lemma {:induction false} ListEntriesLonger(num: nat, items: seq<Buffer>, item: Buffer)
    ensures ListEntries(num, items + [item]) == ListEntries(num, items) + [Entry(num, Payload(item))]
  {
    if items != [] {
      assert (items + [item])[1..] == items[1..] + [item];
      ListEntriesLonger(num, items[1..], item);
    }
  }

  lemma FlattenLonger(out: Buffer, num: nat, items: seq<Buffer>, item: Buffer)
    ensures out + Flatten(ListEntries(num, items)) + EncodeEntry(Entry(num, Payload(item))) ==
      out + Flatten(ListEntries(num, items + [item]))
  {
    var e := Entry(num, Payload(item));
    ListEntriesLonger(num, items, item);
    FlattenConcat(ListEntries(num, items), [e]);
    FlattenOne(e);
    Associate(out, Flatten(ListEntries(num, items)), EncodeEntry(e));
  }

  lemma Associate(a: Buffer, b: Buffer, c: Buffer)
    ensures a + b + c == a + (b + c)
  {
  }

  // These items of a list are written.
  ghost predicate ListWritten(out: Buffer, num: nat, done: seq<Buffer>, r: Buffer)
  {
    r == out + Flatten(ListEntries(num, done))
  }

  lemma ListStarts(out: Buffer, num: nat)
    ensures ListWritten(out, num, [], out)
  {
    assert out + [] == out;
  }

  lemma ListGoesOn(out: Buffer, num: nat, done: seq<Buffer>, item: Buffer, r: Buffer)
    requires ListWritten(out, num, done, r)
    ensures ListWritten(out, num, done + [item], r + EncodeEntry(Entry(num, Payload(item))))
  {
    FlattenLonger(out, num, done, item);
  }

  method AppendList(out: Buffer, num: nat, items: seq<Buffer>) returns (r: Buffer)
    ensures ListWritten(out, num, items, r)
  {
    r := out;
    ghost var done: seq<Buffer> := [];
    ListStarts(out, num);
    for i := 0 to |items|
      invariant done == items[..i] && ListWritten(out, num, done, r)
    {
      ListGoesOn(out, num, done, items[i], r);
      r := AppendPayload(r, num, items[i]);
      done := done + [items[i]];
    }
    assert done == items;
  }

  // The record of a singular field, unless its value is empty.
  method AppendText(out: Buffer, num: nat, bytes: Buffer) returns (r: Buffer)
    ensures r == out + Flatten(if bytes == [] then [] else [Entry(num, Payload(bytes))])
  {
    r := out;
    if bytes != [] {
      FlattenOne(Entry(num, Payload(bytes)));
      r := AppendPayload(out, num, bytes);
    } else {
      assert out + [] == out;
    }
  }

  method AppendInteger(out: Buffer, num: nat, n: int) returns (r: Option<Buffer>)
    ensures r == if n < 0 then None else Some(out + Flatten(if n <= 0 then [] else [Entry(num, Varint_(n))]))
  {
    if n < 0 {
      return None;
    }
    if n == 0 {
      assert out + [] == out;
      return Some(out);
    }
    FlattenOne(Entry(num, Varint_(n)));
    var longer := AppendNumber(out, num, n);
    r := Some(longer);
  }

  method AppendField(kind: Kind, f: Field, v: Value, out: Buffer) returns (r: Option<Buffer>)
    requires Fits(f, v) && (v.VMessage? && kind == WsFrame ==> Shaped(MessagePacket, v.fields))
    ensures r.Some? <==> FieldEncodable(kind, v, None)
    ensures r.Some? ==> r.value == out + Flatten(FieldEntries(kind, f, v))
    decreases Rank(kind), 0
  {
    var longer := out;
    assert out + [] == out;
    match v {
      case VNone =>
      case VList(items) => longer := AppendList(out, f.num, items);
      case VText(bytes) => longer := AppendText(out, f.num, bytes);
      case VBlob(bytes) => longer := AppendText(out, f.num, bytes);
      case VNumber(n) =>
        var withNumber := AppendInteger(out, f.num, n);
        return withNumber;
      case VMessage(m) =>
        if kind == WsFrame {
          var nested := Encode(MessagePacket, m);
          if nested.None? {
            return None;
          }
          FlattenOne(Entry(f.num, Payload(nested.value)));
          longer := AppendPayload(out, f.num, nested.value);
        }
    }
    r := Some(longer);
  }

  lemma NextField(kind: Kind, d: Message, i: nat)
    requires i < |Schema(kind)|
    ensures Flatten(EntriesUpTo(kind, d, i + 1)) ==
      Flatten(EntriesUpTo(kind, d, i)) + Flatten(FieldEntries(kind, Schema(kind)[i], Get(d, Schema(kind)[i].num)))
  {
    FlattenConcat(EntriesUpTo(kind, d, i), FieldEntries(kind, Schema(kind)[i], Get(d, Schema(kind)[i].num)));
  }

  // The first i fields are written.
  ghost predicate Written(kind: Kind, d: Message, largest: Option<nat>, i: nat, out: Buffer)
  {
    i <= |Schema(kind)| && out == Flatten(EntriesUpTo(kind, d, i)) && Encodable(kind, d, largest, i)
  }

  lemma WrittenNext(kind: Kind, d: Message, largest: Option<nat>, i: nat, out: Buffer, longer: Option<Buffer>)
    requires Written(kind, d, largest, i, out) && i < |Schema(kind)|
    requires longer.Some? <==> FieldEncodable(kind, Get(d, Schema(kind)[i].num), largest)
    requires longer.Some? ==>
      longer.value == out + Flatten(FieldEntries(kind, Schema(kind)[i], Get(d, Schema(kind)[i].num)))
    ensures longer.Some? ==> Written(kind, d, largest, i + 1, longer.value)
    ensures longer.None? ==> !Encodable(kind, d, largest, |Schema(kind)|)
  {
    NextField(kind, d, i);
    if longer.None? && Encodable(kind, d, largest, |Schema(kind)|) {
      EncodablePrefix(kind, d, largest, i + 1, |Schema(kind)|);
    }
  }

  method Encode(kind: Kind, d: Message) returns (r: Option<Buffer>)
    requires Shaped(kind, d)
    ensures r.Some? <==> Encodable(kind, d, None, |Schema(kind)|)
    ensures r.Some? ==> r.value == EncodeMessage(kind, d)
    decreases Rank(kind), 1
  {
    var schema := Schema(kind);
    var out := [];
    for i := 0 to |schema|
      invariant Written(kind, d, None, i, out)
    {
      var longer := AppendField(kind, schema[i], Get(d, schema[i].num), out);
      WrittenNext(kind, d, None, i, out, longer);
      if longer.None? {
        return None;
      }
      out := longer.value;
    }
    r := Some(out);
  }

  // ------------------------------------------------------------------ proto.js

  const LARGEST := Some(MAX_SAFE_INTEGER)

  method PushNumber(out: Buffer, num: nat, n: int) returns (r: Option<Buffer>)
    requires num < 0x2000_0000
    ensures r == if n == 0 then Some(out)
                 else if InRange(n, LARGEST) then Some(out + EncodeEntry(Entry(num, Varint_(n)))) else None
  {
    if n == 0 {
      return Some(out);
    }
    var withKey := PushVarint(out, num * 8);
    r := PushVarint(withKey.value, n);
    if r.Some? {
      Associate(out, EncodeVarint(num * 8), EncodeVarint(n));
    }
  }

  method PushPayload(out: Buffer, num: nat, bytes: Buffer) returns (r: Option<Buffer>)
    requires num < 0x2000_0000
    ensures r.Some? <==> InRange(|bytes|, LARGEST)
    ensures r.Some? ==> r.value == out + EncodeEntry(Entry(num, Payload(bytes)))
  {
    var withKey := PushVarint(out, num * 8 + 2);
    var withSize := PushVarint(withKey.value, |bytes|);
    if withSize.None? {
      return None;
    }
    var longer := withSize.value;
    for i := 0 to |bytes|
      invariant longer == withSize.value + bytes[..i]
    {
      longer := longer + [bytes[i]];
    }
    assert bytes[..|bytes|] == bytes;
    var k, s := EncodeVarint(num * 8 + 2), EncodeVarint(|bytes|);
    assert out + k + s + bytes == out + (k + s + bytes);
    r := Some(longer);
  }

  method PushList(out: Buffer, num: nat, items: seq<Buffer>) returns (r: Option<Buffer>)
    requires num < 0x2000_0000
    ensures r.Some? <==> ItemsInRange(items, LARGEST)
    ensures r.Some? ==> ListWritten(out, num, items, r.value)
  {
    var longer := out;
    ghost var done: seq<Buffer> := [];
    ListStarts(out, num);
    for i := 0 to |items|
      invariant done == items[..i] && ListWritten(out, num, done, longer)
      invariant forall j :: 0 <= j < i ==> InRange(|items[j]|, LARGEST)
    {
      ListGoesOn(out, num, done, items[i], longer);
      var next := PushPayload(longer, num, items[i]);
      if next.None? {
        return None;
      }
      longer := next.value;
      done := done + [items[i]];
    }
    assert done == items;
    r := Some(longer);
  }

  method PushField(kind: Kind, f: Field, v: Value, out: Buffer) returns (r: Option<Buffer>)
    requires f.num < 0x2000_0000 && Fits(f, v) && (v.VMessage? && kind == WsFrame ==> Shaped(MessagePacket, v.fields))
    ensures r.Some? <==> FieldEncodable(kind, v, LARGEST)
    ensures r.Some? ==> r.value == out + Flatten(FieldEntries(kind, f, v))
    decreases Rank(kind), 0
  {
    assert out + [] == out;
    r := Some(out);
    match v {
      case VNone =>
      case VList(items) => r := PushList(out, f.num, items);
      case VText(bytes) =>
        FlattenOne(Entry(f.num, Payload(bytes)));
        if bytes != [] { r := PushPayload(out, f.num, bytes); }
      case VBlob(bytes) =>
        FlattenOne(Entry(f.num, Payload(bytes)));
        if bytes != [] { r := PushPayload(out, f.num, bytes); }
      case VNumber(n) =>
        if n > 0 { FlattenOne(Entry(f.num, Varint_(n))); }
        r := PushNumber(out, f.num, n);
      case VMessage(m) =>
        if kind == WsFrame {
          var nested := EncodeJs(MessagePacket, m);
          if nested.None? {
            return None;
          }
          FlattenOne(Entry(f.num, Payload(nested.value)));
          r := PushPayload(out, f.num, nested.value);
        }
    }
  }

  // The same bytes as the server's encoder, for numbers that a double holds exactly.
  method EncodeJs(kind: Kind, d: Message) returns (r: Option<Buffer>)
    requires Shaped(kind, d)
    ensures r.Some? <==> Encodable(kind, d, LARGEST, |Schema(kind)|)
    ensures r.Some? ==> r.value == EncodeMessage(kind, d)
    decreases Rank(kind), 1
  {
    var schema := Schema(kind);
    var out := [];
    SchemaNumbers(kind);
    for i := 0 to |schema|
      invariant Written(kind, d, LARGEST, i, out)
    {
      var longer := PushField(kind, schema[i], Get(d, schema[i].num), out);
      WrittenNext(kind, d, LARGEST, i, out, longer);
      if longer.None? {
        return None;
      }
      out := longer.value;
    }
    r := Some(out);
  }

  // ------------------------------------------------------------------ wire.py, decode

  lemma DropMore(buf: Buffer, pos: nat, size: nat)
    requires pos < |buf|
    ensures Drop(buf, pos + size) == Drop(buf[pos..], size)
  {
    if pos + size <= |buf| {
      assert buf[pos..][size..] == buf[pos + size..];
    }
  }

  // A name for decoding from here on, so that the loop need not look inside.
  type Decoder = (Buffer, Message) -> Decoded

  ghost predicate Agrees(decoder: Decoder, utf8: Utf8, kind: Kind, buf: Buffer, acc: Message)
  {
    decoder(buf, acc) == DecodeFrom(utf8, kind, buf, acc)
  }

  ghost predicate IsDecoder(decoder: Decoder, utf8: Utf8, kind: Kind)
  {
    forall buf, acc {:trigger Agrees(decoder, utf8, kind, buf, acc)} :: Agrees(decoder, utf8, kind, buf, acc)
  }

  lemma DecodeTurn(decoder: Decoder, utf8: Utf8, kind: Kind, buf: Buffer, record: Parsed<Record>, acc: Message, turn: Turn)
    requires IsDecoder(decoder, utf8, kind)
    requires buf != [] && record == ReadRecord(buf) && turn == TurnOf(utf8, kind, record, acc)
    ensures turn.GoOn? ==> turn.size > 0 && decoder(buf, acc) == decoder(Drop(buf, turn.size), turn.message)
    ensures turn.Stop? ==> decoder(buf, acc) == ProtoError
  {
    DecodeOne(utf8, kind, buf, record, acc);
    assert Agrees(decoder, utf8, kind, buf, acc);
    if turn.GoOn? {
      assert Agrees(decoder, utf8, kind, Drop(buf, turn.size), turn.message);
    }
  }

  method TakeTurn(ghost decoder: Decoder, utf8: Utf8, kind: Kind, buf: Buffer, pos: nat, acc: Message) returns (turn: Turn)
    requires IsBuffer(buf) && pos < |buf| && IsDecoder(decoder, utf8, kind)
    ensures turn.GoOn? ==>
      (turn.size > 0 && decoder(Drop(buf, pos), acc) == decoder(Drop(buf, pos + turn.size), turn.message))
    ensures turn.Stop? ==> decoder(Drop(buf, pos), acc) == ProtoError
  {
    var record := ReadAt(buf, pos);
    turn := TurnOf(utf8, kind, record, acc);
    DecodeTurn(decoder, utf8, kind, buf[pos..], record, acc, turn);
    if turn.GoOn? {
      DropMore(buf, pos, turn.size);
    }
  }

  // The reading loop, with positions into one buffer.
  method DecodeLoop(ghost decoder: Decoder, utf8: Utf8, kind: Kind, buf: Buffer, defaults: Message) returns (r: Decoded)
    requires IsBuffer(buf) && IsDecoder(decoder, utf8, kind)
    ensures r == decoder(buf, defaults)
  {
    var result := defaults;
    var pos: nat := 0;
    assert Drop(buf, 0) == buf;
    while pos < |buf|
      invariant decoder(Drop(buf, pos), result) == decoder(buf, defaults)
      decreases |buf| - pos
    {
      var turn := TakeTurn(decoder, utf8, kind, buf, pos, result);
      if turn.Stop? {
        return ProtoError;
      }
      pos, result := pos + turn.size, turn.message;
    }
    assert Drop(buf, pos) == [];
    assert Agrees(decoder, utf8, kind, [], result);
    r := Decoded(result);
  }

  ghost function DecoderOf(utf8: Utf8, kind: Kind): Decoder
  {
    (buf, acc) => DecodeFrom(utf8, kind, buf, acc)
  }

  method Decode(utf8: Utf8, kind: Kind, buf: Buffer) returns (r: Decoded)
    requires IsBuffer(buf)
    ensures r == DecodeMessage(utf8, kind, buf)
  {
    assert IsDecoder(DecoderOf(utf8, kind), utf8, kind) by {
      forall b, a ensures Agrees(DecoderOf(utf8, kind), utf8, kind, b, a) {
      }
    }
    r := DecodeLoop(DecoderOf(utf8, kind), utf8, kind, buf, Defaults(Schema(kind)));
  }

  lemma SliceOfSlice(buf: Buffer, start: nat, a: nat, b: nat, n: nat)
    requires start + a + b + n <= |buf|
    ensures buf[start..][a..][b..b + n] == buf[start + a + b..start + a + b + n]
  {
  }

  method ReadAt(buf: Buffer, start: nat) returns (r: Parsed<Record>)
    requires IsBuffer(buf) && start < |buf|
    ensures r == ReadRecord(buf[start..])
  {
    ghost var rest := buf[start..];
    var key := DecVarint(buf, start);
    if key.Malformed? {
      return Malformed;
    }
    var pos := start + key.size;
    assert rest[key.size..] == buf[pos..];
    var num, wire := key.value / 8, key.value % 8;
    if wire == 0 {
      var n := DecVarint(buf, pos);
      return if n.Malformed? then Malformed else Parsed(Record(num, Varint_(n.value)), key.size + n.size);
    } else if wire == 2 {
      var length := DecVarint(buf, pos);
      if length.Malformed? || pos + length.size + length.value > |buf| {
        return Malformed;
      }
      var from := pos + length.size;
      SliceOfSlice(buf, start, key.size, length.size, length.value);
      return Parsed(Record(num, Payload(buf[from..from + length.value])), key.size + length.size + length.value);
    } else if wire == 1 {
      return Parsed(Skipped, key.size + 8);
    } else if wire == 5 {
      return Parsed(Skipped, key.size + 4);
    }
    r := Malformed;
  }
}
