// The browser's decoder, proto.js: how far it mirrors the server's, and which messages come
// back from it unchanged.  It drops a byte order mark in front of a text and does not check
// wire types; apart from that, and from numbers beyond those a double holds, the two
// decoders agree on every buffer.
module WireBrowser {
  import opened KeyTree
  import opened Varint
  import opened Wire
  import opened WireRoundTrip
  import opened WireCodec

  // Mistyped: a known field came under the wrong wire type, which proto.js does not check.
  // Unsafe: a number came that a double need not hold exactly.  What follows then is left open.
  datatype Read = Ok(message: Message) | Failed | Mistyped | Unsafe

  const BYTE_ORDER_MARK: Buffer := [0xef, 0xbb, 0xbf]

  // TextDecoder drops one mark in front of a text.
  function Unmarked(bytes: Buffer): Buffer
  {
    if BYTE_ORDER_MARK <= bytes then bytes[3..] else bytes
  }

  predicate IsSafe(n: nat)
  {
    n <= MAX_SAFE_INTEGER
  }

  predicate SafeVarint(buf: Buffer)
  {
    ReadVarint(buf, 0).Parsed? ==> IsSafe(ReadVarint(buf, 0).value)
  }

  // The key of the next record and the number after it, if there is one.
  predicate SafeRecord(buf: Buffer)
  {
    match ReadVarint(buf, 0)
    case Malformed => true
    case Parsed(key, k) => IsSafe(key) && (key % 8 == 0 || key % 8 == 2 ==> SafeVarint(buf[k..]))
  }

  // ------------------------------------------------------------------ proto.js, decode

  function PayloadLength(data: Data): nat
  {
    if data.Payload? then |data.bytes| else 0
  }

  function StoreJs(utf8: Utf8, kind: Kind, num: nat, data: Data, acc: Message): Read
    decreases PayloadLength(data), 2
  {
    match FieldOf(kind, num)
    case None => Ok(acc)
    case Some(f) =>
      if (f.ftype == Number) != data.Varint_? then Mistyped
      else
        match f.ftype
        case Number => Ok(acc[num := VNumber(data.n)])
        case Blob => Ok(acc[num := VBlob(data.bytes)])
        case Text =>
          if !utf8(data.bytes) then Failed
          else if f.repeated then
            Ok(acc[num := VList((if Get(acc, num).VList? then acc[num].items else []) + [Unmarked(data.bytes)])])
          else Ok(acc[num := VText(Unmarked(data.bytes))])
        case Packet =>
          match DecodeMessageJs(utf8, MessagePacket, data.bytes)
          case Ok(m) => Ok(acc[num := VMessage(m)])
          case other => other
  }

  datatype TurnJs = StopJs(read: Read) | GoOnJs(size: nat, message: Message)

  function TurnJsOf(utf8: Utf8, kind: Kind, safe: bool, record: Parsed<Record>, acc: Message): (turn: TurnJs)
    ensures turn.GoOnJs? ==> record.Parsed? && turn.size == record.size
    ensures turn.StopJs? ==> !turn.read.Ok?
    decreases PayloadSize(record), 3
  {
    if !safe then StopJs(Unsafe)
    else if record.Malformed? then StopJs(Failed)
    else if record.value.Skipped? then GoOnJs(record.size, acc)
    else
      match StoreJs(utf8, kind, record.value.num, record.value.data, acc)
      case Ok(next) => GoOnJs(record.size, next)
      case other => StopJs(other)
  }

  function DecodeFromJs(utf8: Utf8, kind: Kind, buf: Buffer, acc: Message): Read
    decreases |buf|, 0
  {
    if buf == [] then Ok(acc)
    else
      match TurnJsOf(utf8, kind, SafeRecord(buf), ReadRecord(buf), acc)
      case StopJs(read) => read
      case GoOnJs(size, next) => DecodeFromJs(utf8, kind, Drop(buf, size), next)
  }

  function DecodeMessageJs(utf8: Utf8, kind: Kind, buf: Buffer): Read
    decreases |buf|, 1
  {
    DecodeFromJs(utf8, kind, buf, Defaults(Schema(kind)))
  }

  // ------------------------------------------------------------------ the two decoders

  // A message whose texts have lost their marks, in nested messages too.
  function StripValue(v: Value, depth: nat): Value
    decreases depth, 0
  {
    match v
    case VText(bytes) => VText(Unmarked(bytes))
    case VList(items) => VList(StripItems(items))
    case VMessage(m) => if depth > 0 then VMessage(Strip(m, depth - 1)) else v
    case _ => v
  }

  function StripItems(items: seq<Buffer>): (r: seq<Buffer>)
    ensures |r| == |items| && forall i :: 0 <= i < |items| ==> r[i] == Unmarked(items[i])
  {
    seq(|items|, i requires 0 <= i < |items| => Unmarked(items[i]))
  }

  function Strip(m: Message, depth: nat): Message
    decreases depth, 1
  {
    map n | n in m :: StripValue(m[n], depth)
  }

  lemma StripUpdate(m: Message, n: nat, v: Value, depth: nat)
    ensures Strip(m[n := v], depth) == Strip(m, depth)[n := StripValue(v, depth)]
  {
  }

  // What the browser reads is what the server reads, up to the marks; where it fails or is
  // given a wrong wire type the server fails.
  ghost predicate Mirrors(d: Decoded, j: Read, depth: nat)
  {
    match j
    case Ok(m) => d.Decoded? && m == Strip(d.message, depth)
    case Failed => d.ProtoError?
    case Mistyped => d.ProtoError?
    case Unsafe => true
  }

  lemma {:induction false} FoundInSchema(fields: seq<Field>, num: nat) returns (i: nat)
    requires FindField(fields, num).Some?
    ensures i < |fields| && fields[i] == FindField(fields, num).value
  {
    if fields[0].num == num {
      i := 0;
    } else {
      i := FoundInSchema(fields[1..], num);
      i := i + 1;
    }
  }

  lemma PacketsInFrames(kind: Kind, num: nat)
    requires FieldOf(kind, num).Some? && FieldOf(kind, num).value.ftype == Packet
    ensures kind == WsFrame
  {
    var i := FoundInSchema(Schema(kind), num);
    SchemaNumbers(kind);
  }

  lemma StripDefault(f: Field, depth: nat)
    ensures StripValue(Default(f), depth) == Default(f)
  {
    assert StripItems([]) == [];
  }

  lemma {:induction false} StripDefaults(fields: seq<Field>, depth: nat)
    ensures Strip(Defaults(fields), depth) == Defaults(fields)
  {
    if fields != [] {
      var n := |fields| - 1;
      StripDefaults(fields[..n], depth);
      StripUpdate(Defaults(fields[..n]), fields[n].num, Default(fields[n]), depth);
      StripDefault(fields[n], depth);
    }
  }

  lemma StripLonger(items: seq<Buffer>, item: Buffer)
    ensures StripItems(items + [item]) == StripItems(items) + [Unmarked(item)]
  {
  }

  // The text items stored so far, in both.
  lemma TextMirrors(utf8: Utf8, kind: Kind, num: nat, bytes: Buffer, acc: Message)
    requires FieldOf(kind, num).Some? && FieldOf(kind, num).value.ftype == Text
    ensures Mirrors(Store(utf8, kind, num, Payload(bytes), acc),
                    StoreJs(utf8, kind, num, Payload(bytes), Strip(acc, Rank(kind))), Rank(kind))
  {
    var depth, f := Rank(kind), FieldOf(kind, num).value;
    if f.repeated {
      var had := if Get(acc, num).VList? then acc[num].items else [];
      assert (if Get(Strip(acc, depth), num).VList? then Strip(acc, depth)[num].items else []) == StripItems(had);
      StripLonger(had, bytes);
      StripUpdate(acc, num, VList(had + [bytes]), depth);
    } else {
      StripUpdate(acc, num, VText(bytes), depth);
    }
  }

  lemma {:induction false} StoreMirrors(utf8: Utf8, kind: Kind, num: nat, data: Data, acc: Message)
    ensures Mirrors(Store(utf8, kind, num, data, acc),
                    StoreJs(utf8, kind, num, data, Strip(acc, Rank(kind))), Rank(kind))
    decreases PayloadLength(data), 2
  {
    var field, depth := FieldOf(kind, num), Rank(kind);
    if field.Some? && (field.value.ftype == Number) == data.Varint_? {
      match field.value.ftype {
        case Number => StripUpdate(acc, num, VNumber(data.n), depth);
        case Blob => StripUpdate(acc, num, VBlob(data.bytes), depth);
        case Text => TextMirrors(utf8, kind, num, data.bytes, acc);
        case Packet =>
          PacketsInFrames(kind, num);
          MessageMirrors(utf8, MessagePacket, data.bytes);
          var nested := DecodeMessage(utf8, MessagePacket, data.bytes);
          if nested.Decoded? {
            StripUpdate(acc, num, VMessage(nested.message), depth);
          }
      }
    }
  }

  ghost predicate MirrorsTurn(turn: Turn, j: TurnJs, depth: nat)
  {
    match j
    case GoOnJs(size, m) => turn.GoOn? && size == turn.size && m == Strip(turn.message, depth)
    case StopJs(read) => !read.Ok? && (read.Unsafe? || turn.Stop?)
  }

  lemma TurnMirrors(utf8: Utf8, kind: Kind, safe: bool, record: Parsed<Record>, acc: Message)
    ensures MirrorsTurn(TurnOf(utf8, kind, record, acc),
                        TurnJsOf(utf8, kind, safe, record, Strip(acc, Rank(kind))), Rank(kind))
    decreases PayloadSize(record), 3
  {
    if record.Parsed? && record.value.Record? {
      StoreMirrors(utf8, kind, record.value.num, record.value.data, acc);
    }
  }

  function ResumeJs(utf8: Utf8, kind: Kind, buf: Buffer, turn: TurnJs): Read
  {
    if turn.StopJs? then turn.read else DecodeFromJs(utf8, kind, Drop(buf, turn.size), turn.message)
  }

  lemma DecodeOneJs(utf8: Utf8, kind: Kind, buf: Buffer, safe: bool, record: Parsed<Record>, acc: Message)
    requires buf != [] && safe == SafeRecord(buf) && record == ReadRecord(buf)
    ensures DecodeFromJs(utf8, kind, buf, acc) == ResumeJs(utf8, kind, buf, TurnJsOf(utf8, kind, safe, record, acc))
  {
  }

  lemma OneMirrors(utf8: Utf8, kind: Kind, buf: Buffer, turn: Turn, j: TurnJs)
    requires MirrorsTurn(turn, j, Rank(kind))
    requires turn.GoOn? ==>
      Mirrors(DecodeFrom(utf8, kind, Drop(buf, turn.size), turn.message),
              DecodeFromJs(utf8, kind, Drop(buf, turn.size), Strip(turn.message, Rank(kind))), Rank(kind))
    ensures Mirrors(Resume(utf8, kind, buf, 0, turn), ResumeJs(utf8, kind, buf, j), Rank(kind))
  {
  }

  lemma {:induction false} FromMirrors(utf8: Utf8, kind: Kind, buf: Buffer, acc: Message)
    ensures Mirrors(DecodeFrom(utf8, kind, buf, acc),
                    DecodeFromJs(utf8, kind, buf, Strip(acc, Rank(kind))), Rank(kind))
    decreases |buf|, 0
  {
    if buf != [] {
      var record := ReadRecord(buf);
      NextMirrors(utf8, kind, buf, SafeRecord(buf), record, acc);
    }
  }

  lemma {:induction false} NextMirrors(utf8: Utf8, kind: Kind, buf: Buffer, safe: bool, record: Parsed<Record>, acc: Message)
    requires buf != [] && safe == SafeRecord(buf) && record == ReadRecord(buf) && PayloadSize(record) < |buf|
    ensures Mirrors(DecodeFrom(utf8, kind, buf, acc),
                    DecodeFromJs(utf8, kind, buf, Strip(acc, Rank(kind))), Rank(kind))
    decreases |buf| - 1, 4
  {
    var turn := TurnOf(utf8, kind, record, acc);
    TurnMirrors(utf8, kind, safe, record, acc);
    if turn.GoOn? {
      FromMirrors(utf8, kind, Drop(buf, turn.size), turn.message);
    }
    DecodeOne(utf8, kind, buf, record, acc);
    DecodeOneJs(utf8, kind, buf, safe, record, Strip(acc, Rank(kind)));
    OneMirrors(utf8, kind, buf, turn, TurnJsOf(utf8, kind, safe, record, Strip(acc, Rank(kind))));
  }

  // For every buffer.
  lemma {:induction false} MessageMirrors(utf8: Utf8, kind: Kind, buf: Buffer)
    ensures Mirrors(DecodeMessage(utf8, kind, buf), DecodeMessageJs(utf8, kind, buf), Rank(kind))
    decreases |buf|, 1
  {
    StripDefaults(Schema(kind), Rank(kind));
    FromMirrors(utf8, kind, buf, Defaults(Schema(kind)));
  }

  // ------------------------------------------------------------------ round trip

  ghost predicate UnmarkedValue(v: Value, depth: nat)
    decreases depth, 0
  {
    match v
    case VText(bytes) => !(BYTE_ORDER_MARK <= bytes)
    case VList(items) => forall i :: 0 <= i < |items| ==> !(BYTE_ORDER_MARK <= items[i])
    case VMessage(m) => depth > 0 ==> NoMarks(m, depth - 1)
    case _ => true
  }

  // No text of the message starts with a byte order mark.
  ghost predicate NoMarks(m: Message, depth: nat)
    decreases depth, 1
  {
    forall n :: n in m ==> UnmarkedValue(m[n], depth)
  }

  lemma UnmarkedSame(bytes: Buffer)
    ensures Unmarked(bytes) == bytes <==> !(BYTE_ORDER_MARK <= bytes)
  {
  }

  lemma {:induction false} StripSameValue(v: Value, depth: nat)
    ensures StripValue(v, depth) == v <==> UnmarkedValue(v, depth)
    decreases depth, 0
  {
    match v
    case VText(bytes) => UnmarkedSame(bytes);
    case VList(items) =>
      forall i | 0 <= i < |items| ensures StripItems(items)[i] == items[i] <==> !(BYTE_ORDER_MARK <= items[i]) {
        UnmarkedSame(items[i]);
      }
    case VMessage(m) => if depth > 0 { StripSame(m, depth - 1); }
    case _ =>
  }

  lemma {:induction false} StripSame(m: Message, depth: nat)
    ensures Strip(m, depth) == m <==> NoMarks(m, depth)
    decreases depth, 1
  {
    forall n | n in m ensures Strip(m, depth)[n] == m[n] <==> UnmarkedValue(m[n], depth) {
      StripSameValue(m[n], depth);
    }
  }

  predicate SafeData(data: Data)
  {
    match data case Varint_(n) => IsSafe(n) case Payload(bytes) => IsSafe(|bytes|)
  }

  lemma SafeEntry(e: Entry, rest: Buffer)
    requires EntryOk(e) && SafeData(e.data)
    ensures SafeRecord(EncodeEntry(e) + rest)
  {
    match e.data {
      case Varint_(n) =>
        var number := EncodeVarint(n) + rest;
        assert EncodeEntry(e) + rest == EncodeVarint(e.num * 8) + number;
        ReadPrefix(e.num * 8, number, EncodeEntry(e) + rest);
        ReadPrefix(n, rest, number);
      case Payload(bytes) =>
        var size := EncodeVarint(|bytes|) + (bytes + rest);
        assert EncodeEntry(e) + rest == EncodeVarint(e.num * 8 + 2) + size;
        ReadPrefix(e.num * 8 + 2, size, EncodeEntry(e) + rest);
        ReadPrefix(|bytes|, bytes + rest, size);
    }
  }

  // A record that the browser can read, whatever is nested in it.
  ghost predicate SafeOne(utf8: Utf8, kind: Kind, e: Entry)
  {
    EntryOk(e) && SafeData(e.data) &&
    (FieldOf(kind, e.num).Some? && FieldOf(kind, e.num).value.ftype == Packet && e.data.Payload? ==>
       !DecodeMessageJs(utf8, MessagePacket, e.data.bytes).Unsafe?)
  }

  ghost predicate SafeAll(utf8: Utf8, kind: Kind, entries: seq<Entry>)
  {
    forall i :: 0 <= i < |entries| ==> SafeOne(utf8, kind, entries[i])
  }

  lemma SafeTurn(utf8: Utf8, kind: Kind, e: Entry, size: nat, acc: Message)
    requires SafeOne(utf8, kind, e)
    ensures var turn := TurnJsOf(utf8, kind, true, Parsed(Record(e.num, e.data), size), acc);
      turn.StopJs? ==> !turn.read.Unsafe?
  {
  }

  lemma {:induction false} SafeFrom(utf8: Utf8, kind: Kind, entries: seq<Entry>, acc: Message)
    requires SafeAll(utf8, kind, entries)
    ensures !DecodeFromJs(utf8, kind, Flatten(entries), acc).Unsafe?
    decreases |entries|
  {
    if entries != [] {
      var e, rest := entries[0], Flatten(entries[1..]);
      var buf, size := EncodeEntry(e) + rest, |EncodeEntry(e)|;
      SafeEntry(e, rest);
      ReadEntry(e, rest);
      SafeTurn(utf8, kind, e, size, acc);
      var turn := TurnJsOf(utf8, kind, true, Parsed(Record(e.num, e.data), size), acc);
      DecodeOneJs(utf8, kind, buf, true, Parsed(Record(e.num, e.data), size), acc);
      if turn.GoOnJs? {
        assert Drop(buf, size) == rest;
        SafeFrom(utf8, kind, entries[1..], turn.message);
      }
    }
  }

  lemma {:induction false} SafeItems(utf8: Utf8, kind: Kind, num: nat, items: seq<Buffer>)
    requires num < 0x2000_0000 && FieldOf(kind, num).Some? && FieldOf(kind, num).value.ftype == Text
    requires forall i :: 0 <= i < |items| ==> IsSafe(|items[i]|)
    ensures SafeAll(utf8, kind, ListEntries(num, items))
    decreases |items|
  {
    if items != [] {
      SafeItems(utf8, kind, num, items[1..]);
    }
  }

  // The records of a field that the browser's own encoder would write.
  lemma SafeField(utf8: Utf8, kind: Kind, f: Field, v: Value)
    requires f.num < 0x2000_0000 && FieldOf(kind, f.num) == Some(f) && ValueOk(utf8, f, v)
    requires FieldEncodable(kind, v, LARGEST)
    requires v.VMessage? ==>
      kind == WsFrame && !DecodeMessageJs(utf8, MessagePacket, EncodeMessage(MessagePacket, v.fields)).Unsafe?
    ensures SafeAll(utf8, kind, FieldEntries(kind, f, v))
  {
    if v.VList? {
      SafeItems(utf8, kind, f.num, v.items);
    }
  }

  lemma SafeConcat(utf8: Utf8, kind: Kind, a: seq<Entry>, b: seq<Entry>)
    requires SafeAll(utf8, kind, a) && SafeAll(utf8, kind, b)
    ensures SafeAll(utf8, kind, a + b)
  {
  }

  lemma {:induction false} SafeEntries(utf8: Utf8, kind: Kind, d: Message, n: nat)
    requires WellTyped(utf8, kind, d) && n <= |Schema(kind)| && Encodable(kind, d, LARGEST, n)
    ensures SafeAll(utf8, kind, EntriesUpTo(kind, d, n))
    decreases Rank(kind), 1, n
  {
    if n > 0 {
      var f := Schema(kind)[n - 1];
      var v := Get(d, f.num);
      SchemaNumbers(kind);
      SchemaFound(kind, n - 1);
      if v.VMessage? {
        SafeMessage(utf8, MessagePacket, v.fields);
      }
      SafeField(utf8, kind, f, v);
      SafeEntries(utf8, kind, d, n - 1);
      SafeConcat(utf8, kind, EntriesUpTo(kind, d, n - 1), FieldEntries(kind, f, v));
    }
  }

  lemma {:induction false} SafeMessage(utf8: Utf8, kind: Kind, d: Message)
    requires WellTyped(utf8, kind, d) && Encodable(kind, d, LARGEST, |Schema(kind)|)
    ensures !DecodeMessageJs(utf8, kind, EncodeMessage(kind, d)).Unsafe?
    decreases Rank(kind), 2
  {
    SafeEntries(utf8, kind, d, |Schema(kind)|);
    SafeFrom(utf8, kind, EntriesUpTo(kind, d, |Schema(kind)|), Defaults(Schema(kind)));
  }

  // A message that either encoder wrote comes back in the browser with its defaults filled in,
  // exactly when none of its texts starts with a byte order mark.
  lemma BrowserRoundTrip(utf8: Utf8, kind: Kind, d: Message)
    requires WellTyped(utf8, kind, d) && Encodable(kind, d, LARGEST, |Schema(kind)|)
    ensures DecodeMessageJs(utf8, kind, EncodeMessage(kind, d)) == Ok(Strip(Filled(kind, d), Rank(kind)))
    ensures DecodeMessageJs(utf8, kind, EncodeMessage(kind, d)) == Ok(Filled(kind, d)) <==>
      NoMarks(Filled(kind, d), Rank(kind))
  {
    RoundTrip(utf8, kind, d);
    SafeMessage(utf8, kind, d);
    MessageMirrors(utf8, kind, EncodeMessage(kind, d));
    StripSame(Filled(kind, d), Rank(kind));
  }

  const MARKED_FRAME: Message := map[8 := VText(BYTE_ORDER_MARK)]

  // A frame whose text is a byte order mark alone comes back empty.
  lemma MarkIsLost(utf8: Utf8)
    requires utf8(BYTE_ORDER_MARK)
    ensures WellTyped(utf8, WsFrame, MARKED_FRAME) && Encodable(WsFrame, MARKED_FRAME, LARGEST, |Schema(WsFrame)|)
    ensures DecodeMessage(utf8, WsFrame, EncodeMessage(WsFrame, MARKED_FRAME)) == Decoded(Filled(WsFrame, MARKED_FRAME))
    ensures DecodeMessageJs(utf8, WsFrame, EncodeMessage(WsFrame, MARKED_FRAME)) != Ok(Filled(WsFrame, MARKED_FRAME))
  {
    SchemaNumbers(WsFrame);
    MarkedEncodable(|Schema(WsFrame)|);
    RoundTrip(utf8, WsFrame, MARKED_FRAME);
    BrowserRoundTrip(utf8, WsFrame, MARKED_FRAME);
    FilledAt(WsFrame, MARKED_FRAME, |Schema(WsFrame)|, 7);
    assert !UnmarkedValue(Filled(WsFrame, MARKED_FRAME)[8], 1);
  }

  lemma {:induction false} MarkedEncodable(n: nat)
    requires n <= |Schema(WsFrame)|
    ensures Encodable(WsFrame, MARKED_FRAME, LARGEST, n)
  {
    if n > 0 {
      MarkedEncodable(n - 1);
    }
  }

  // ------------------------------------------------------------------ the decoder as it runs

  // A name for decoding from here on, so that the loop need not look inside.
  type Reader = (Buffer, Message) -> Read

  ghost predicate ReadsAs(reader: Reader, utf8: Utf8, kind: Kind, buf: Buffer, acc: Message)
  {
    reader(buf, acc) == DecodeFromJs(utf8, kind, buf, acc)
  }

  ghost predicate IsReader(reader: Reader, utf8: Utf8, kind: Kind)
  {
    forall buf, acc {:trigger ReadsAs(reader, utf8, kind, buf, acc)} :: ReadsAs(reader, utf8, kind, buf, acc)
  }

  ghost function ReaderOf(utf8: Utf8, kind: Kind): Reader
  {
    (buf, acc) => DecodeFromJs(utf8, kind, buf, acc)
  }

  lemma ReadTurn(reader: Reader, utf8: Utf8, kind: Kind, buf: Buffer, safe: bool, record: Parsed<Record>, acc: Message,
                 turn: TurnJs)
    requires IsReader(reader, utf8, kind) && buf != [] && safe == SafeRecord(buf) && record == ReadRecord(buf)
    requires turn == TurnJsOf(utf8, kind, safe, record, acc)
    ensures turn.GoOnJs? ==> turn.size > 0 && reader(buf, acc) == reader(Drop(buf, turn.size), turn.message)
    ensures turn.StopJs? ==> reader(buf, acc) == turn.read
  {
    DecodeOneJs(utf8, kind, buf, safe, record, acc);
    assert ReadsAs(reader, utf8, kind, buf, acc);
    if turn.GoOnJs? {
      assert ReadsAs(reader, utf8, kind, Drop(buf, turn.size), turn.message);
    }
  }

  method TakeTurnJs(ghost reader: Reader, utf8: Utf8, kind: Kind, buf: Buffer, pos: nat, acc: Message) returns (turn: TurnJs)
    requires IsBuffer(buf) && pos < |buf| && IsReader(reader, utf8, kind)
    ensures turn.GoOnJs? ==>
      (turn.size > 0 && reader(Drop(buf, pos), acc) == reader(Drop(buf, pos + turn.size), turn.message))
    ensures turn.StopJs? ==> reader(Drop(buf, pos), acc) == turn.read
  {
    var record, safe := ReadAtJs(buf, pos);
    turn := TurnJsOf(utf8, kind, safe, record, acc);
    ReadTurn(reader, utf8, kind, buf[pos..], safe, record, acc, turn);
    if turn.GoOnJs? {
      DropMore(buf, pos, turn.size);
    }
  }

  method ReadLoop(ghost reader: Reader, utf8: Utf8, kind: Kind, buf: Buffer, defaults: Message) returns (r: Read)
    requires IsBuffer(buf) && IsReader(reader, utf8, kind)
    ensures r == reader(buf, defaults)
  {
    var result := defaults;
    var pos: nat := 0;
    assert Drop(buf, 0) == buf;
    while pos < |buf|
      invariant reader(Drop(buf, pos), result) == reader(buf, defaults)
      decreases |buf| - pos
    {
      var turn := TakeTurnJs(reader, utf8, kind, buf, pos, result);
      if turn.StopJs? {
        return turn.read;
      }
      pos, result := pos + turn.size, turn.message;
    }
    assert Drop(buf, pos) == [];
    assert ReadsAs(reader, utf8, kind, [], result);
    r := Ok(result);
  }

  method DecodeJs(utf8: Utf8, kind: Kind, buf: Buffer) returns (r: Read)
    requires IsBuffer(buf)
    ensures r == DecodeMessageJs(utf8, kind, buf)
  {
    assert IsReader(ReaderOf(utf8, kind), utf8, kind) by {
      forall b, a ensures ReadsAs(ReaderOf(utf8, kind), utf8, kind, b, a) {
      }
    }
    r := ReadLoop(ReaderOf(utf8, kind), utf8, kind, buf, Defaults(Schema(kind)));
  }

  method ReadAtJs(buf: Buffer, start: nat) returns (r: Parsed<Record>, safe: bool)
    requires IsBuffer(buf) && start < |buf|
    ensures r == ReadRecord(buf[start..]) && safe == SafeRecord(buf[start..])
  {
    ghost var rest := buf[start..];
    var key := ReadVarintJs(buf, start);
    if key.Malformed? {
      return Malformed, true;
    }
    var pos := start + key.size;
    assert rest[key.size..] == buf[pos..];
    var num, wire := key.value / 8, key.value % 8;
    safe := IsSafe(key.value);
    if wire == 0 {
      var n := ReadVarintJs(buf, pos);
      safe := safe && (n.Parsed? ==> IsSafe(n.value));
      return if n.Malformed? then Malformed else Parsed(Record(num, Varint_(n.value)), key.size + n.size), safe;
    } else if wire == 2 {
      var length := ReadVarintJs(buf, pos);
      safe := safe && (length.Parsed? ==> IsSafe(length.value));
      if length.Malformed? || pos + length.size + length.value > |buf| {
        return Malformed, safe;
      }
      var from := pos + length.size;
      SliceOfSlice(buf, start, key.size, length.size, length.value);
      return Parsed(Record(num, Payload(buf[from..from + length.value])), key.size + length.size + length.value), safe;
    } else if wire == 1 {
      return Parsed(Skipped, key.size + 8), safe;
    } else if wire == 5 {
      return Parsed(Skipped, key.size + 4), safe;
    }
    r := Malformed;
  }
}
