// The messages of proto/cryptis.proto on the wire, as functions: the schema, the records of a
// message, and a decoder that stores one record after the other.  Text is represented by its
// UTF-8 bytes; utf8 says which bytes are valid text.
module Wire {
  import opened Bits
  import opened KeyTree
  import opened Varint

  datatype Type = Text | Blob | Number | Packet

  datatype Field = Field(num: nat, ftype: Type, repeated: bool)

  datatype Kind = MessagePacket | WsFrame

  datatype Value = VNone | VText(bytes: Buffer) | VBlob(bytes: Buffer) | VNumber(n: int) | VList(items: seq<Buffer>) |
                   VMessage(fields: Message)

  // Values by field number.
  type Message = map<nat, Value>

  type Utf8 = Buffer -> bool

  const SIZE_LIMIT := 0x1_0000_0000_0000_0000

  // The type of each field number.
  function FieldAt(kind: Kind, num: nat): Field
  {
    match kind
    case MessagePacket =>
      if num == 3 || num == 4 then Field(num, Number, false)
      else if 5 <= num <= 7 then Field(num, Blob, false)
      else Field(num, Text, num == 11)
    case WsFrame =>
      if num == 4 || num == 6 then Field(num, Number, false)
      else if num == 7 then Field(num, Packet, false)
      else Field(num, Text, false)
  }

  function FieldsUpTo(kind: Kind, n: nat): (fields: seq<Field>)
    ensures |fields| == n
  {
    if n == 0 then [] else FieldsUpTo(kind, n - 1) + [FieldAt(kind, n)]
  }

  function Schema(kind: Kind): seq<Field>
  {
    FieldsUpTo(kind, if kind == MessagePacket then 13 else 8)
  }

  lemma {:induction false} FieldsInOrder(kind: Kind, n: nat)
    ensures forall i :: 0 <= i < n ==> FieldsUpTo(kind, n)[i] == FieldAt(kind, i + 1)
  {
    if n > 0 {
      FieldsInOrder(kind, n - 1);
    }
  }

  // Field number i + 1 stands at place i of its schema.
  lemma SchemaNumbers(kind: Kind)
    ensures |Schema(kind)| < 0x2000_0000
    ensures forall i :: 0 <= i < |Schema(kind)| ==> Schema(kind)[i].num == i + 1
    ensures forall i :: 0 <= i < |Schema(kind)| && Schema(kind)[i].repeated ==> Schema(kind)[i].ftype == Text
    ensures forall i :: 0 <= i < |Schema(kind)| && Schema(kind)[i].ftype == Packet ==> kind == WsFrame
  {
    FieldsInOrder(kind, |Schema(kind)|);
  }

  function Rank(kind: Kind): nat { if kind == WsFrame then 1 else 0 }

  // What a singular field holds when it is absent.
  function Default(f: Field): Value
  {
    if f.repeated then VList([])
    else match f.ftype case Text => VText([]) case Blob => VBlob([]) case Number => VNumber(0) case Packet => VNone
  }

  function Get(d: Message, num: nat): Value
  {
    if num in d then d[num] else VNone
  }

  // ------------------------------------------------------------------ encoding

  // One record: a field number with a number or with a payload.
  datatype Data = Varint_(n: nat) | Payload(bytes: Buffer)

  datatype Entry = Entry(num: nat, data: Data)

  function EncodeEntry(e: Entry): Buffer
  {
    match e.data
    case Varint_(n) => EncodeVarint(e.num * 8) + EncodeVarint(n)
    case Payload(bytes) => EncodeVarint(e.num * 8 + 2) + EncodeVarint(|bytes|) + bytes
  }

  function Flatten(entries: seq<Entry>): Buffer
  {
    if entries == [] then [] else EncodeEntry(entries[0]) + Flatten(entries[1..])
  }

  // Values that a field can hold.
  predicate Fits(f: Field, v: Value)
  {
    v.VNone? ||
    if f.repeated then v.VList?
    else match f.ftype case Text => v.VText? case Blob => v.VBlob? case Number => v.VNumber? case Packet => v.VMessage?
  }

  ghost predicate Shaped(kind: Kind, d: Message)
    decreases Rank(kind)
  {
    forall i :: 0 <= i < |Schema(kind)| ==>
      var v := Get(d, Schema(kind)[i].num);
      Fits(Schema(kind)[i], v) && (v.VMessage? && kind == WsFrame ==> Shaped(MessagePacket, v.fields))
  }

  function ListEntries(num: nat, items: seq<Buffer>): seq<Entry>
  {
    if items == [] then [] else [Entry(num, Payload(items[0]))] + ListEntries(num, items[1..])
  }

  // Empty text, empty blobs and zeros are not written, except as elements of a list.
  function FieldEntries(kind: Kind, f: Field, v: Value): seq<Entry>
    decreases Rank(kind), 0
  {
    match v
    case VNone => []
    case VList(items) => ListEntries(f.num, items)
    case VText(bytes) => if bytes == [] then [] else [Entry(f.num, Payload(bytes))]
    case VBlob(bytes) => if bytes == [] then [] else [Entry(f.num, Payload(bytes))]
    case VNumber(n) => if n <= 0 then [] else [Entry(f.num, Varint_(n))]
    case VMessage(m) => if kind == WsFrame then [Entry(f.num, Payload(EncodeMessage(MessagePacket, m)))] else []
  }

  function EntriesUpTo(kind: Kind, d: Message, n: nat): seq<Entry>
    requires n <= |Schema(kind)|
    decreases Rank(kind), 1, n
  {
    if n == 0 then []
    else EntriesUpTo(kind, d, n - 1) + FieldEntries(kind, Schema(kind)[n - 1], Get(d, Schema(kind)[n - 1].num))
  }

  function EncodeMessage(kind: Kind, d: Message): Buffer
    decreases Rank(kind), 2
  {
    Flatten(EntriesUpTo(kind, d, |Schema(kind)|))
  }

  // ------------------------------------------------------------------ decoding

  datatype Decoded = Decoded(message: Message) | ProtoError

  datatype Record = Record(num: nat, data: Data) | Skipped

  // One record from the front of the buffer. Fixed-width records are skipped, whatever follows.
  function ReadRecord(buf: Buffer): (r: Parsed<Record>)
    requires buf != []
    ensures r.Parsed? ==> 0 < r.size
    ensures r.Parsed? && r.value.Record? ==> r.size <= |buf|
    ensures r.Parsed? && r.value.Record? && r.value.data.Payload? ==> |r.value.data.bytes| < r.size
  {
    match ReadVarint(buf, 0)
    case Malformed => Malformed
    case Parsed(key, k) =>
      var num, wire, rest := key / 8, key % 8, buf[k..];
      if wire == 0 then
        match ReadVarint(rest, 0)
        case Malformed => Malformed
        case Parsed(n, size) => Parsed(Record(num, Varint_(n)), k + size)
      else if wire == 2 then
        match ReadVarint(rest, 0)
        case Malformed => Malformed
        case Parsed(length, size) =>
          if size + length > |rest| then Malformed
          else Parsed(Record(num, Payload(rest[size..size + length])), k + size + length)
      else if wire == 1 then Parsed(Skipped, k + 8)
      else if wire == 5 then Parsed(Skipped, k + 4)
      else Malformed
  }

  function FieldOf(kind: Kind, num: nat): Option<Field>
  {
    FindField(Schema(kind), num)
  }

  function FindField(fields: seq<Field>, num: nat): Option<Field>
  {
    if fields == [] then None else if fields[0].num == num then Some(fields[0]) else FindField(fields[1..], num)
  }

  // Puts one record into the message; a repeated field grows, a singular one is replaced.
  function Store(utf8: Utf8, kind: Kind, num: nat, data: Data, acc: Message): Decoded
    decreases if data.Payload? then |data.bytes| else 0, 2
  {
    match FieldOf(kind, num)
    case None => Decoded(acc)
    case Some(f) =>
      if (f.ftype == Number) != data.Varint_? then ProtoError
      else
        match f.ftype
        case Number => Decoded(acc[num := VNumber(data.n)])
        case Blob => Decoded(acc[num := VBlob(data.bytes)])
        case Text =>
          if !utf8(data.bytes) then ProtoError
          else if f.repeated then
            Decoded(acc[num := VList((if Get(acc, num).VList? then acc[num].items else []) + [data.bytes])])
          else Decoded(acc[num := VText(data.bytes)])
        case Packet =>
          match DecodeMessage(utf8, MessagePacket, data.bytes)
          case ProtoError => ProtoError
          case Decoded(m) => Decoded(acc[num := VMessage(m)])
  }

  // One turn of the reading loop: an error, or how far it got and the message so far.
  datatype Turn = Stop | GoOn(size: nat, message: Message)

  function PayloadSize(record: Parsed<Record>): nat
  {
    if record.Parsed? && record.value.Record? && record.value.data.Payload? then |record.value.data.bytes| else 0
  }

  function TurnOf(utf8: Utf8, kind: Kind, record: Parsed<Record>, acc: Message): (turn: Turn)
    ensures turn.GoOn? ==> record.Parsed? && turn.size == record.size
    decreases PayloadSize(record), 3
  {
    if record.Malformed? then Stop
    else if record.value.Skipped? then GoOn(record.size, acc)
    else
      match Store(utf8, kind, record.value.num, record.value.data, acc)
      case ProtoError => Stop
      case Decoded(next) => GoOn(record.size, next)
  }

  // A fixed-width record may point past the end.
  function Drop(buf: Buffer, n: nat): Buffer
  {
    if n <= |buf| then buf[n..] else []
  }

  function DecodeFrom(utf8: Utf8, kind: Kind, buf: Buffer, acc: Message): Decoded
    decreases |buf|, 0
  {
    if buf == [] then Decoded(acc)
    else
      match TurnOf(utf8, kind, ReadRecord(buf), acc)
      case Stop => ProtoError
      case GoOn(size, next) => DecodeFrom(utf8, kind, Drop(buf, size), next)
  }

  // What follows a turn that began at a position of the buffer.
  function Resume(utf8: Utf8, kind: Kind, buf: Buffer, pos: nat, turn: Turn): Decoded
  {
    if turn.Stop? then ProtoError else DecodeFrom(utf8, kind, Drop(buf, pos + turn.size), turn.message)
  }

  function Defaults(fields: seq<Field>): Message
  {
    if fields == [] then map[] else Defaults(fields[..|fields| - 1])[fields[|fields| - 1].num := Default(fields[|fields| - 1])]
  }

  function DecodeMessage(utf8: Utf8, kind: Kind, buf: Buffer): Decoded
    decreases |buf|, 1
  {
    DecodeFrom(utf8, kind, buf, Defaults(Schema(kind)))
  }

  lemma DecodeOne(utf8: Utf8, kind: Kind, buf: Buffer, record: Parsed<Record>, acc: Message)
    requires buf != [] && record == ReadRecord(buf)
    ensures DecodeFrom(utf8, kind, buf, acc) == Resume(utf8, kind, buf, 0, TurnOf(utf8, kind, record, acc))
  {
  }
}
