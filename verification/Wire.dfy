/** Peer messages on the wire (BEP 3, section "peer messages"). */
module Wire {
  import opened Basics
  import opened Numbers
  import opened Geometry

  datatype MessageId =
    | Choke | Unchoke | Interested | NotInterested | Have
    | Bitfield | Request | Piece | Cancel | Extended

  function Code(kind: MessageId): byte {
    match kind
    case Choke => 0
    case Unchoke => 1
    case Interested => 2
    case NotInterested => 3
    case Have => 4
    case Bitfield => 5
    case Request => 6
    case Piece => 7
    case Cancel => 8
    case Extended => 20
  }

  function FromCode(code: byte): Option<MessageId> {
    match code
    case 0 => Some(Choke)
    case 1 => Some(Unchoke)
    case 2 => Some(Interested)
    case 3 => Some(NotInterested)
    case 4 => Some(Have)
    case 5 => Some(Bitfield)
    case 6 => Some(Request)
    case 7 => Some(Piece)
    case 8 => Some(Cancel)
    case 20 => Some(Extended)
    case _ => None
  }

  datatype Message = Message(kind: MessageId, payload: bytes)

  /** Length prefix (cast to 32 bits), kind, payload. */
  function Serialize(m: Message): bytes {
    BigEndian(1 + |m.payload|) + [Code(m.kind)] + m.payload
  }

  predicate Fits(m: Message) { 1 + |m.payload| < U32_LIMIT }

  /** `SlicePanics`: a zero length prefix makes the payload slice run backwards. */
  datatype Decoding = Decoded(m: Message) | Rejected | SlicePanics

  function Deserialize(buf: bytes): Decoding {
    if |buf| < 5 then Rejected
    else
      var len := U32At(buf, 0);
      if |buf| < 4 + len then Rejected
      else match FromCode(buf[4])
        case None => Rejected
        case Some(kind) => if len == 0 then SlicePanics else Decoded(Message(kind, buf[5..4 + len]))
  }

  /** The bytes BEP 3 prescribes: a length prefix, most significant byte first, then the kind by its number. */
  lemma StandardBytes(m: Message)
    requires |m.payload| < 256
    ensures Serialize(m)[..4] == [0, 0, (1 + |m.payload|) / 256, (1 + |m.payload|) % 256]
    ensures Serialize(m)[5..] == m.payload
    ensures var code := Serialize(m)[4];
      match m.kind
      case Choke => code == 0
      case Unchoke => code == 1
      case Interested => code == 2
      case NotInterested => code == 3
      case Have => code == 4
      case Bitfield => code == 5
      case Request => code == 6
      case Piece => code == 7
      case Cancel => code == 8
      case Extended => code == 20
  {
  }

  /** The fields of requests and pieces, in their order and most significant byte first. */
  lemma StandardFields()
    ensures RequestMessage(BlockInfo(258, 16384, 5)).payload == [0, 0, 1, 2, 0, 0, 64, 0, 0, 0, 0, 5]
    ensures PieceMessage(258, 16384, [7]).payload == [0, 0, 1, 2, 0, 0, 64, 0, 7]
    ensures RequestMessage(BlockInfo(258, 16384, 5)).kind == Request && PieceMessage(258, 16384, [7]).kind == Piece
  {
    assert BigEndian(258) == [0, 0, 1, 2] && BigEndian(16384) == [0, 0, 64, 0] && BigEndian(5) == [0, 0, 0, 5];
    hide BigEndian;
  }

  /** A message survives serialization exactly when its length fits the prefix. */
  lemma MessageRoundTripIff(m: Message)
    ensures Deserialize(Serialize(m)) == Decoded(m) <==> Fits(m)
  {
    hide BigEndian, U32At;
    SerializedLayout(m, []);
    assert Serialize(m) + [] == Serialize(m);
    if Fits(m) {
      assert Serialize(m)[5..5 + |m.payload|] == m.payload;
    } else if Deserialize(Serialize(m)).Decoded? {
      assert |Deserialize(Serialize(m)).m.payload| < U32_LIMIT - 1;
    }
  }

  lemma SerializedLayout(m: Message, rest: bytes)
    ensures var s := Serialize(m) + rest;
      && |Serialize(m)| == 5 + |m.payload|
      && U32At(s, 0) == (1 + |m.payload|) % U32_LIMIT
      && s[4] == Code(m.kind) && FromCode(s[4]) == Some(m.kind)
      && s[5..5 + |m.payload|] == m.payload
  {
    BigEndianRoundTrip(1 + |m.payload|);
    var s := Serialize(m) + rest;
    assert s[0..4] == BigEndian(1 + |m.payload|);
  }

  lemma BigEndianBack(b: bytes)
    requires |b| == 4
    ensures BigEndian(FromBigEndian(b)) == b
  {
    var n := FromBigEndian(b);
    var (two, three) := (b[0] as int * 256 + b[1] as int, (b[0] as int * 256 + b[1] as int) * 256 + b[2] as int);
    assert n == three * 256 + b[3] as int;
    assert n / 0x100 == three && n % 256 == b[3] as int;
    assert three / 256 == two && three % 256 == b[2] as int && n / 0x1_0000 == n / 0x100 / 256;
    assert two / 256 == b[0] as int && two % 256 == b[1] as int && n / 0x100_0000 == n / 0x1_0000 / 256;
    hide FromBigEndian;
  }

  /** A buffer is taken for a message exactly when it begins with that message as it is serialized. */
  lemma DeserializeIff(buf: bytes, m: Message)
    ensures Deserialize(buf) == Decoded(m) <==> Fits(m) && Serialize(m) <= buf
  {
    hide Deserialize, Serialize;
    if Deserialize(buf) == Decoded(m) { DecodedHead(buf); }
    if Fits(m) && Serialize(m) <= buf {
      MessageRoundTripIff(m);
      assert buf == Serialize(m) + buf[|Serialize(m)|..];
      SerializedHead(m, buf[|Serialize(m)|..]);
    }
  }

  lemma DecodedHead(buf: bytes)
    requires Deserialize(buf).Decoded?
    ensures var m := Deserialize(buf).m; Fits(m) && Serialize(m) <= buf
  {
    BigEndianBack(buf[0..4]);
    CodeBack(buf[4]);
    var n := 4 + U32At(buf, 0);
    assert buf[..n] == buf[0..4] + [buf[4]] + buf[5..n];
    hide BigEndian, FromBigEndian, Code, FromCode;
  }

  lemma SerializedHead(m: Message, rest: bytes)
    requires Fits(m)
    ensures Deserialize(Serialize(m) + rest) == Decoded(m)
  {
    SerializedLayout(m, rest);
    hide Serialize, U32At, FromCode, Code;
  }

  /** A zero length prefix on a whole header of a known kind makes the payload slice run backwards. */
  lemma SlicePanicsIff(buf: bytes)
    ensures Deserialize(buf) == SlicePanics <==>
      && |buf| >= 5 && buf[..4] == [0, 0, 0, 0]
      && (buf[4] <= 8 || buf[4] == 20)
  {
    if |buf| >= 5 {
      assert buf[..4] == buf[0..4];
      BigEndianBack(buf[0..4]);
      BigEndianRoundTrip(0);
    }
    hide FromBigEndian;
  }

  lemma CodeBack(code: byte)
    ensures FromCode(code).Some? ==> Code(FromCode(code).value) == code
  {
  }

  // ---- reading a stream ----

  datatype ReadResult = Got(m: Message, rest: bytes) | Eof | Malformed

  /** One message off a stream that ends where the bytes end; keep-alives are skipped. */
  function ReadOne(stream: bytes): ReadResult {
    if |stream| < 4 then Eof
    else
      var len := U32At(stream, 0);
      if len == 0 then ReadOne(stream[4..])
      else if |stream| < 4 + len then Eof
      else match Deserialize(stream[..4 + len])
        case Decoded(m) => Got(m, stream[4 + len..])
        case _ => Malformed
  }

  method ReadRawMessage(stream: bytes) returns (r: ReadResult)
    ensures r == ReadOne(stream)
  {
    var rest := stream;
    while true
      invariant ReadOne(stream) == ReadOne(rest)
      decreases |rest|
    {
      if |rest| < 4 { return Eof; }
      var len := FromBigEndian(rest[0..4]);
      if len == 0 {
        rest := rest[4..];
        continue;
      }
      if |rest| < 4 + len { return Eof; }
      match Deserialize(rest[..4 + len])
      case Decoded(m) => return Got(m, rest[4 + len..]);
      case _ => return Malformed;
    }
  }

  /** The head of a stream is a message exactly when, after any keep-alives, it is that message as serialized. */
  lemma {:induction false} ReadOneIff(stream: bytes, m: Message, rest: bytes)
    ensures ReadOne(stream) == Got(m, rest) <==>
      Fits(m) && exists n: nat :: stream == Zeros(4 * n) + (Serialize(m) + rest)
    decreases |stream|
  {
    BigEndianRoundTrip(0);
    if ReadOne(stream) == Got(m, rest) { GotIsSerialized(stream, m, rest); }
    if n: nat :| Fits(m) && stream == Zeros(4 * n) + (Serialize(m) + rest) { SerializedIsGot(n, m, rest); }
  }

  lemma {:induction false} GotIsSerialized(stream: bytes, m: Message, rest: bytes)
    requires ReadOne(stream) == Got(m, rest)
    ensures Fits(m) && exists n: nat :: stream == Zeros(4 * n) + (Serialize(m) + rest)
    decreases |stream|
  {
    hide Deserialize, Serialize, BigEndian, FromBigEndian;
    var len := U32At(stream, 0);
    if len == 0 {
      GotIsSerialized(stream[4..], m, rest);
      var n: nat :| stream[4..] == Zeros(4 * n) + (Serialize(m) + rest);
      ZeroPrefix(stream);
      assert Zeros(4) + Zeros(4 * n) == Zeros(4 * (n + 1));
      assert stream == Zeros(4) + stream[4..] == Zeros(4 * (n + 1)) + (Serialize(m) + rest);
    } else {
      var head := stream[..4 + len];
      DeserializeIff(head, m);
      assert head[0..4] == stream[0..4];
      DecodedLength(head);
      SerializedLayout(m, []);
      assert Serialize(m) == head;
      assert stream == Zeros(4 * 0) + (Serialize(m) + rest);
    }
  }

  lemma DecodedLength(buf: bytes)
    requires Deserialize(buf).Decoded? && |buf| == 4 + U32At(buf, 0)
    ensures |Deserialize(buf).m.payload| + 5 == |buf|
  {
  }

  lemma ZeroPrefix(stream: bytes)
    requires |stream| >= 4 && U32At(stream, 0) == 0
    ensures stream[..4] == Zeros(4)
  {
    BigEndianBack(stream[0..4]);
  }

  lemma {:induction false} SerializedIsGot(n: nat, m: Message, rest: bytes)
    requires Fits(m)
    ensures ReadOne(Zeros(4 * n) + (Serialize(m) + rest)) == Got(m, rest)
  {
    if n == 0 {
      assert Zeros(0) + (Serialize(m) + rest) == Serialize(m) + rest;
      ReadOneFrame(m, rest);
    } else {
      SerializedIsGot(n - 1, m, rest);
      var tail := Zeros(4 * (n - 1)) + (Serialize(m) + rest);
      assert BigEndian(0) == Zeros(4) && Zeros(4) + Zeros(4 * (n - 1)) == Zeros(4 * n);
      assert Zeros(4 * n) + (Serialize(m) + rest) == BigEndian(0) + tail;
      ReadKeepAlive(tail);
    }
    hide ReadOne, Serialize, BigEndian;
  }

  lemma ReadConsumes(stream: bytes)
    ensures ReadOne(stream).Got? ==> |ReadOne(stream).rest| + 5 <= |stream|
  {
  }

  /** Everything the reader hands on, and how the stream ended. */
  function ReadAll(stream: bytes): (seq<Message>, ReadResult)
    decreases |stream|
  {
    match ReadOne(stream)
    case Got(m, rest) =>
      ReadConsumes(stream);
      var (ms, end) := ReadAll(rest);
      ([m] + ms, end)
    case end => ([], end)
  }

  datatype Frame = KeepAlive | Carrying(m: Message)

  function EncodeFrames(frames: seq<Frame>): bytes {
    if frames == [] then []
    else FrameBytes(frames[0]) + EncodeFrames(frames[1..])
  }

  function FrameBytes(f: Frame): bytes {
    if f.KeepAlive? then BigEndian(0) else Serialize(f.m)
  }

  function FrameMessages(f: Frame): seq<Message> {
    if f.KeepAlive? then [] else [f.m]
  }

  function Messages(frames: seq<Frame>): seq<Message> {
    if frames == [] then []
    else FrameMessages(frames[0]) + Messages(frames[1..])
  }

  predicate AllFit(frames: seq<Frame>) {
    forall i | 0 <= i < |frames| && frames[i].Carrying? :: Fits(frames[i].m)
  }

  lemma ReadShort(stream: bytes)
    requires |stream| < 4
    ensures ReadOne(stream) == Eof
  {
  }

  lemma ReadOneFrame(m: Message, rest: bytes)
    requires Fits(m)
    ensures ReadOne(Serialize(m) + rest) == Got(m, rest)
  {
    hide BigEndian, U32At, Deserialize;
    SerializedLayout(m, rest);
    MessageRoundTripIff(m);
    var s := Serialize(m) + rest;
    assert s[..5 + |m.payload|] == Serialize(m);
    assert s[5 + |m.payload|..] == rest;
  }

  lemma ReadCutFrame(m: Message, n: nat)
    requires Fits(m) && n < |Serialize(m)|
    ensures ReadOne(Serialize(m)[..n]) == Eof
  {
    hide FromBigEndian, BigEndian;
    SerializedLayout(m, []);
    assert Serialize(m) + [] == Serialize(m);
    if n >= 4 { assert Serialize(m)[..n][0..4] == Serialize(m)[0..4]; }
  }

  lemma ReadKeepAlive(rest: bytes)
    ensures ReadOne(BigEndian(0) + rest) == ReadOne(rest)
  {
    BigEndianRoundTrip(0);
    var s := BigEndian(0) + rest;
    assert s[0..4] == BigEndian(0) && s[4..] == rest;
  }

  lemma ReadWholeFrame(f: Frame, rest: bytes)
    requires f.Carrying? ==> Fits(f.m)
    ensures ReadAll(FrameBytes(f) + rest) == (FrameMessages(f) + ReadAll(rest).0, ReadAll(rest).1)
  {
    hide BigEndian, ReadOne, Serialize;
    if f.KeepAlive? {
      ReadKeepAlive(rest);
      assert [] + ReadAll(rest).0 == ReadAll(rest).0;
    } else {
      ReadOneFrame(f.m, rest);
    }
  }

  lemma ReadPartOfFrame(f: Frame, n: nat)
    requires (f.Carrying? ==> Fits(f.m)) && n < |FrameBytes(f)|
    ensures ReadAll(FrameBytes(f)[..n]) == ([], Eof)
  {
    if f.KeepAlive? { ReadShort(BigEndian(0)[..n]); } else { ReadCutFrame(f.m, n); }
  }

  /**
   * Reading serialized messages, with keep-alives anywhere, gives back exactly
   * those messages.
   */
  lemma {:induction false} StreamRoundTrip(frames: seq<Frame>)
    requires AllFit(frames)
    ensures ReadAll(EncodeFrames(frames)) == (Messages(frames), Eof)
  {
    if frames == [] {
      ReadShort([]);
    } else {
      StreamRoundTrip(frames[1..]);
      ReadWholeFrame(frames[0], EncodeFrames(frames[1..]));
    }
  }

  /** Frames are read off the head of any stream, and then whatever follows them. */
  lemma {:induction false} FramesThenRest(frames: seq<Frame>, rest: bytes)
    requires AllFit(frames)
    ensures ReadAll(EncodeFrames(frames) + rest) == (Messages(frames) + ReadAll(rest).0, ReadAll(rest).1)
  {
    hide ReadAll, FrameBytes, FrameMessages;
    if frames == [] {
      assert [] + rest == rest && [] + ReadAll(rest).0 == ReadAll(rest).0;
    } else {
      var (head, tail) := (FrameBytes(frames[0]), EncodeFrames(frames[1..]));
      FramesThenRest(frames[1..], rest);
      ReadWholeFrame(frames[0], tail + rest);
      assert head + tail + rest == head + (tail + rest);
      var ms := FrameMessages(frames[0]);
      assert ms + Messages(frames[1..]) + ReadAll(rest).0 == ms + (Messages(frames[1..]) + ReadAll(rest).0);
    }
  }

  /** A whole frame of a kind that is not one of the ten ends the reading with an error, after what came before it. */
  lemma UnknownKindMalformed(frames: seq<Frame>, code: byte, payload: bytes, rest: bytes)
    requires AllFit(frames) && 1 + |payload| < U32_LIMIT && code > 8 && code != 20
    ensures ReadAll(EncodeFrames(frames) + (BigEndian(1 + |payload|) + [code] + payload + rest))
         == (Messages(frames), Malformed)
  {
    var bad := BigEndian(1 + |payload|) + [code] + payload + rest;
    UnknownKindRejected(code, payload, rest);
    FramesThenRest(frames, bad);
    assert Messages(frames) + [] == Messages(frames);
    hide ReadOne, BigEndian;
  }

  lemma UnknownKindRejected(code: byte, payload: bytes, rest: bytes)
    requires 1 + |payload| < U32_LIMIT && code > 8 && code != 20
    ensures ReadOne(BigEndian(1 + |payload|) + [code] + payload + rest) == Malformed
  {
    var bad := BigEndian(1 + |payload|) + [code] + payload + rest;
    BigEndianRoundTrip(1 + |payload|);
    assert bad[0..4] == BigEndian(1 + |payload|) && bad[4] == code;
    assert U32At(bad, 0) == 1 + |payload| && |bad| >= 5 + |payload|;
    UnknownCodeRejected(bad[..5 + |payload|]);
    hide BigEndian, U32At, Deserialize;
  }

  lemma UnknownCodeRejected(buf: bytes)
    requires |buf| >= 5 && buf[4] > 8 && buf[4] != 20
    ensures !Deserialize(buf).Decoded?
  {
  }

  /** A stream cut anywhere yields a prefix of the messages, and nothing else. */
  lemma {:induction false} CutStreamYieldsPrefix(frames: seq<Frame>, n: nat)
    requires AllFit(frames) && n <= |EncodeFrames(frames)|
    ensures ReadAll(EncodeFrames(frames)[..n]).0 <= Messages(frames)
    ensures ReadAll(EncodeFrames(frames)[..n]).1 == Eof
  {
    hide ReadAll, FrameBytes, FrameMessages;
    if frames == [] {
      StreamRoundTrip([]);
      assert EncodeFrames(frames)[..n] == [];
    } else {
      var head, tail := FrameBytes(frames[0]), EncodeFrames(frames[1..]);
      if n < |head| {
        assert (head + tail)[..n] == head[..n];
        ReadPartOfFrame(frames[0], n);
      } else {
        assert (head + tail)[..n] == head + tail[..n - |head|];
        CutStreamYieldsPrefix(frames[1..], n - |head|);
        ReadWholeFrame(frames[0], tail[..n - |head|]);
      }
    }
  }

  // ---- requests and piece messages ----

  datatype PieceRequest = PieceRequest(piece: nat, begin: nat, length: nat)

  function RequestMessage(b: BlockInfo): Message {
    Message(Request, BigEndian(b.piece) + BigEndian(b.offset) + BigEndian(b.length))
  }

  function ParseRequest(m: Message): Option<PieceRequest> {
    if m.kind != Request && m.kind != Cancel then None
    else if |m.payload| != 12 then None
    else Some(PieceRequest(U32At(m.payload, 0), U32At(m.payload, 4), U32At(m.payload, 8)))
  }

  function PieceMessage(piece: nat, begin: nat, data: bytes): Message {
    Message(Piece, BigEndian(piece) + BigEndian(begin) + data)
  }

  /** The block a piece message carries; a payload under 8 bytes is an error. */
  function ParsePiece(payload: bytes): Option<(BlockInfo, bytes)> {
    if |payload| < 8 then None
    else
      var data := payload[8..];
      Some((BlockInfo(U32At(payload, 0), U32At(payload, 4), |data|), data))
  }

  predicate FitsWire(b: BlockInfo) {
    b.piece < U32_LIMIT && b.offset < U32_LIMIT && b.length < U32_LIMIT
  }

  lemma FieldAt(before: bytes, n: nat, after: bytes)
    ensures U32At(before + BigEndian(n) + after, |before|) == n % U32_LIMIT
  {
    var s := before + BigEndian(n) + after;
    assert s[|before|..|before| + 4] == BigEndian(n);
    BigEndianRoundTrip(n);
  }

  lemma RequestFields(b: BlockInfo)
    ensures var p := RequestMessage(b).payload;
      && |p| == 12
      && U32At(p, 0) == b.piece % U32_LIMIT
      && U32At(p, 4) == b.offset % U32_LIMIT
      && U32At(p, 8) == b.length % U32_LIMIT
  {
    hide BigEndian, U32At;
    var x, y, z := BigEndian(b.piece), BigEndian(b.offset), BigEndian(b.length);
    FieldAt([], b.piece, y + z);
    FieldAt(x, b.offset, z);
    FieldAt(x + y, b.length, []);
    assert [] + x + (y + z) == x + y + z == x + y + z + [];
  }

  /** A request arrives as sent exactly when its three fields fit in 32 bits. */
  lemma RequestRoundTripIff(b: BlockInfo)
    ensures ParseRequest(RequestMessage(b)) == Some(PieceRequest(b.piece, b.offset, b.length)) <==> FitsWire(b)
  {
    hide BigEndian, U32At;
    RequestFields(b);
  }

  /** A piece message arrives with the block and bytes it was built from. */
  lemma PieceRoundTrip(piece: nat, begin: nat, data: bytes)
    requires piece < U32_LIMIT && begin < U32_LIMIT
    ensures ParsePiece(PieceMessage(piece, begin, data).payload) == Some((BlockInfo(piece, begin, |data|), data))
  {
    hide BigEndian, U32At;
    var x, y := BigEndian(piece), BigEndian(begin);
    FieldAt([], piece, y + data);
    FieldAt(x, begin, data);
    assert [] + x + (y + data) == x + y + data;
    assert PieceMessage(piece, begin, data).payload[8..] == data;
  }
}
