/**
 * Metadata messages: the texts of BEP 9 (section "extension message") and
 * BEP 10 (section "handshake message"), and how they are read.
 */
module MetadataMessages {
  import opened Basics
  import opened Numbers
  import opened Bencode
  import opened Encoding
  import opened Scanner
  import opened Scanning
  import opened Wire

  const METADATA_PIECE_SIZE: nat := 16384
  const OUR_UT_METADATA_ID: byte := 1
  const HANDSHAKE_ID: byte := 0

  function Ascii(s: string): bytes { seq(|s|, i requires 0 <= i < |s| => s[i] as int % 256) }

  // ---- printing ----

  function RequestText(piece: nat): bytes {
    Ascii("d8:msg_typei0e5:piecei") + Decimal(piece) + Ascii("ee")
  }

  function DataText(piece: nat, totalSize: nat): bytes {
    Ascii("d8:msg_typei1e5:piecei") + Decimal(piece) + Ascii("e10:total_sizei") + Decimal(totalSize) + Ascii("ee")
  }

  function RejectText(piece: nat): bytes {
    Ascii("d8:msg_typei2e5:piecei") + Decimal(piece) + Ascii("ee")
  }

  function HandshakeText(metadataSize: Option<nat>): bytes {
    match metadataSize
    case Some(size) =>
      Ascii("d1:md11:ut_metadatai") + Decimal(OUR_UT_METADATA_ID)
      + Ascii("ee13:metadata_sizei") + Decimal(size) + Ascii("ee")
    case None =>
      Ascii("d1:md11:ut_metadatai") + Decimal(OUR_UT_METADATA_ID) + Ascii("ee")
  }

  function CreateRequest(id: byte, piece: nat): Message { Message(Extended, [id] + RequestText(piece)) }

  function CreateDataResponse(id: byte, piece: nat, data: bytes, totalSize: nat): Message {
    Message(Extended, [id] + DataText(piece, totalSize) + data)
  }

  function CreateReject(id: byte, piece: nat): Message { Message(Extended, [id] + RejectText(piece)) }

  function CreateHandshake(metadataSize: Option<nat>): Message {
    Message(Extended, [HANDSHAKE_ID] + HandshakeText(metadataSize))
  }

  /** The pieces of an info dictionary. */
  function PieceCount(size: nat): nat { DivCeil(size, METADATA_PIECE_SIZE) }

  function DictSlice(dict: bytes, piece: nat): bytes
    requires piece * METADATA_PIECE_SIZE <= |dict|
  {
    dict[piece * METADATA_PIECE_SIZE..Min((piece + 1) * METADATA_PIECE_SIZE, |dict|)]
  }

  /** How a request for a piece of the info dictionary is answered. */
  function Respond(infoDict: Option<bytes>, id: byte, piece: nat): Message {
    match infoDict
    case Some(dict) =>
      if piece * METADATA_PIECE_SIZE >= |dict| then CreateReject(id, piece)
      else CreateDataResponse(id, piece, DictSlice(dict, piece), |dict|)
    case None => CreateReject(id, piece)
  }

  // ---- reading ----

  /**
   * `Ignored`: not this kind of message. `Refused`: an error. `Panics`: the text
   * is said to end past the data, or an overflow traps. `Hangs`: the scan never
   * returns.
   */
  datatype Reply<T> = Found(value: T) | Ignored | Refused | Panics | Hangs

  /** The dictionary at the head of a text, and what follows it. */
  function ReadDict(build: Build, text: bytes): Reply<(Value, bytes)> {
    match Find(build, text)
    case Forever => Hangs
    case Trapped => Panics
    case Ended(None) => Refused
    case Ended(Some(n)) =>
      if n > |text| then Panics
      else
        match Parse(text[..n])
        case None => Refused
        case Some(vs) => if vs == [] || !vs[0].Dictionary? then Ignored else Found((vs[0], text[n..]))
  }

  function IntegerAt(v: Value, key: string): Option<int>
    requires v.Dictionary?
  {
    if Ascii(key) in v.entries && v.entries[Ascii(key)].Integer? then Some(v.entries[Ascii(key)].n) else None
  }

  /** The requested index (cast to 32 bits), when this is a request sent to our id. */
  function ParseMetadataRequest(build: Build, payload: bytes, expected: byte): Reply<nat> {
    if payload == [] || payload[0] != expected then Ignored
    else
      match ReadDict(build, payload[1..])
      case Panics => Panics
      case Hangs => Hangs
      case Refused => Ignored
      case Ignored => Ignored
      case Found((v, _)) =>
        if IntegerAt(v, "msg_type") != Some(0) then Ignored
        else match IntegerAt(v, "piece")
          case Some(n) => Found(n % U32_LIMIT)
          case None => Ignored
  }

  /** The index (cast to 64 bits) and data, when this is a data message sent to our id. */
  function ParseMetadataPiece(build: Build, payload: bytes, expected: byte): Reply<(nat, bytes)> {
    if payload == [] || payload[0] != expected then Ignored
    else
      match ReadDict(build, payload[1..])
      case Panics => Panics
      case Hangs => Hangs
      case Refused => Refused
      case Ignored => Ignored
      case Found((v, rest)) =>
        if IntegerAt(v, "msg_type") == Some(2) then Refused
        else if IntegerAt(v, "msg_type") != Some(1) then Ignored
        else match IntegerAt(v, "piece")
          case Some(n) => Found((n % U64_LIMIT, rest))
          case None => Ignored
  }

  /** The id (cast to 8 bits) a peer's extension handshake assigns to metadata messages. */
  function ParseHandshakeId(payload: bytes): Option<byte> {
    if payload == [] || payload[0] != HANDSHAKE_ID then None
    else
      match Parse(payload[1..])
      case None => None
      case Some(vs) =>
        if vs == [] || !vs[0].Dictionary? then None
        else if Ascii("m") !in vs[0].entries || !vs[0].entries[Ascii("m")].Dictionary? then None
        else match IntegerAt(vs[0].entries[Ascii("m")], "ut_metadata")
          case Some(n) => Some(n % 256)
          case None => None
  }

  /**
   * What the fetching side takes from an extended message while it waits for the
   * peer's handshake: the id (cast to 8 bits) and the size (cast to 64). Anything
   * but a handshake is passed over; a handshake without both is an error.
   */
  function ParseAnnouncement(payload: bytes): Reply<(byte, nat)> {
    if payload == [] || payload[0] != HANDSHAKE_ID then Ignored
    else
      match Parse(payload[1..])
      case None => Refused
      case Some(vs) =>
        if vs == [] || !vs[0].Dictionary? then Refused
        else if Ascii("m") !in vs[0].entries || !vs[0].entries[Ascii("m")].Dictionary? then Refused
        else
          match IntegerAt(vs[0].entries[Ascii("m")], "ut_metadata")
          case None => Refused
          case Some(id) =>
            match IntegerAt(vs[0], "metadata_size")
            case None => Refused
            case Some(size) => Found((id % 256, size % U64_LIMIT))
  }

  // ---- the printed texts are canonical bencode ----

  function IntEntry(key: string, n: int, rest: Entries): Entries { Entry(Ascii(key), Int(n), rest) }

  function MessageTree(kind: nat, piece: nat, rest: Entries): Tree {
    Dict(IntEntry("msg_type", kind, IntEntry("piece", piece, rest)))
  }

  function DataTree(piece: nat, totalSize: nat): Tree {
    MessageTree(1, piece, IntEntry("total_size", totalSize, Done))
  }

  lemma AsciiJoin(a: string, b: string)
    ensures Ascii(a + b) == Ascii(a) + Ascii(b)
  {
  }

  lemma Associates(a: bytes, b: bytes, c: bytes)
    ensures a + (b + c) == a + b + c
  {
  }

  /** An entry up to its value: `<length>:<key>i`. */
  function Field(key: bytes): bytes { EncodeStr(key) + [LETTER_I] }

  lemma FieldText(key: string, length: string)
    requires Decimal(|key|) == Ascii(length)
    ensures Ascii(length + (":" + key) + "i") == Field(Ascii(key))
  {
    assert Ascii(":") == [COLON] && Ascii("i") == [LETTER_I] && |Ascii(key)| == |key|;
    assert Field(Ascii(key)) == Decimal(|key|) + [COLON] + Ascii(key) + [LETTER_I];
    hide *;
    AsciiJoin(length + (":" + key), "i");
    AsciiJoin(length, ":" + key);
    AsciiJoin(":", key);
    Associates(Ascii(length), [COLON], Ascii(key));
  }

  function Line(key: bytes, n: nat): bytes { Field(key) + Decimal(n) + [LETTER_E] }

  lemma LineAfter(before: bytes, key: bytes, n: nat)
    ensures before + Line(key, n) == before + Field(key) + Decimal(n) + [LETTER_E]
  {
    hide Field, Decimal;
    Associates(before, Field(key) + Decimal(n), [LETTER_E]);
    Associates(before, Field(key), Decimal(n));
  }

  lemma EncodedEntry(key: bytes, n: nat, rest: Entries)
    ensures EncodePairs(Entry(key, Int(n), rest)) == Line(key, n) + EncodePairs(rest)
  {
    hide Decimal, EncodeStr;
    assert EncodeInt(n) == [LETTER_I] + Decimal(n) + [LETTER_E];
    Associates(EncodeStr(key), [LETTER_I] + Decimal(n), [LETTER_E]);
    Associates(EncodeStr(key), [LETTER_I], Decimal(n));
  }

  lemma EncodedLastEntry(key: bytes, n: nat)
    ensures EncodePairs(Entry(key, Int(n), Done)) == Line(key, n)
  {
    EncodedEntry(key, n, Done);
    assert EncodePairs(Done) == [];
    assert Line(key, n) + [] == Line(key, n);
  }

  /** The words of a dictionary up to its second value. */
  function Opening(a: bytes, x: nat, b: bytes): bytes { [LETTER_D] + Line(a, x) + Field(b) }

  lemma EndTwice(s: bytes)
    ensures s + [LETTER_E, LETTER_E] == s + [LETTER_E] + [LETTER_E]
  {
  }

  /** A dictionary of two integers, from the words around the second one. */
  lemma TwoFields(a: bytes, x: nat, b: bytes, y: nat)
    ensures Opening(a, x, b) + Decimal(y) + [LETTER_E, LETTER_E]
      == Encode(Dict(Entry(a, Int(x), Entry(b, Int(y), Done))))
  {
    EncodedLastEntry(b, y);
    EncodedEntry(a, x, Entry(b, Int(y), Done));
    hide Decimal, Field, Line, EncodePairs;
    Associates([LETTER_D], Line(a, x), Line(b, y));
    LineAfter([LETTER_D] + Line(a, x), b, y);
    EndTwice(Opening(a, x, b) + Decimal(y));
  }

  /** A dictionary of three integers, from the words around the last two. */
  lemma ThreeFields(a: bytes, x: nat, b: bytes, y: nat, c: bytes, z: nat)
    ensures Opening(a, x, b) + Decimal(y) + ([LETTER_E] + Field(c)) + Decimal(z) + [LETTER_E, LETTER_E]
      == Encode(Dict(Entry(a, Int(x), Entry(b, Int(y), Entry(c, Int(z), Done)))))
  {
    EncodedLastEntry(c, z);
    EncodedEntry(b, y, Entry(c, Int(z), Done));
    EncodedEntry(a, x, Entry(b, Int(y), Entry(c, Int(z), Done)));
    hide Decimal, Field, Line, EncodePairs;
    var before := [LETTER_D] + Line(a, x);
    Associates([LETTER_D], Line(a, x), Line(b, y) + Line(c, z));
    Associates(before, Line(b, y), Line(c, z));
    LineAfter(before, b, y);
    LineAfter(before + Line(b, y), c, z);
    Associates(Opening(a, x, b) + Decimal(y), [LETTER_E], Field(c));
    EndTwice(Opening(a, x, b) + Decimal(y) + ([LETTER_E] + Field(c)) + Decimal(z));
  }

  lemma TypeWords()
    ensures "d8:msg_typei" == "d" + ("8" + (":" + "msg_type") + "i")
  {
    assert "8:msg_typei" == "8" + (":" + "msg_type") + "i";
  }

  lemma PieceWords()
    ensures "e5:piecei" == "e" + ("5" + (":" + "piece") + "i")
  {
  }

  /** The leading words of a message, by its type. */
  lemma LeadingWords(kind: nat, digit: string)
    requires Decimal(kind) == Ascii(digit)
    ensures Ascii("d8:msg_typei" + digit + "e5:piecei") == Opening(Ascii("msg_type"), kind, Ascii("piece"))
  {
    FieldText("msg_type", "8");
    FieldText("piece", "5");
    assert Ascii("d") == [LETTER_D] && Ascii("e") == [LETTER_E];
    hide Ascii, Decimal, Field;
    TypeWords();
    PieceWords();
    AsciiJoin("d", "8" + (":" + "msg_type") + "i");
    AsciiJoin("e", "5" + (":" + "piece") + "i");
    AsciiJoin("d8:msg_typei", digit);
    AsciiJoin("d8:msg_typei" + digit, "e5:piecei");
    LineAfter([LETTER_D], Ascii("msg_type"), kind);
    Associates([LETTER_D] + Field(Ascii("msg_type")) + Decimal(kind), [LETTER_E], Field(Ascii("piece")));
  }

  lemma Ends()
    ensures Ascii("ee") == [LETTER_E, LETTER_E]
  {
  }

  lemma RequestWords()
    ensures Ascii("d8:msg_typei0e5:piecei") == Opening(Ascii("msg_type"), 0, Ascii("piece"))
  {
    LeadingWords(0, "0");
    hide *;
    assert "d8:msg_typei0e5:piecei" == "d8:msg_typei" + "0" + "e5:piecei";
  }

  lemma DataWords()
    ensures Ascii("d8:msg_typei1e5:piecei") == Opening(Ascii("msg_type"), 1, Ascii("piece"))
  {
    LeadingWords(1, "1");
    hide *;
    assert "d8:msg_typei1e5:piecei" == "d8:msg_typei" + "1" + "e5:piecei";
  }

  lemma RejectWords()
    ensures Ascii("d8:msg_typei2e5:piecei") == Opening(Ascii("msg_type"), 2, Ascii("piece"))
  {
    LeadingWords(2, "2");
    hide *;
    assert "d8:msg_typei2e5:piecei" == "d8:msg_typei" + "2" + "e5:piecei";
  }

  lemma TotalSizeWords()
    ensures Ascii("e10:total_sizei") == [LETTER_E] + Field(Ascii("total_size"))
  {
    FieldText("total_size", "10");
    assert Ascii("e") == [LETTER_E];
    hide *;
    AsciiJoin("e", "10" + (":" + "total_size") + "i");
    assert "e10:total_sizei" == "e" + ("10" + (":" + "total_size") + "i");
  }

  /** Requests are printed as the bencode of their fields. */
  lemma RequestIsBencode(piece: nat)
    ensures RequestText(piece) == Encode(MessageTree(0, piece, Done))
  {
    hide Ascii, Decimal, Opening, Encode;
    RequestWords();
    Ends();
    TwoFields(Ascii("msg_type"), 0, Ascii("piece"), piece);
  }

  /** Rejects are printed as the bencode of their fields. */
  lemma RejectIsBencode(piece: nat)
    ensures RejectText(piece) == Encode(MessageTree(2, piece, Done))
  {
    hide Ascii, Decimal, Opening, Encode;
    RejectWords();
    Ends();
    TwoFields(Ascii("msg_type"), 2, Ascii("piece"), piece);
  }

  /** Headers of data messages are printed as the bencode of their fields. */
  lemma DataIsBencode(piece: nat, totalSize: nat)
    ensures DataText(piece, totalSize) == Encode(DataTree(piece, totalSize))
  {
    hide Ascii, Decimal, Opening, Field, Encode;
    DataWords();
    TotalSizeWords();
    Ends();
    ThreeFields(Ascii("msg_type"), 1, Ascii("piece"), piece, Ascii("total_size"), totalSize);
  }

  // ---- the handshake ----

  function InnerDict(): Tree { Dict(IntEntry("ut_metadata", OUR_UT_METADATA_ID, Done)) }

  function HandshakeEntries(metadataSize: Option<nat>): Entries {
    Entry(Ascii("m"), InnerDict(),
      if metadataSize.Some? then IntEntry("metadata_size", metadataSize.value, Done) else Done)
  }

  lemma HandshakeWords()
    ensures Ascii("d1:md11:ut_metadatai")
      == [LETTER_D] + EncodeStr(Ascii("m")) + ([LETTER_D] + Field(Ascii("ut_metadata")))
  {
    FieldText("ut_metadata", "11");
    assert Ascii("d") == [LETTER_D] && Ascii("1:m") == EncodeStr(Ascii("m"));
    hide *;
    var ut := "11" + (":" + "ut_metadata") + "i";
    AsciiJoin("d", "1:m");
    AsciiJoin("d", ut);
    AsciiJoin("d1:m", "d11:ut_metadatai");
    UtWords();
    assert "d1:md11:ut_metadatai" == "d1:m" + "d11:ut_metadatai";
  }

  lemma UtWords()
    ensures "d11:ut_metadatai" == "d" + ("11" + (":" + "ut_metadata") + "i")
    ensures "d1:m" == "d" + "1:m"
  {
  }

  lemma MetadataSizeWords()
    ensures Ascii("ee13:metadata_sizei") == [LETTER_E, LETTER_E] + Field(Ascii("metadata_size"))
  {
    FieldText("metadata_size", "13");
    Ends();
    hide *;
    AsciiJoin("ee", "13" + (":" + "metadata_size") + "i");
    assert "ee13:metadata_sizei" == "ee" + ("13" + (":" + "metadata_size") + "i");
  }

  lemma InnerText()
    ensures Encode(InnerDict())
      == [LETTER_D] + Field(Ascii("ut_metadata")) + Decimal(OUR_UT_METADATA_ID) + [LETTER_E] + [LETTER_E]
  {
    EncodedLastEntry(Ascii("ut_metadata"), OUR_UT_METADATA_ID);
    hide Ascii, Decimal, Field, Line, EncodePairs;
    LineAfter([LETTER_D], Ascii("ut_metadata"), OUR_UT_METADATA_ID);
  }

  /** The handshake text opens a dictionary with these entries; it closes it only when the size is known. */
  lemma HandshakeIsEntries(size: Option<nat>)
    ensures HandshakeText(size) ==
      [LETTER_D] + EncodePairs(HandshakeEntries(size)) + (if size.Some? then [LETTER_E] else [])
  {
    HandshakeWords();
    InnerText();
    Ends();
    var m, ut, id := EncodeStr(Ascii("m")), Field(Ascii("ut_metadata")), Decimal(OUR_UT_METADATA_ID);
    var inner := Encode(InnerDict());
    var tail := if size.Some? then IntEntry("metadata_size", size.value, Done) else Done;
    assert EncodePairs(HandshakeEntries(size)) == m + inner + EncodePairs(tail);
    assert EncodePairs(Done) == [];
    if size.Some? {
      MetadataSizeWords();
      EncodedLastEntry(Ascii("metadata_size"), size.value);
    }
    hide Ascii, Decimal, Field, EncodeStr, Encode, EncodePairs, Line;
    var d, e := [LETTER_D], [LETTER_E];
    var words := d + m + (d + ut);
    Associates(d + m, d + ut, id);
    Associates(d + m, d + ut + id, e);
    Associates(d + m, d + ut + id + e, e);
    Associates(d, m, inner);
    EndTwice(words + id);
    if size.Some? {
      var key, n := Field(Ascii("metadata_size")), Decimal(size.value);
      Associates(words + id, e + e, key);
      Associates(words + id, e, e);
      assert e + e == [LETTER_E, LETTER_E];
      LineAfter(d + (m + inner), Ascii("metadata_size"), size.value);
      Associates(d, m + inner, Line(Ascii("metadata_size"), size.value));
      EndTwice(words + id + [LETTER_E, LETTER_E] + key + n);
    } else {
      assert m + inner + [] == m + inner;
    }
  }

  // ---- reading back what is printed ----

  lemma ParseEncoded(t: Tree)
    ensures Parse(Encode(t)) == if InRange(t) then Some([Meaning(t)]) else None
  {
    EncodedParses(t, []);
    EncodedHead(t);
    hide Encode, InRange, Meaning, ParseValue;
    assert Encode(t) + [] == Encode(t);
    assert Encode(t)[|Encode(t)|..] == [];
    assert Parse([]) == Some([]);
    assert [Meaning(t)] + [] == [Meaning(t)];
  }

  /** A printed dictionary at the head of a payload is read back, with what follows it. */
  lemma ReadPrinted(build: Build, t: Tree, rest: bytes)
    requires t.Dict? && InRange(t) && |Encode(t)| < U32_LIMIT && |Encode(t) + rest| < U64_LIMIT
    ensures ReadDict(build, Encode(t) + rest) == Found((Meaning(t), rest))
  {
    EncodedParses(t, rest);
    ScannerFindsParsedValue(Encode(t) + rest);
    BuildsAgree(build, Encode(t) + rest);
    ParseEncoded(t);
    assert Meaning(t).Dictionary?;
    hide Encode, InRange, Meaning, ParseValue, Parse, Scan, Find;
    assert (Encode(t) + rest)[..|Encode(t)|] == Encode(t);
    assert (Encode(t) + rest)[|Encode(t)|..] == rest;
  }

  /** A text the parser rejects is never read as a dictionary. */
  lemma UnparsableNotRead(build: Build, text: bytes)
    requires ParseValue(text).None?
    ensures !ReadDict(build, text).Found?
  {
    if ReadDict(build, text).Found? {
      var n := Find(build, text).end.value;
      var head := text[..n];
      assert head != [];
      var m := ParseValue(head).value.1;
      hide ParseValue, Parse, Find;
      assert head[..m] == text[..m];
      ParseValueStable(head, text);
    }
  }

  lemma MessageFields(kind: nat, piece: nat)
    ensures var v := Meaning(MessageTree(kind, piece, Done));
      v.Dictionary? && IntegerAt(v, "msg_type") == Some(kind) && IntegerAt(v, "piece") == Some(piece)
  {
    hide Encode;
    var k, p := Ascii("msg_type"), Ascii("piece");
    assert |k| == 8 && |p| == 5;
    assert PairMeanings(IntEntry("piece", piece, Done)) == [(p, Integer(piece))];
    assert PairMeanings(MessageTree(kind, piece, Done).entries) == [(k, Integer(kind)), (p, Integer(piece))];
    assert Collect([(k, Integer(kind))]) == map[k := Integer(kind)];
    assert [(k, Integer(kind)), (p, Integer(piece))][..1] == [(k, Integer(kind))];
  }

  lemma DataFields(piece: nat, totalSize: nat)
    ensures var v := Meaning(DataTree(piece, totalSize));
      v.Dictionary? && IntegerAt(v, "msg_type") == Some(1) && IntegerAt(v, "piece") == Some(piece)
  {
    hide Encode;
    var k, p, t := Ascii("msg_type"), Ascii("piece"), Ascii("total_size");
    assert |k| == 8 && |p| == 5 && |t| == 10;
    var first, second, third := (k, Integer(1)), (p, Integer(piece)), (t, Integer(totalSize));
    assert PairMeanings(IntEntry("total_size", totalSize, Done)) == [third];
    assert PairMeanings(IntEntry("piece", piece, IntEntry("total_size", totalSize, Done))) == [second, third];
    assert PairMeanings(DataTree(piece, totalSize).entries) == [first, second, third];
    assert [first, second, third][..2] == [first, second] && [first, second][..1] == [first];
    assert Collect([first]) == map[k := Integer(1)];
    assert Collect([first, second]) == map[k := Integer(1), p := Integer(piece)];
  }

  lemma TextSizes(piece: nat, totalSize: nat)
    requires piece < U64_LIMIT && totalSize < U64_LIMIT
    ensures |RequestText(piece)| <= 100 && |RejectText(piece)| <= 100 && |DataText(piece, totalSize)| <= 100
  {
    ShortDecimal(piece);
    ShortDecimal(totalSize);
    hide Decimal;
  }

  lemma MessageInRange(kind: nat, piece: nat)
    requires kind <= 2 && piece < U32_LIMIT
    ensures InRange(MessageTree(kind, piece, Done))
  {
    assert PairsInRange(Done) && InRange(Int(piece)) && InRange(Int(kind));
    assert PairsInRange(IntEntry("piece", piece, Done));
  }

  lemma DataInRange(piece: nat, totalSize: nat)
    requires piece < U32_LIMIT
    ensures InRange(DataTree(piece, totalSize)) <==> totalSize <= I64_MAX
  {
    assert PairsInRange(Done) && InRange(Int(piece)) && InRange(Int(1));
    assert PairsInRange(IntEntry("total_size", totalSize, Done)) <==> totalSize <= I64_MAX;
    assert PairsInRange(IntEntry("piece", piece, IntEntry("total_size", totalSize, Done))) <==> totalSize <= I64_MAX;
  }

  /** How a printed request or reject is read, whatever follows it. */
  lemma ReadMessage(build: Build, kind: nat, piece: nat, text: bytes, rest: bytes)
    requires kind <= 2 && piece < U32_LIMIT && |rest| < I64_MAX
    requires text == Encode(MessageTree(kind, piece, Done)) && |text| <= 100
    ensures ReadDict(build, text + rest) == Found((Meaning(MessageTree(kind, piece, Done)), rest))
  {
    MessageInRange(kind, piece);
    hide Encode, Meaning, InRange;
    ReadPrinted(build, MessageTree(kind, piece, Done), rest);
  }

  /** What both readers make of a message, by its type. */
  lemma Classify(build: Build, payload: bytes, id: byte, v: Value, rest: bytes, kind: nat, piece: nat)
    requires payload != [] && payload[0] == id && ReadDict(build, payload[1..]) == Found((v, rest))
    requires v.Dictionary? && kind <= 2 && piece < U32_LIMIT
    requires IntegerAt(v, "msg_type") == Some(kind) && IntegerAt(v, "piece") == Some(piece)
    ensures ParseMetadataRequest(build, payload, id) == if kind == 0 then Found(piece) else Ignored
    ensures ParseMetadataPiece(build, payload, id) ==
      if kind == 2 then Refused else if kind == 1 then Found((piece, rest)) else Ignored
  {
    hide ReadDict, IntegerAt;
  }

  /** A request is read back with its index, whatever bytes follow it; nobody takes it for data. */
  lemma RequestRoundTrip(build: Build, id: byte, piece: nat, rest: bytes)
    requires piece < U32_LIMIT && |rest| < I64_MAX
    ensures ParseMetadataRequest(build, CreateRequest(id, piece).payload + rest, id) == Found(piece)
    ensures ParseMetadataPiece(build, CreateRequest(id, piece).payload + rest, id) == Ignored
  {
    RequestIsBencode(piece);
    TextSizes(piece, 0);
    ReadMessage(build, 0, piece, RequestText(piece), rest);
    MessageFields(0, piece);
    var payload := CreateRequest(id, piece).payload + rest;
    var v := Meaning(MessageTree(0, piece, Done));
    hide *;
    Prepended(id, RequestText(piece), rest, payload);
    Classify(build, payload, id, v, rest, 0, piece);
  }

  lemma Prepended(id: byte, text: bytes, rest: bytes, payload: bytes)
    requires payload == [id] + text + rest
    ensures payload != [] && payload[0] == id && payload[1..] == text + rest
  {
  }

  /** A reject is an error to who asked, and no request to anybody. */
  lemma RejectIsRefused(build: Build, id: byte, piece: nat, rest: bytes)
    requires piece < U32_LIMIT && |rest| < I64_MAX
    ensures ParseMetadataPiece(build, CreateReject(id, piece).payload + rest, id) == Refused
    ensures ParseMetadataRequest(build, CreateReject(id, piece).payload + rest, id) == Ignored
  {
    RejectIsBencode(piece);
    TextSizes(piece, 0);
    ReadMessage(build, 2, piece, RejectText(piece), rest);
    MessageFields(2, piece);
    var payload := CreateReject(id, piece).payload + rest;
    var v := Meaning(MessageTree(2, piece, Done));
    hide *;
    Prepended(id, RejectText(piece), rest, payload);
    Classify(build, payload, id, v, rest, 2, piece);
  }

  /**
   * A data message is read back with the same index and the same bytes,
   * whatever they are, exactly when the total size fits a signed 64-bit integer.
   */
  lemma DataRoundTripIff(build: Build, id: byte, piece: nat, data: bytes, totalSize: nat)
    requires piece < U32_LIMIT && |data| < I64_MAX && totalSize < U64_LIMIT
    ensures totalSize <= I64_MAX <==>
      ParseMetadataPiece(build, CreateDataResponse(id, piece, data, totalSize).payload, id) == Found((piece, data))
    ensures totalSize <= I64_MAX ==>
      ParseMetadataRequest(build, CreateDataResponse(id, piece, data, totalSize).payload, id) == Ignored
  {
    var t := DataTree(piece, totalSize);
    DataIsBencode(piece, totalSize);
    TextSizes(piece, totalSize);
    DataInRange(piece, totalSize);
    DataFields(piece, totalSize);
    EncodedParses(t, data);
    var payload := CreateDataResponse(id, piece, data, totalSize).payload;
    assert t.Dict?;
    hide *;
    Prepended(id, DataText(piece, totalSize), data, payload);
    if totalSize <= I64_MAX {
      ReadPrinted(build, t, data);
      Classify(build, payload, id, Meaning(t), data, 1, piece);
    } else {
      UnparsableNotRead(build, DataText(piece, totalSize) + data);
      NotReadNotFound(build, payload, id);
    }
  }

  lemma NotReadNotFound(build: Build, payload: bytes, id: byte)
    requires payload != [] && payload[0] == id && !ReadDict(build, payload[1..]).Found?
    ensures !ParseMetadataPiece(build, payload, id).Found?
  {
    hide ReadDict;
  }

  /** Every piece of the info dictionary is served and read back; past its end requests are refused. */
  lemma ResponseRoundTrip(build: Build, dict: bytes, id: byte, piece: nat)
    requires |dict| <= I64_MAX && piece < U32_LIMIT
    ensures var reply := ParseMetadataPiece(build, Respond(Some(dict), id, piece).payload, id);
      if piece < PieceCount(|dict|) then reply == Found((piece, DictSlice(dict, piece))) else reply == Refused
    ensures ParseMetadataPiece(build, Respond(None, id, piece).payload, id) == Refused
  {
    RejectIsRefused(build, id, piece, []);
    var reject := CreateReject(id, piece).payload;
    assert reject + [] == reject;
    if piece * METADATA_PIECE_SIZE < |dict| {
      DataRoundTripIff(build, id, piece, DictSlice(dict, piece), |dict|);
    }
  }

  // ---- handshakes ----

  lemma {:induction false} UnclosedPairs(ps: Entries)
    ensures ParsePairs(EncodePairs(ps)).None?
  {
    if ps.Entry? {
      var head := EncodeStr(ps.key) + Encode(ps.value);
      StrHead(ps.key, Encode(ps.value) + EncodePairs(ps.rest));
      EncodedPairParses(ps.key, ps.value, EncodePairs(ps.rest));
      UnclosedPairs(ps.rest);
      Associates(EncodeStr(ps.key), Encode(ps.value), EncodePairs(ps.rest));
      assert EncodePairs(ps) == head + EncodePairs(ps.rest);
      hide EncodeStr, Encode, ParsePair, ParseBytes;
      assert EncodePairs(ps)[|head|..] == EncodePairs(ps.rest);
    }
  }

  lemma HandshakeFields(size: nat)
    ensures var v := Meaning(Dict(HandshakeEntries(Some(size))));
      && v.Dictionary? && Ascii("m") in v.entries && v.entries[Ascii("m")].Dictionary?
      && IntegerAt(v.entries[Ascii("m")], "ut_metadata") == Some(OUR_UT_METADATA_ID)
  {
    hide Encode;
    var m, ut, ms := Ascii("m"), Ascii("ut_metadata"), Ascii("metadata_size");
    assert |m| == 1 && |ut| == 11 && |ms| == 13;
    var id := (ut, Integer(OUR_UT_METADATA_ID));
    assert PairMeanings(IntEntry("ut_metadata", OUR_UT_METADATA_ID, Done)) == [id];
    assert Collect([id]) == map[ut := Integer(OUR_UT_METADATA_ID)];
    var first, second := (m, Meaning(InnerDict())), (ms, Integer(size));
    assert PairMeanings(IntEntry("metadata_size", size, Done)) == [second];
    assert PairMeanings(HandshakeEntries(Some(size))) == [first, second];
    assert [first, second][..1] == [first];
    assert Collect([first]) == map[m := Meaning(InnerDict())];
  }

  /**
   * A printed handshake yields our id exactly when it carries a size that fits
   * 64 bits. Without a size the text lacks the byte that closes its dictionary,
   * and the reader rejects it.
   */
  lemma HandshakeYieldsIdIff(size: Option<nat>)
    ensures ParseHandshakeId(CreateHandshake(size).payload) ==
      if size.Some? && size.value <= I64_MAX then Some(OUR_UT_METADATA_ID) else None
  {
    HandshakeIsEntries(size);
    if size.Some? { ClosedHandshake(size.value); } else { UnclosedHandshake(); }
  }

  lemma ClosedHandshake(size: nat)
    requires HandshakeText(Some(size)) == [LETTER_D] + EncodePairs(HandshakeEntries(Some(size))) + [LETTER_E]
    ensures ParseHandshakeId(CreateHandshake(Some(size)).payload) ==
      if size <= I64_MAX then Some(OUR_UT_METADATA_ID) else None
  {
    var t := Dict(HandshakeEntries(Some(size)));
    HandshakeInRange(size);
    HandshakeFields(size);
    assert Encode(t) == HandshakeText(Some(size));
    ParseEncoded(t);
    var payload := CreateHandshake(Some(size)).payload;
    assert payload == [HANDSHAKE_ID] + HandshakeText(Some(size));
    hide *;
    assert [HANDSHAKE_ID] + HandshakeText(Some(size)) + [] == payload;
    Prepended(HANDSHAKE_ID, HandshakeText(Some(size)), [], payload);
    assert payload[1..] == Encode(t);
    if size <= I64_MAX { ReadHandshake(payload, Meaning(t)); } else { UnreadHandshake(payload); }
  }

  lemma ReadHandshake(payload: bytes, v: Value)
    requires payload != [] && payload[0] == HANDSHAKE_ID && Parse(payload[1..]) == Some([v])
    requires v.Dictionary? && Ascii("m") in v.entries && v.entries[Ascii("m")].Dictionary?
    requires IntegerAt(v.entries[Ascii("m")], "ut_metadata") == Some(OUR_UT_METADATA_ID)
    ensures ParseHandshakeId(payload) == Some(OUR_UT_METADATA_ID)
  {
    hide Parse, IntegerAt, Ascii;
  }

  lemma UnreadHandshake(payload: bytes)
    requires payload != [] && payload[0] == HANDSHAKE_ID && Parse(payload[1..]).None?
    ensures ParseHandshakeId(payload) == None
  {
    hide Parse;
  }

  lemma UnclosedHandshake()
    requires HandshakeText(None) == [LETTER_D] + EncodePairs(HandshakeEntries(None)) + []
    ensures ParseHandshakeId(CreateHandshake(None).payload) == None
  {
    UnclosedPairs(HandshakeEntries(None));
    var payload := CreateHandshake(None).payload;
    assert payload == [HANDSHAKE_ID] + HandshakeText(None);
    hide *;
    assert payload == [HANDSHAKE_ID] + HandshakeText(None) == [HANDSHAKE_ID] + HandshakeText(None) + [];
    Prepended(HANDSHAKE_ID, HandshakeText(None), [], payload);
    var pairs := EncodePairs(HandshakeEntries(None));
    assert payload[1..] == [LETTER_D] + pairs + [] == [LETTER_D] + pairs;
    UnclosedDictionary(payload[1..], pairs);
    UnreadHandshake(payload);
  }

  lemma UnclosedDictionary(text: bytes, pairs: bytes)
    requires text == [LETTER_D] + pairs && ParsePairs(pairs).None?
    ensures Parse(text).None?
  {
    assert text[1..] == pairs;
  }

  lemma HandshakeInRange(size: nat)
    ensures InRange(Dict(HandshakeEntries(Some(size)))) <==> size <= I64_MAX
  {
    assert PairsInRange(IntEntry("metadata_size", size, Done)) <==> size <= I64_MAX;
    assert InRange(InnerDict());
  }

  // ---- when a reader panics or hangs ----

  /**
   * Some place the loop comes to makes the readers panic: in a trapping build one
   * that exhausts a counter, in either a string that takes it past the data.
   */
  ghost predicate ReaderPanics(build: Build, text: bytes) {
    exists n: nat, at: At :: Visits(build, text, n, at) && Harms(build, text, at)
  }

  predicate Harms(build: Build, text: bytes, at: At) {
    (build.Trapping? && Exhausts(text, at)) || Oversteps(build, text, at)
  }

  /**
   * The readers slice up to the scanner's answer without a bounds check. In
   * either build, and on any text, they panic exactly when the loop comes to such
   * a place, and hang exactly when it comes back to one.
   */
  lemma ReaderPanicsIff(build: Build, text: bytes)
    ensures ReadDict(build, text) == Panics <==> ReaderPanics(build, text)
    ensures ReadDict(build, text) == Hangs <==> ComesBack(build, text)
  {
    PastTheEndIff(build, text);
    TrappedIff(build, text);
    FindForeverIff(build, text);
    hide Find, ComesBack, NeverStops, Parse, Visits, Exhausts, Oversteps;
    if n: nat, at: At :| Visits(build, text, n, at) && Exhausts(text, at) && build.Trapping? {
      assert Harms(build, text, at);
    }
    if n: nat, at: At :| Visits(build, text, n, at) && Oversteps(build, text, at) {
      assert Harms(build, text, at);
    }
  }

  /**
   * As long as no token that exhausts a counter is reached, both builds read
   * alike: they never hang, and panic exactly when a string outside every
   * container, declared longer than what is left, is reached past tokens that do
   * not end the scan.
   */
  lemma BuildsReadAlike(build: Build, text: bytes)
    requires |text| < U64_LIMIT && !Reaches(Counter, text, 0, 0)
    ensures ReadDict(build, text) == ReadDict(Trapping, text) != Hangs
    ensures ReadDict(build, text) == Panics <==> Reaches(Length, text, 0, 0)
  {
    OverflowsIffReached(text, 0, 0);
    PastTheEndIffReached(text, 0, 0);
    BuildsAgree(build, text);
    BuildsAgree(Trapping, text);
    hide Find, Scan, Reaches, Parse;
  }

  /** With overflow trapping, the readers never hang, and panic exactly when either trouble is reached. */
  lemma TrappingPanicsIff(text: bytes)
    requires |text| < U64_LIMIT
    ensures ReadDict(Trapping, text) != Hangs
    ensures ReadDict(Trapping, text) == Panics <==> Reaches(Counter, text, 0, 0) || Reaches(Length, text, 0, 0)
  {
    TrapsIffReached(text);
    hide Find, Reaches, Parse;
    if !Reaches(Counter, text, 0, 0) { BuildsReadAlike(Trapping, text); }
  }

  /** A text that begins with a string is decided by its declared length alone. */
  lemma StringTextPanicsIff(build: Build, text: bytes)
    requires |text| < U64_LIMIT && text != [] && IsDigit(text[0])
    ensures ReadDict(build, text) == Panics <==>
      && Declared(text).Some?
      && var end := Declared(text).value;
         if end < U64_LIMIT then end > |text| else build.Trapping? || end % U64_LIMIT > |text|
    ensures ReadDict(build, text) != Hangs
  {
    assert text[0..] == text;
    StepIs(build, text, START);
    WalkOnce(build, text, START, 1);
    StringStops(build, text);
    hide Walk, Step, Declared, TokenSize, Parse;
    FindIsTheLoop(build, text, 1);
    hide Find;
  }

  lemma StringStops(build: Build, text: bytes)
    requires text != [] && IsDigit(text[0])
    ensures Step(build, text, START) ==
      if Declared(text).None? then Stop(None)
      else if build.Trapping? && Declared(text).value >= U64_LIMIT then Trap
      else Stop(Some(Declared(text).value % U64_LIMIT))
  {
    assert text[0..] == text;
    hide FindByte, Numeral;
  }

  /** A text that opens as a dictionary is never sliced past its end, as long as no counter gives out. */
  lemma DictionaryTextInBounds(s: bytes)
    requires s != [] && s[0] == LETTER_D
    ensures Scan(s, 0, 0).End? ==> Scan(s, 0, 0).pos <= |s|
  {
    OthersStayInBounds(s);
  }

  /** Whatever the parser accepts in a peer message is read, in either build. */
  lemma ParsableNeverPanics(build: Build, s: bytes)
    requires |s| < U64_LIMIT && ParseValue(s).Some? && ParseValue(s).value.1 < U32_LIMIT
    ensures ReadDict(build, s) != Panics && ReadDict(build, s) != Hangs
  {
    ScannerFindsParsedValue(s);
    BuildsAgree(build, s);
    hide Scan, ParseValue, Parse, Find;
  }

  lemma ShortString()
    ensures Declared([57, COLON, 97, 98]) == Some(11)
  {
    var text: bytes := [57, COLON, 97, 98];
    FoundAt(text, COLON, 1);
    assert text[..1] == [57] && Numeral([57]) == 9 by { assert [57][..0] == []; }
  }

  /** What is read of a text goes for the request it makes. */
  lemma ReadersFollow(build: Build, text: bytes)
    ensures var payload := [OUR_UT_METADATA_ID] + text;
      var read := ReadDict(build, text);
      && (ParseMetadataRequest(build, payload, OUR_UT_METADATA_ID) == Panics <==> read == Panics)
      && (ParseMetadataRequest(build, payload, OUR_UT_METADATA_ID) == Hangs <==> read == Hangs)
      && (ParseMetadataPiece(build, payload, OUR_UT_METADATA_ID) == Panics <==> read == Panics)
      && (ParseMetadataPiece(build, payload, OUR_UT_METADATA_ID) == Hangs <==> read == Hangs)
      && (read == Refused ==> ParseMetadataRequest(build, payload, OUR_UT_METADATA_ID) == Ignored)
      && (read == Refused ==> ParseMetadataPiece(build, payload, OUR_UT_METADATA_ID) == Refused)
  {
    assert ([OUR_UT_METADATA_ID] + text)[1..] == text;
    hide ReadDict;
  }

  /** A four-byte text that makes both readers panic, however the client is built. */
  lemma PanicExample(build: Build)
    ensures ParseMetadataRequest(build, [OUR_UT_METADATA_ID] + Ascii("9:ab"), OUR_UT_METADATA_ID) == Panics
    ensures ParseMetadataPiece(build, [OUR_UT_METADATA_ID] + Ascii("9:ab"), OUR_UT_METADATA_ID) == Panics
  {
    var text := Ascii("9:ab");
    assert text == [57, COLON, 97, 98];
    ShortString();
    StringTextPanicsIff(build, text);
    hide ReadDict, Ascii, Declared;
    ReadersFollow(build, text);
  }

  /** The same behind a stray closing byte and an opening one, which bring the depth back to zero unchecked. */
  lemma ClosingPanicExample(build: Build)
    ensures ParseMetadataRequest(build, [OUR_UT_METADATA_ID] + Ascii("ed9:ab"), OUR_UT_METADATA_ID) == Panics
    ensures ParseMetadataPiece(build, [OUR_UT_METADATA_ID] + Ascii("ed9:ab"), OUR_UT_METADATA_ID) == Panics
  {
    var text := Ascii("ed9:ab");
    assert text == [LETTER_E, LETTER_D, 57, COLON, 97, 98];
    ClosingScan(text);
    hide Ascii;
    assert |text| == 6;
    OverflowsIffReached(text, 0, 0);
    PastTheEndIffReached(text, 0, 0);
    hide Scan, Reaches, ReadDict;
    BuildsReadAlike(build, text);
    ReadersFollow(build, text);
  }

  lemma ClosingScan(text: bytes)
    requires text == [LETTER_E, LETTER_D, 57, COLON, 97, 98]
    ensures Scan(text, 0, 0) == End(13)
  {
    ShortString();
    var (one, two) := (text[1..], text[2..]);
    assert one == [LETTER_D, 57, COLON, 97, 98] && one[1..] == two == [57, COLON, 97, 98];
    ScanToken(text, 0, 0);
    ScanToken(one, 1, -1);
    ScanToken(two, 2, 0);
    hide Scan, Declared;
  }

  /** Where overflow wraps, one request of 23 bytes keeps its reader busy for ever; where it traps, it panics. */
  lemma HangExample()
    ensures |[OUR_UT_METADATA_ID] + LOOPING| == 23
    ensures ParseMetadataRequest(Wrapping, [OUR_UT_METADATA_ID] + LOOPING, OUR_UT_METADATA_ID) == Hangs
    ensures ParseMetadataRequest(Trapping, [OUR_UT_METADATA_ID] + LOOPING, OUR_UT_METADATA_ID) == Panics
  {
    LongDecimal(BACK);
    LoopingNeverEnds();
    hide Find, LOOPING, Decimal;
    ReadersFollow(Wrapping, LOOPING);
    ReadersFollow(Trapping, LOOPING);
  }

  /** Another text that panics where overflow traps, and is merely ignored where it wraps. */
  lemma WrapExample()
    ensures ParseMetadataRequest(Wrapping, [OUR_UT_METADATA_ID] + RETURNING, OUR_UT_METADATA_ID) == Ignored
    ensures ParseMetadataPiece(Wrapping, [OUR_UT_METADATA_ID] + RETURNING, OUR_UT_METADATA_ID) == Refused
    ensures ParseMetadataRequest(Trapping, [OUR_UT_METADATA_ID] + RETURNING, OUR_UT_METADATA_ID) == Panics
  {
    ReturningEndsEarly();
    LongDecimal(LARGEST);
    DigitsAreNoValue(Decimal(LARGEST));
    hide Find, RETURNING, Decimal, Parse;
    ReadersFollow(Wrapping, RETURNING);
    ReadersFollow(Trapping, RETURNING);
  }

  lemma DigitsAreNoValue(ds: bytes)
    requires ds != [] && AllDigits(ds)
    ensures Parse(ds).None?
  {
    var n := DigitRun(ds);
    assert n == |ds|;
  }
}
