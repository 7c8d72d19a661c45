/**
 * What the metadata readers make of any encoded tree: every entry but the ones
 * they look for is ignored, and of equal keys the last one counts.
 */
module MessageTrees {
  import opened Basics
  import opened Bencode
  import opened Encoding
  import opened Scanner
  import opened Scanning
  import opened MetadataMessages

  /** The integer a dictionary holds under a key. */
  function IntUnder(ps: Entries, key: string): Option<int> {
    match LastUnder(ps, Ascii(key))
    case Some(Int(n)) => Some(n)
    case _ => None
  }

  /** The entries of the dictionary a dictionary holds under a key. */
  function DictUnder(ps: Entries, key: string): Option<Entries> {
    match LastUnder(ps, Ascii(key))
    case Some(Dict(inner)) => Some(inner)
    case _ => None
  }

  lemma IntegerIsUnder(ps: Entries, key: string)
    ensures IntegerAt(Meaning(Dict(ps)), key) == IntUnder(ps, key)
  {
    LastUnderIsCollected(ps, Ascii(key));
    hide Ascii, Collect, Encode, PairMeanings;
  }

  lemma DictIsUnder(ps: Entries, key: string)
    ensures var (v, inner) := (Meaning(Dict(ps)), DictUnder(ps, key));
      && (Ascii(key) in v.entries && v.entries[Ascii(key)].Dictionary? <==> inner.Some?)
      && (inner.Some? ==> v.entries[Ascii(key)] == Meaning(Dict(inner.value)))
  {
    LastUnderIsCollected(ps, Ascii(key));
    hide Ascii, Collect, Encode, PairMeanings;
  }

  // ---- handshakes ----

  /** The number under `ut_metadata` in the dictionary under `m`. */
  function IdIn(t: Tree): Option<int> {
    match t
    case Dict(ps) =>
      (match DictUnder(ps, "m")
       case Some(inner) => IntUnder(inner, "ut_metadata")
       case None => None)
    case _ => None
  }

  /** Of any handshake the id is the named number modulo 256, whatever else the handshake holds. */
  lemma HandshakeIdRead(first: byte, t: Tree)
    ensures ParseHandshakeId([first] + Encode(t)) ==
      if first == 0 && InRange(t) && IdIn(t).Some? then Some(IdIn(t).value % 256) else None
  {
    ParseEncoded(t);
    var payload := [first] + Encode(t);
    assert payload[1..] == Encode(t);
    match t
    case Dict(ps) =>
      DictIsUnder(ps, "m");
      if DictUnder(ps, "m").Some? { IntegerIsUnder(DictUnder(ps, "m").value, "ut_metadata"); }
      hide Parse, Ascii, Encode, InRange, Collect, PairMeanings, IntegerAt, LastUnder;
    case _ =>
      hide Parse, Ascii, Encode, InRange;
  }

  /** What the fetching side reads of a handshake: the id to send to, and the size to fetch. */
  lemma AnnouncementRead(first: byte, t: Tree)
    ensures ParseAnnouncement([first] + Encode(t)) ==
      if first != 0 then Ignored
      else if InRange(t) && t.Dict? && IdIn(t).Some? && IntUnder(t.entries, "metadata_size").Some?
      then Found((IdIn(t).value % 256, IntUnder(t.entries, "metadata_size").value % U64_LIMIT))
      else Refused
  {
    ParseEncoded(t);
    var payload := [first] + Encode(t);
    assert payload[1..] == Encode(t);
    match t
    case Dict(ps) =>
      DictIsUnder(ps, "m");
      IntegerIsUnder(ps, "metadata_size");
      if DictUnder(ps, "m").Some? { IntegerIsUnder(DictUnder(ps, "m").value, "ut_metadata"); }
      hide Parse, Ascii, Encode, InRange, Collect, PairMeanings, IntegerAt, LastUnder;
    case _ =>
      hide Parse, Ascii, Encode, InRange;
  }

  // ---- requests and pieces ----

  /** A tree at the head of a payload is read, in either build, if it is a dictionary. */
  lemma TreeRead(build: Build, t: Tree, rest: bytes)
    requires InRange(t) && |Encode(t)| < U32_LIMIT && |Encode(t) + rest| < U64_LIMIT
    ensures ReadDict(build, Encode(t) + rest) == if t.Dict? then Found((Meaning(t), rest)) else Ignored
  {
    EncodedParses(t, rest);
    ScannerFindsParsedValue(Encode(t) + rest);
    BuildsAgree(build, Encode(t) + rest);
    ParseEncoded(t);
    assert Meaning(t).Dictionary? <==> t.Dict?;
    hide Encode, InRange, Meaning, ParseValue, Parse, Scan, Find;
    assert (Encode(t) + rest)[..|Encode(t)|] == Encode(t);
    assert (Encode(t) + rest)[|Encode(t)|..] == rest;
  }

  /** The message type and piece index, when both are there. */
  function Fields(t: Tree): Option<(int, int)> {
    match t
    case Dict(ps) =>
      if IntUnder(ps, "msg_type").Some? && IntUnder(ps, "piece").Some?
      then Some((IntUnder(ps, "msg_type").value, IntUnder(ps, "piece").value))
      else None
    case _ => None
  }

  /** A request is a dictionary of type 0 sent to our id; its index is cast to 32 bits. */
  lemma RequestRead(build: Build, first: byte, t: Tree, rest: bytes, id: byte)
    requires InRange(t) && |Encode(t)| < U32_LIMIT && |Encode(t) + rest| < U64_LIMIT
    ensures ParseMetadataRequest(build, [first] + Encode(t) + rest, id) ==
      if first == id && Fields(t).Some? && Fields(t).value.0 == 0 then Found(Fields(t).value.1 % U32_LIMIT) else Ignored
  {
    TreeRead(build, t, rest);
    var payload := [first] + Encode(t) + rest;
    if t.Dict? {
      IntegerIsUnder(t.entries, "msg_type");
      IntegerIsUnder(t.entries, "piece");
    }
    assert payload != [] && payload[0] == first && payload[1..] == Encode(t) + rest;
    hide ReadDict, Meaning, Encode, IntegerAt, IntUnder, InRange;
  }

  /**
   * A piece is a dictionary of type 1, and what follows it; its index is cast to
   * 64 bits. Type 2 is an error, with or without an index.
   */
  function PieceIn(t: Tree, rest: bytes): Reply<(nat, bytes)> {
    if t.Dict? && IntUnder(t.entries, "msg_type") == Some(2) then Refused
    else if Fields(t).Some? && Fields(t).value.0 == 1 then Found((Fields(t).value.1 % U64_LIMIT, rest))
    else Ignored
  }

  lemma PieceRead(build: Build, first: byte, t: Tree, rest: bytes, id: byte)
    requires InRange(t) && |Encode(t)| < U32_LIMIT && |Encode(t) + rest| < U64_LIMIT
    ensures ParseMetadataPiece(build, [first] + Encode(t) + rest, id)
         == if first == id then PieceIn(t, rest) else Ignored
  {
    TreeRead(build, t, rest);
    var payload := [first] + Encode(t) + rest;
    if t.Dict? {
      IntegerIsUnder(t.entries, "msg_type");
      IntegerIsUnder(t.entries, "piece");
    }
    assert payload != [] && payload[0] == first && payload[1..] == Encode(t) + rest;
    hide ReadDict, Meaning, Encode, IntegerAt, IntUnder, InRange;
  }

  /** A text that begins with a byte no value begins with is no request, and an error to the fetcher. */
  lemma JunkRefused(build: Build, junk: bytes, id: byte)
    requires junk != [] && !MayBegin(junk[0]) && junk[0] != LETTER_E && |junk| < U64_LIMIT
    ensures ParseMetadataRequest(build, [id] + junk, id) == Ignored
    ensures ParseMetadataPiece(build, [id] + junk, id) == Refused
  {
    assert Scan(junk, 0, 0) == NoEnd;
    BuildsAgree(build, junk);
    assert ([id] + junk)[1..] == junk;
    hide Scan, Find;
  }
}
