/**
 * What a torrent file says, and what the info dictionary alone says of the same
 * torrent after it has been fetched from a peer.
 */
module Torrents {
  import opened Basics
  import opened Bencode
  import opened Encoding
  import opened Geometry
  import opened Wire
  import opened MetadataMessages
  import opened Connections
  import F = MetadataFetch

  const HASH_SIZE: nat := 20

  /** SHA-1, which byte strings are text, and how the client is built; all are left arbitrary. */
  datatype Oracle = Oracle(sha1: bytes -> Digest, utf8: bytes -> bool, build: Build)

  datatype Torrent = Torrent(announce: bytes, creationDate: nat, length: nat, pieceLength: nat, totalSize: nat,
                             name: bytes, pieces: seq<Digest>, infohash: Digest, rawInfoDict: bytes)

  /** What reading a torrent comes to: `Panicked` is a sum of lengths whose overflow traps. */
  datatype Reading = Read(torrent: Torrent) | TurnedDown | Panicked

  function GetString(o: Oracle, dict: map<bytes, Value>, key: string): Option<bytes> {
    if Ascii(key) in dict && dict[Ascii(key)].Bytes? && o.utf8(dict[Ascii(key)].data)
    then Some(dict[Ascii(key)].data)
    else None
  }

  /** An integer field cast to an unsigned width: negative numbers wrap. */
  function GetUnsigned(dict: map<bytes, Value>, key: string, limit: nat): (r: Option<nat>)
    requires limit > 0
    ensures r.Some? ==> r.value < limit
  {
    if Ascii(key) in dict && dict[Ascii(key)].Integer? then Some(dict[Ascii(key)].n % limit) else None
  }

  /** The whole hashes of a hash list; a short rest is dropped. */
  function HashList(b: bytes): (hashes: seq<Digest>)
    ensures |hashes| == |b| / HASH_SIZE
    ensures forall i, j | 0 <= i < |hashes| && 0 <= j < HASH_SIZE ::
      |hashes[i]| == HASH_SIZE && hashes[i][j] == b[HASH_SIZE * i + j]
  {
    seq(|b| / HASH_SIZE, i requires 0 <= i < |b| / HASH_SIZE => b[i * HASH_SIZE..(i + 1) * HASH_SIZE])
  }

  function GetHashes(dict: map<bytes, Value>): Option<seq<Digest>> {
    if Ascii("pieces") in dict && dict[Ascii("pieces")].Bytes? then Some(HashList(dict[Ascii("pieces")].data)) else None
  }

  /** What one entry of the file list adds; entries without a length count for nothing. */
  function FileLength(file: Value): nat {
    var length := if file.Dictionary? then GetUnsigned(file.entries, "length", U64_LIMIT) else None;
    if length.Some? then length.value else 0
  }

  /** Lengths of the listed files, added one by one in 64 bits. None: an overflow trapped. */
  function FilesTotal(build: Build, files: seq<Value>): Option<nat> {
    if files == [] then Some(0)
    else
      match FilesTotal(build, files[..|files| - 1])
      case None => None
      case Some(sum) =>
        var n := sum + FileLength(files[|files| - 1]);
        if n < U64_LIMIT then Some(n) else if build.Wrapping? then Some(n % U64_LIMIT) else None
  }

  /** How big the torrent is said to be, when it says so. */
  datatype Size = Known(size: nat) | Unknown | Overflowed

  function GetTotalSize(build: Build, info: map<bytes, Value>): Size {
    if GetUnsigned(info, "length", U64_LIMIT).Some? then Known(GetUnsigned(info, "length", U64_LIMIT).value)
    else if Ascii("files") in info && info[Ascii("files")].List? then
      match FilesTotal(build, info[Ascii("files")].items)
      case Some(n) => Known(n)
      case None => Overflowed
    else Unknown
  }

  /** `parse_torrent_bytes` */
  function ParseTorrent(o: Oracle, data: bytes): Reading {
    var parsed := Parse(data);
    if parsed.None? || parsed.value == [] || !parsed.value[0].Dictionary? then TurnedDown
    else
      var dict := parsed.value[0].entries;
      var announce := GetString(o, dict, "announce");
      if announce.None? || Ascii("info") !in dict || !dict[Ascii("info")].Dictionary? then TurnedDown
      else
        var (info, raw) := (dict[Ascii("info")].entries, dict[Ascii("info")].raw);
        var name := GetString(o, info, "name");
        var pieceLength := GetUnsigned(info, "piece length", U32_LIMIT);
        var length := GetUnsigned(info, "length", U32_LIMIT);
        var creationDate := GetUnsigned(dict, "creation date", U32_LIMIT);
        var pieces := GetHashes(info);
        if name.None? || pieceLength.None? || length.None? || creationDate.None? || pieces.None? then TurnedDown
        else
          match GetTotalSize(o.build, info)
          case Unknown => TurnedDown
          case Overflowed => Panicked
          case Known(size) =>
            Read(Torrent(announce.value, creationDate.value, length.value, pieceLength.value, size,
                         name.value, pieces.value, o.sha1(raw), raw))
  }

  /** `parse_info_dict_bytes`: the same torrent from its info dictionary alone. */
  function ParseInfoDict(o: Oracle, data: bytes, infohash: Digest, announce: bytes): Reading {
    var parsed := Parse(data);
    if parsed.None? || parsed.value == [] || !parsed.value[0].Dictionary? then TurnedDown
    else
      var info := parsed.value[0].entries;
      var name := GetString(o, info, "name");
      var pieceLength := GetUnsigned(info, "piece length", U32_LIMIT);
      var pieces := GetHashes(info);
      if name.None? || pieceLength.None? || pieces.None? then TurnedDown
      else
        match GetTotalSize(o.build, info)
        case Unknown => TurnedDown
        case Overflowed => Panicked
        case Known(size) =>
          Read(Torrent(announce, 0, size % U32_LIMIT, pieceLength.value, size,
                       name.value, pieces.value, infohash, data))
  }

  // ---- the sum of the lengths ----

  function LengthSum(files: seq<Value>): nat {
    if files == [] then 0 else LengthSum(files[..|files| - 1]) + FileLength(files[|files| - 1])
  }

  /** The total is the sum of the lengths modulo 64 bits, or traps exactly when that sum does not fit. */
  lemma {:induction false} FilesTotalIs(build: Build, files: seq<Value>)
    ensures FilesTotal(build, files) ==
      if LengthSum(files) < U64_LIMIT then Some(LengthSum(files))
      else if build.Wrapping? then Some(LengthSum(files) % U64_LIMIT) else None
  {
    if files != [] {
      FilesTotalIs(build, files[..|files| - 1]);
      AddModulo(LengthSum(files[..|files| - 1]), FileLength(files[|files| - 1]));
    }
    hide FileLength;
  }

  lemma AddModulo(a: nat, b: nat)
    ensures (a % U64_LIMIT + b) % U64_LIMIT == (a + b) % U64_LIMIT
    ensures a < U64_LIMIT ==> a % U64_LIMIT == a
  {
  }

  /** Reading an info dictionary panics only where overflow traps, on a list of files too big for 64 bits. */
  lemma InfoDictPanicsIff(o: Oracle, v: Value, data: bytes, infohash: Digest, announce: bytes)
    requires Parse(data) == Some([v]) && v.Dictionary?
    ensures ParseInfoDict(o, data, infohash, announce) == Panicked <==>
      && o.build.Trapping?
      && GetString(o, v.entries, "name").Some? && GetUnsigned(v.entries, "piece length", U32_LIMIT).Some?
      && GetHashes(v.entries).Some? && GetUnsigned(v.entries, "length", U64_LIMIT).None?
      && Ascii("files") in v.entries && v.entries[Ascii("files")].List?
      && LengthSum(v.entries[Ascii("files")].items) >= U64_LIMIT
  {
    if Ascii("files") in v.entries && v.entries[Ascii("files")].List? {
      FilesTotalIs(o.build, v.entries[Ascii("files")].items);
    }
    hide Parse, Ascii, FilesTotal, LengthSum, HashList;
  }

  /** A torrent file never panics: one without a length is turned down before its files are counted. */
  lemma FileNeverPanics(o: Oracle, data: bytes)
    ensures ParseTorrent(o, data) != Panicked
  {
    hide Parse, Ascii, GetHashes, FilesTotal;
  }

  // ---- the raw info dictionary stands for itself ----

  /** The info dictionary of a source that has one. */
  function InfoOf(data: bytes): Option<Value> {
    var parsed := Parse(data);
    if parsed.None? || parsed.value == [] || !parsed.value[0].Dictionary? then None
    else if Ascii("info") in parsed.value[0].entries && parsed.value[0].entries[Ascii("info")].Dictionary?
    then Some(parsed.value[0].entries[Ascii("info")])
    else None
  }

  lemma WholeValueParses(s: bytes)
    requires ParseValue(s).Some? && ParseValue(s).value.1 == |s|
    ensures Parse(s) == Some([ParseValue(s).value.0])
  {
    assert s[|s|..] == [] && Parse([]) == Some([]);
    assert [ParseValue(s).value.0] + [] == [ParseValue(s).value.0];
  }

  /** The raw bytes kept for an info dictionary parse, alone, to that dictionary. */
  lemma RawInfoReparses(data: bytes)
    requires InfoOf(data).Some?
    ensures Parse(InfoOf(data).value.raw) == Some([InfoOf(data).value])
  {
    ParsedRawsReparse(data);
    var top := Parse(data).value[0];
    assert RawsReparse(top) && RawsReparse(top.entries[Ascii("info")]);
    hide ParseValue;
    WholeValueParses(InfoOf(data).value.raw);
  }

  /**
   * The raw info dictionary of a torrent file gives back the same torrent: name,
   * piece length, hashes, size and length. Only the creation date is lost.
   */
  lemma RawInfoGivesSameTorrent(o: Oracle, data: bytes)
    requires ParseTorrent(o, data).Read?
    ensures var t := ParseTorrent(o, data).torrent;
      && t.infohash == o.sha1(t.rawInfoDict)
      && Parse(t.rawInfoDict).Some?
      && ParseInfoDict(o, t.rawInfoDict, t.infohash, t.announce) == Read(t.(creationDate := 0))
  {
    hide Parse, ParseValue, Ascii, GetHashes, FilesTotal;
    RawInfoReparses(data);
    var length := InfoOf(data).value.entries[Ascii("length")].n;
    ModOfMod(length);
  }

  lemma ModOfMod(n: int)
    ensures n % U64_LIMIT % U32_LIMIT == n % U32_LIMIT
  {
    assert n % U64_LIMIT == n - n / U64_LIMIT * U64_LIMIT;
    assert U64_LIMIT == U32_LIMIT * U32_LIMIT;
    assert n / U64_LIMIT * U64_LIMIT == (n / U64_LIMIT * U32_LIMIT) * U32_LIMIT;
    ModShift(n % U64_LIMIT, n / U64_LIMIT * U32_LIMIT);
  }

  lemma ModShift(x: int, k: int)
    ensures (x + k * U32_LIMIT) % U32_LIMIT == x % U32_LIMIT
  {
  }

  /**
   * A torrent file is accepted exactly when its info dictionary is, and it also
   * has an announce text, a creation date and a single length. So a list of files
   * without a length is turned down here, although the info dictionary alone
   * would be accepted.
   */
  lemma FileAcceptedIff(o: Oracle, data: bytes)
    ensures ParseTorrent(o, data).Read? <==>
      && InfoOf(data).Some?
      && GetString(o, Parse(data).value[0].entries, "announce").Some?
      && GetUnsigned(Parse(data).value[0].entries, "creation date", U32_LIMIT).Some?
      && GetUnsigned(InfoOf(data).value.entries, "length", U32_LIMIT).Some?
      && ParseInfoDict(o, InfoOf(data).value.raw, [], []).Read?
  {
    hide Parse, ParseValue, Ascii, GetHashes, FilesTotal;
    if InfoOf(data).Some? { RawInfoReparses(data); }
  }

  // ---- a torrent of several files ----

  function FileTree(length: nat): Tree { Dict(IntEntry("length", length, Done)) }

  /** One file in a list, and no length of its own. */
  function ManyInfo(): Entries {
    Entry(Ascii("files"), Lst([FileTree(1)]), Entry(Ascii("name"), Str(Ascii("n")),
      IntEntry("piece length", 1, Entry(Ascii("pieces"), Str([]), Done))))
  }

  function ManyTorrent(): Entries {
    Entry(Ascii("announce"), Str(Ascii("a")),
      IntEntry("creation date", 0, Entry(Ascii("info"), Dict(ManyInfo()), Done)))
  }

  lemma ManyInRange()
    ensures InRange(Dict(ManyInfo())) && InRange(Dict(ManyTorrent()))
  {
    var tail := IntEntry("piece length", 1, Entry(Ascii("pieces"), Str([]), Done));
    assert PairsInRange(tail) && InRange(FileTree(1)) && ItemsInRange([FileTree(1)]);
    assert PairsInRange(ManyInfo());
  }

  lemma FileMeaning()
    ensures Meanings([FileTree(1)]) == [Meaning(FileTree(1))] && Meaning(FileTree(1)).Dictionary?
    ensures GetUnsigned(Meaning(FileTree(1)).entries, "length", U64_LIMIT) == Some(1)
  {
    var ps := PairMeanings(IntEntry("length", 1, Done));
    assert ps == [(Ascii("length"), Integer(1))];
    CollectedLast(ps, 0);
    assert [FileTree(1)][1..] == [];
  }

  lemma ManyInfoFields()
    ensures var info := Collect(PairMeanings(ManyInfo()));
      && Ascii("length") !in info
      && Ascii("files") in info && info[Ascii("files")] == List([Meaning(FileTree(1))])
      && Ascii("name") in info && info[Ascii("name")] == Bytes(Ascii("n"))
      && Ascii("piece length") in info && info[Ascii("piece length")] == Integer(1)
      && Ascii("pieces") in info && info[Ascii("pieces")] == Bytes([])
  {
    FileMeaning();
    var (a, b) := ((Ascii("files"), List([Meaning(FileTree(1))])), (Ascii("name"), Bytes(Ascii("n"))));
    var (c, d) := ((Ascii("piece length"), Integer(1)), (Ascii("pieces"), Bytes([])));
    var ps := [a, b, c, d];
    assert PairMeanings(Entry(Ascii("pieces"), Str([]), Done)) == [d];
    assert PairMeanings(IntEntry("piece length", 1, Entry(Ascii("pieces"), Str([]), Done))) == [c, d];
    assert PairMeanings(ManyInfo()) == ps;
    assert |a.0| == 5 && |b.0| == 4 && |c.0| == 12 && |d.0| == 6 && |Ascii("length")| == 6;
    assert d.0[0] == 112 && Ascii("length")[0] == 108;
    hide Ascii, Meaning, Meanings, PairMeanings, Collect;
    CollectedLast(ps, 0);
    CollectedLast(ps, 1);
    CollectedLast(ps, 2);
    CollectedLast(ps, 3);
    CollectedLacks(ps, Ascii("length"));
  }

  lemma ManyTorrentFields()
    ensures var top := Collect(PairMeanings(ManyTorrent()));
      && Ascii("announce") in top && top[Ascii("announce")] == Bytes(Ascii("a"))
      && Ascii("creation date") in top && top[Ascii("creation date")] == Integer(0)
      && Ascii("info") in top && top[Ascii("info")] == Meaning(Dict(ManyInfo()))
  {
    hide ManyInfo, Collect, Encode;
    var info := Meaning(Dict(ManyInfo()));
    var (a, b) := ((Ascii("announce"), Bytes(Ascii("a"))), (Ascii("creation date"), Integer(0)));
    var c := (Ascii("info"), info);
    var ps := [a, b, c];
    assert PairMeanings(Entry(Ascii("info"), Dict(ManyInfo()), Done)) == [c];
    assert PairMeanings(IntEntry("creation date", 0, Entry(Ascii("info"), Dict(ManyInfo()), Done))) == [b, c];
    assert PairMeanings(ManyTorrent()) == ps;
    assert |a.0| == 8 && |b.0| == 13 && |c.0| == 4;
    hide Ascii, Meaning, PairMeanings, Collect;
    CollectedLast(ps, 0);
    CollectedLast(ps, 1);
    CollectedLast(ps, 2);
  }

  /** An info dictionary with a list of one file is accepted, at the size of the file. */
  lemma ListOfOneAccepted(o: Oracle, data: bytes, v: Value, file: Value)
    requires Parse(data) == Some([v]) && v.Dictionary? && file.Dictionary?
    requires GetUnsigned(file.entries, "length", U64_LIMIT) == Some(1)
    requires GetString(o, v.entries, "name").Some? && GetUnsigned(v.entries, "piece length", U32_LIMIT).Some?
    requires GetHashes(v.entries).Some? && Ascii("length") !in v.entries
    requires Ascii("files") in v.entries && v.entries[Ascii("files")] == List([file])
    ensures var t := ParseInfoDict(o, data, [], []); t.Read? && t.torrent.totalSize == 1
  {
    assert [file][..0] == [] && FileLength(file) == 1;
    assert FilesTotal(o.build, []) == Some(0) && FilesTotal(o.build, [file]) == Some(1);
    hide Parse, Ascii, FilesTotal, HashList;
  }

  lemma ManyInfoAccepted(o: Oracle)
    requires o.utf8(Ascii("n"))
    ensures var t := ParseInfoDict(o, Encode(Dict(ManyInfo())), [], []); t.Read? && t.torrent.totalSize == 1
  {
    ManyInRange();
    ParseEncoded(Dict(ManyInfo()));
    ManyInfoFields();
    FileMeaning();
    var v := Meaning(Dict(ManyInfo()));
    assert v.Dictionary? && v.entries == Collect(PairMeanings(ManyInfo()));
    hide Parse, Ascii, Meaning, Encode, Collect, PairMeanings, ManyInfo, FileTree, HashList;
    ListOfOneAccepted(o, Encode(Dict(ManyInfo())), v, Meaning(FileTree(1)));
  }

  lemma DictionaryMeans(ps: Entries)
    ensures Meaning(Dict(ps)) == Dictionary(Collect(PairMeanings(ps)), Encode(Dict(ps)))
  {
  }

  lemma NoLengthTurnedDown(o: Oracle, data: bytes)
    requires InfoOf(data).Some? && Ascii("length") !in InfoOf(data).value.entries
    ensures ParseTorrent(o, data) == TurnedDown
  {
    FileAcceptedIff(o, data);
    FileNeverPanics(o, data);
    hide Parse, Ascii, ParseTorrent;
  }

  /** A concrete torrent of a list of files: turned down as a file, accepted as an info dictionary. */
  lemma ManyFilesTurnedDown(o: Oracle)
    requires o.utf8(Ascii("n"))
    ensures var data := Encode(Dict(ManyTorrent()));
      && ParseTorrent(o, data) == TurnedDown
      && InfoOf(data).Some? && ParseInfoDict(o, InfoOf(data).value.raw, [], []).Read?
      && ParseInfoDict(o, InfoOf(data).value.raw, [], []).torrent.totalSize == 1
  {
    hide Parse, Ascii, Meaning, Encode, Collect, PairMeanings, ManyTorrent, ManyInfo, ParseInfoDict, ParseTorrent;
    ManyInRange();
    ManyInfoAccepted(o);
    ParseEncoded(Dict(ManyTorrent()));
    ManyTorrentFields();
    ManyInfoFields();
    var (top, info) := (Meaning(Dict(ManyTorrent())), Meaning(Dict(ManyInfo())));
    DictionaryMeans(ManyTorrent());
    DictionaryMeans(ManyInfo());
    assert InfoOf(Encode(Dict(ManyTorrent()))) == Some(info);
    NoLengthTurnedDown(o, Encode(Dict(ManyTorrent())));
  }

  // ---- fetched from a peer ----

  /** The answer of a peer serving this dictionary, to a request for the i-th piece. */
  function AnswerRound(dict: bytes, i: nat): F.Round {
    F.Round(true, F.Received(Respond(Some(dict), OUR_UT_METADATA_ID, i)))
  }

  /** A round in which the peer serves this dictionary, or sends no metadata at all. */
  ghost predicate ServedRound(build: Build, r: F.Round, dict: bytes) {
    || !F.ReplyIn(build, r.incoming).Found?
    || exists i: nat :: i < U32_LIMIT && r.incoming == AnswerRound(dict, i).incoming
  }

  lemma AnswerIsRead(build: Build, dict: bytes, i: nat)
    requires |dict| <= I64_MAX && i < U32_LIMIT
    ensures F.ReplyIn(build, AnswerRound(dict, i).incoming)
      == if i < PieceCount(|dict|) then Found((i, DictSlice(dict, i))) else Refused
  {
    ResponseRoundTrip(build, dict, OUR_UT_METADATA_ID, i);
  }

  lemma ServedRoundsAreGenuine(build: Build, rounds: seq<F.Round>, dict: bytes)
    requires |dict| <= I64_MAX && forall k | 0 <= k < |rounds| :: ServedRound(build, rounds[k], dict)
    ensures F.Genuine(build, rounds, dict)
  {
    forall k | 0 <= k < |rounds| ensures F.GenuineRound(build, rounds[k], dict) {
      if F.ReplyIn(build, rounds[k].incoming).Found? {
        var i: nat :| i < U32_LIMIT && rounds[k].incoming == AnswerRound(dict, i).incoming;
        AnswerIsRead(build, dict, i);
      }
    }
  }

  /**
   * From a torrent file to a peer that has only its hash: whatever else the
   * serving peer sends, in any order, with repeats and errors, a fetch that
   * succeeds yields the same torrent.
   */
  lemma FetchedTorrentIsTheSame(o: Oracle, data: bytes, rounds: seq<F.Round>)
    requires ParseTorrent(o, data).Read? && |ParseTorrent(o, data).torrent.rawInfoDict| <= I64_MAX
    requires forall k | 0 <= k < |rounds| :: ServedRound(o.build, rounds[k], ParseTorrent(o, data).torrent.rawInfoDict)
    ensures var t := ParseTorrent(o, data).torrent;
      var verdict := F.Run(F.Start(o.build, |t.rawInfoDict|), rounds).1;
      verdict.Fetched? ==> ParseInfoDict(o, verdict.dict, t.infohash, t.announce) == Read(t.(creationDate := 0))
  {
    var dict := ParseTorrent(o, data).torrent.rawInfoDict;
    RawInfoGivesSameTorrent(o, data);
    ServedRoundsAreGenuine(o.build, rounds, dict);
    hide *;
    F.FetchGuarantees(o.build, |dict|, rounds, dict);
  }

  function AnswerRounds(dict: bytes, order: seq<nat>): seq<F.Round> {
    seq(|order|, k requires 0 <= k < |order| => AnswerRound(dict, order[k]))
  }

  /** The pieces asked for lie in the dictionary, and none is left out; repeats are fine. */
  predicate AsksForAll(order: seq<nat>, n: nat) {
    && (forall k | 0 <= k < |order| :: order[k] < n && order[k] < U32_LIMIT)
    && (forall i: nat | i < n :: i in order)
  }

  lemma AnswersAreSmooth(build: Build, dict: bytes, order: seq<nat>, k: nat)
    requires |dict| <= I64_MAX && AsksForAll(order, PieceCount(|dict|)) && k < |order|
    ensures var r := AnswerRounds(dict, order)[k];
      F.Smooth(build, r) && F.Brings(build, r, order[k]) && F.GenuineRound(build, r, dict)
  {
    AnswerIsRead(build, dict, order[k]);
    hide Respond, ParseMetadataPiece;
  }

  lemma EveryPieceIsBrought(build: Build, dict: bytes, order: seq<nat>, i: nat)
    requires |dict| <= I64_MAX && AsksForAll(order, PieceCount(|dict|)) && i < PieceCount(|dict|)
    ensures exists k :: 0 <= k < |order| && F.Brings(build, AnswerRounds(dict, order)[k], i)
  {
    assert i in order;
    var k: nat :| k < |order| && order[k] == i;
    AnswersAreSmooth(build, dict, order, k);
  }

  lemma EveryAnswerIsSmooth(build: Build, dict: bytes, order: seq<nat>)
    requires |dict| <= I64_MAX && AsksForAll(order, PieceCount(|dict|))
    ensures var rounds := AnswerRounds(dict, order);
      F.Genuine(build, rounds, dict) && forall k | 0 <= k < |rounds| :: F.Smooth(build, rounds[k])
  {
    hide F.Smooth, F.GenuineRound, F.Brings;
    forall k | 0 <= k < |order|
      ensures F.Smooth(build, AnswerRounds(dict, order)[k]) && F.GenuineRound(build, AnswerRounds(dict, order)[k], dict)
    {
      AnswersAreSmooth(build, dict, order, k);
    }
  }

  /** A fetch succeeds once each piece has been answered, in whatever order. */
  lemma AnsweredFetchSucceeds(build: Build, dict: bytes, order: seq<nat>)
    requires |dict| <= I64_MAX && AsksForAll(order, PieceCount(|dict|)) && Parse(dict).Some?
    ensures F.Run(F.Start(build, |dict|), AnswerRounds(dict, order)).1 == F.Fetched(dict)
  {
    var f, rounds := F.Start(build, |dict|), AnswerRounds(dict, order);
    F.StartIsValid(build, |dict|);
    assert f.size == |dict| && f.retries == 0 && |f.slots| == PieceCount(|dict|) && F.HoldsOnly(f, dict);
    assert |rounds| == |order|;
    hide *;
    EveryAnswerIsSmooth(build, dict, order);
    forall i: nat | i < |f.slots|
      ensures f.slots[i].Some? || exists k :: 0 <= k < |rounds| && F.Brings(build, rounds[k], i)
    {
      EveryPieceIsBrought(build, dict, order, i);
    }
    F.FetchCompletes(f, rounds, dict);
  }

  // ---- over the wire ----

  /** The message at the head of a stream, handed on as one wait of the fetcher. */
  function FirstOf(stream: bytes): F.Incoming {
    match ReadOne(stream)
    case Got(m, _) => F.Received(m)
    case _ => F.Failed
  }

  /** What comes back for a request sent to a peer that serves this dictionary on connection c. */
  function Exchange(build: Build, c: Conn, dict: bytes, request: Message): F.Incoming {
    var asked := FirstOf(Serialize(request));
    if asked.Failed? || asked.m.kind == Piece then F.Failed
    else
      var out := Process(c, asked.m, Host(Some(dict), build)).0.metadataOut;
      if |out| <= |c.metadataOut| then F.Failed else FirstOf(Serialize(out[|c.metadataOut|]))
  }

  lemma RespondFits(dict: bytes, i: nat)
    requires |dict| <= I64_MAX && i < U32_LIMIT
    ensures Fits(Respond(Some(dict), OUR_UT_METADATA_ID, i)) && Fits(CreateRequest(OUR_UT_METADATA_ID, i))
  {
    TextSizes(i, |dict|);
    hide RequestText, DataText, RejectText;
  }

  lemma RequestIsAnswered(build: Build, c: Conn, dict: bytes, i: nat)
    requires c.metadataId == Some(OUR_UT_METADATA_ID) && i < U32_LIMIT
    ensures var m := CreateRequest(OUR_UT_METADATA_ID, i);
      Process(c, m, Host(Some(dict), build)).0.metadataOut
        == c.metadataOut + [Respond(Some(dict), OUR_UT_METADATA_ID, i)]
  {
    RequestRoundTrip(build, OUR_UT_METADATA_ID, i, []);
    var request := CreateRequest(OUR_UT_METADATA_ID, i).payload;
    assert request + [] == request && request[0] == OUR_UT_METADATA_ID;
    hide ParseMetadataRequest, ParseHandshakeId, Respond, RequestText;
  }

  /** A request that has crossed the wire is answered, and the answer crosses it back. */
  lemma ExchangeAnswers(build: Build, c: Conn, dict: bytes, i: nat)
    requires c.metadataId == Some(OUR_UT_METADATA_ID) && |dict| <= I64_MAX && i < U32_LIMIT
    ensures Exchange(build, c, dict, CreateRequest(OUR_UT_METADATA_ID, i)) == AnswerRound(dict, i).incoming
  {
    RespondFits(dict, i);
    RequestIsAnswered(build, c, dict, i);
    var (m, reply) := (CreateRequest(OUR_UT_METADATA_ID, i), Respond(Some(dict), OUR_UT_METADATA_ID, i));
    ReadOneFrame(m, []);
    ReadOneFrame(reply, []);
    assert Serialize(m) + [] == Serialize(m) && Serialize(reply) + [] == Serialize(reply);
    assert m.kind == Extended;
    hide ReadOne, Serialize, Process, Respond, CreateRequest;
  }

  /** The first k pieces are held, were asked for in turn, and nothing is awaited. */
  ghost predicate UpTo(f: F.Fetch, size: nat, k: nat) {
    && f.size == size && |f.slots| == |f.asked| == PieceCount(size) && k <= |f.slots|
    && (forall i | 0 <= i < |f.slots| :: (f.slots[i].Some? <==> i < k) && (f.asked[i] <==> i < k))
    && f.received == k && f.retries == 0 && !f.waiting && f.requests == Counting(k)
  }

  function Counting(n: nat): seq<nat> { seq(n, i requires 0 <= i < n => i) }

  lemma UpToNext(f: F.Fetch, dict: bytes, k: nat)
    requires UpTo(f, |dict|, k) && k < PieceCount(|dict|) && k < U32_LIMIT && |dict| <= I64_MAX
    ensures var (g, verdict) := F.Step(f, AnswerRound(dict, k));
      UpTo(g, |dict|, k + 1) && verdict == F.Running
  {
    AnswerIsRead(f.build, dict, k);
    assert f.slots[k].None? && !f.asked[k];
    assert F.NextToAsk(f, 0) == k;
    assert Counting(k + 1) == Counting(k) + [k];
    hide F.NextToAsk, F.ReplyIn, Respond;
  }

  /** Answered each in turn, the fetcher asks for every piece once, in order. */
  lemma {:induction false} AsksInTurn(f: F.Fetch, dict: bytes, k: nat)
    requires UpTo(f, |dict|, k) && PieceCount(|dict|) <= U32_LIMIT && |dict| <= I64_MAX
    ensures var n := PieceCount(|dict|);
      F.Run(f, AnswerRounds(dict, Counting(n)[k..])).0.requests == Counting(n)
    decreases PieceCount(|dict|) - k
  {
    var n := PieceCount(|dict|);
    var rounds := AnswerRounds(dict, Counting(n)[k..]);
    if k < n {
      UpToNext(f, dict, k);
      assert rounds[0] == AnswerRound(dict, k) && rounds[1..] == AnswerRounds(dict, Counting(n)[k + 1..]);
      AsksInTurn(F.Step(f, rounds[0]).0, dict, k + 1);
      hide F.Step, AnswerRounds;
    }
  }

  /** The rounds of a fetch whose k-th request is the k-th piece. */
  function WireRounds(build: Build, c: Conn, dict: bytes, n: nat): seq<F.Round> {
    seq(n, k requires 0 <= k < n => F.Round(true, Exchange(build, c, dict, CreateRequest(OUR_UT_METADATA_ID, k))))
  }

  lemma CountingAsksForAll(n: nat)
    requires n <= U32_LIMIT
    ensures AsksForAll(Counting(n), n)
  {
    forall i: nat | i < n ensures i in Counting(n) { assert Counting(n)[i] == i; }
  }

  lemma WireRoundsAreAnswers(build: Build, c: Conn, dict: bytes, n: nat)
    requires c.metadataId == Some(OUR_UT_METADATA_ID) && |dict| <= I64_MAX && n <= U32_LIMIT
    ensures WireRounds(build, c, dict, n) == AnswerRounds(dict, Counting(n))
  {
    hide Exchange, Respond, CreateRequest;
    forall k | 0 <= k < n ensures WireRounds(build, c, dict, n)[k] == AnswerRounds(dict, Counting(n))[k] {
      ExchangeAnswers(build, c, dict, k);
    }
  }

  /**
   * A peer with only the hash ends up with the torrent its server has: every
   * request it makes is written to the wire, read, answered, written and read
   * again. The serving side must know the fetcher's id, as it does after a
   * handshake with a size.
   */
  lemma TorrentCrossesTheWire(o: Oracle, data: bytes, c: Conn)
    requires ParseTorrent(o, data).Read? && c.metadataId == Some(OUR_UT_METADATA_ID)
    requires PieceCount(|ParseTorrent(o, data).torrent.rawInfoDict|) <= U32_LIMIT
    ensures var t := ParseTorrent(o, data).torrent;
      var n := PieceCount(|t.rawInfoDict|);
      var (f, verdict) := F.Run(F.Start(o.build, |t.rawInfoDict|), WireRounds(o.build, c, t.rawInfoDict, n));
      && f.requests == Counting(n)
      && verdict == F.Fetched(t.rawInfoDict)
      && ParseInfoDict(o, verdict.dict, t.infohash, t.announce) == Read(t.(creationDate := 0))
  {
    var dict := ParseTorrent(o, data).torrent.rawInfoDict;
    var n := PieceCount(|dict|);
    RawInfoGivesSameTorrent(o, data);
    assert |dict| <= I64_MAX;
    assert UpTo(F.Start(o.build, |dict|), |dict|, 0);
    assert Counting(n)[0..] == Counting(n);
    hide *;
    CountingAsksForAll(n);
    WireRoundsAreAnswers(o.build, c, dict, n);
    AsksInTurn(F.Start(o.build, |dict|), dict, 0);
    AnsweredFetchSucceeds(o.build, dict, Counting(n));
  }
}
