/** Torrents read from any encoded tree, field by field. */
module TorrentTrees {
  import opened Basics
  import opened Bencode
  import opened Encoding
  import opened Geometry
  import opened MetadataMessages
  import opened MessageTrees
  import opened Torrents

  function StrUnder(ps: Entries, key: string): Option<bytes> {
    match LastUnder(ps, Ascii(key))
    case Some(Str(b)) => Some(b)
    case _ => None
  }

  function TextUnder(o: Oracle, ps: Entries, key: string): Option<bytes> {
    if StrUnder(ps, key).Some? && o.utf8(StrUnder(ps, key).value) then StrUnder(ps, key) else None
  }

  function ListUnder(ps: Entries, key: string): Option<seq<Tree>> {
    match LastUnder(ps, Ascii(key))
    case Some(Lst(items)) => Some(items)
    case _ => None
  }

  // ---- single fields ----

  lemma StringIsUnder(o: Oracle, ps: Entries, key: string)
    ensures GetString(o, Collect(PairMeanings(ps)), key) == TextUnder(o, ps, key)
  {
    LastUnderIsCollected(ps, Ascii(key));
    hide Ascii, Collect, PairMeanings, LastUnder, Encode, Meanings;
  }

  lemma UnsignedIsUnder(ps: Entries, key: string, limit: nat)
    requires limit > 0
    ensures GetUnsigned(Collect(PairMeanings(ps)), key, limit) ==
      if IntUnder(ps, key).Some? then Some(IntUnder(ps, key).value % limit) else None
  {
    LastUnderIsCollected(ps, Ascii(key));
    hide Ascii, Collect, PairMeanings, LastUnder, Encode, Meanings;
  }

  lemma HashesAreUnder(ps: Entries)
    ensures GetHashes(Collect(PairMeanings(ps))) ==
      if StrUnder(ps, "pieces").Some? then Some(HashList(StrUnder(ps, "pieces").value)) else None
  {
    LastUnderIsCollected(ps, Ascii("pieces"));
    hide Ascii, Collect, PairMeanings, LastUnder, Encode, Meanings, HashList;
  }

  // ---- the total size ----

  /** The length a tree names, if it is a file. */
  function NamedLength(file: Tree): nat {
    match file
    case Dict(ps) => if IntUnder(ps, "length").Some? then IntUnder(ps, "length").value % U64_LIMIT else 0
    case _ => 0
  }

  function NamedSum(files: seq<Tree>): nat {
    if files == [] then 0 else NamedSum(files[..|files| - 1]) + NamedLength(files[|files| - 1])
  }

  lemma {:induction false} MeaningsEach(ts: seq<Tree>)
    ensures |Meanings(ts)| == |ts| && forall i | 0 <= i < |ts| :: Meanings(ts)[i] == Meaning(ts[i])
  {
    hide Meaning;
    if ts != [] { MeaningsEach(ts[1..]); }
  }

  lemma LengthIsNamed(file: Tree)
    ensures FileLength(Meaning(file)) == NamedLength(file)
  {
    if file.Dict? {
      UnsignedIsUnder(file.entries, "length", U64_LIMIT);
      DictionaryMeans(file.entries);
    }
    hide Collect, PairMeanings, GetUnsigned, IntUnder, Encode, Meanings, Ascii;
  }

  lemma {:induction false} SumIsNamed(files: seq<Tree>)
    ensures LengthSum(Meanings(files)) == NamedSum(files)
  {
    MeaningsEach(files);
    if files != [] {
      var n := |files| - 1;
      MeaningsEach(files[..n]);
      assert Meanings(files)[..n] == Meanings(files[..n]);
      LengthIsNamed(files[n]);
      SumIsNamed(files[..n]);
    }
    hide Meaning, Meanings, FileLength, NamedLength;
  }

  /** A single length, or else the sum of those listed, in 64 bits. */
  function NamedSize(build: Build, info: Entries): Size {
    if IntUnder(info, "length").Some? then Known(IntUnder(info, "length").value % U64_LIMIT)
    else
      match ListUnder(info, "files")
      case Some(files) =>
        if NamedSum(files) < U64_LIMIT then Known(NamedSum(files))
        else if build.Wrapping? then Known(NamedSum(files) % U64_LIMIT) else Overflowed
      case None => Unknown
  }

  lemma SizeIsNamed(build: Build, info: Entries)
    ensures GetTotalSize(build, Collect(PairMeanings(info))) == NamedSize(build, info)
  {
    UnsignedIsUnder(info, "length", U64_LIMIT);
    LastUnderIsCollected(info, Ascii("files"));
    if ListUnder(info, "files").Some? {
      var files := ListUnder(info, "files").value;
      SumIsNamed(files);
      FilesTotalIs(build, Meanings(files));
    }
    hide Ascii, Collect, PairMeanings, GetUnsigned, IntUnder, LastUnder, FilesTotal, LengthSum, NamedSum,
         Meanings, Encode;
  }

  // ---- whole torrents ----

  /** The torrent an info dictionary describes, apart from its size. */
  function Described(o: Oracle, info: Entries, announce: bytes, date: nat, length: nat, size: nat, hash: Digest)
    : Option<Torrent>
  {
    match (TextUnder(o, info, "name"), IntUnder(info, "piece length"), StrUnder(info, "pieces"))
    case (Some(name), Some(pieceLength), Some(pieces)) =>
      Some(Torrent(announce, date, length, pieceLength % U32_LIMIT, size,
                   name, HashList(pieces), hash, Encode(Dict(info))))
    case _ => None
  }

  function InfoReading(o: Oracle, info: Entries, hash: Digest, announce: bytes): Reading {
    match (NamedSize(o.build, info), Described(o, info, announce, 0, 0, 0, hash))
    case (Known(size), Some(t)) => Read(t.(length := size % U32_LIMIT, totalSize := size))
    case (Overflowed, Some(_)) => Panicked
    case _ => TurnedDown
  }

  /** Any encoded info dictionary gives exactly the torrent its entries describe. */
  lemma InfoDictRead(o: Oracle, info: Entries, hash: Digest, announce: bytes)
    requires InRange(Dict(info))
    ensures ParseInfoDict(o, Encode(Dict(info)), hash, announce) == InfoReading(o, info, hash, announce)
  {
    ParseEncoded(Dict(info));
    DictionaryMeans(info);
    StringIsUnder(o, info, "name");
    UnsignedIsUnder(info, "piece length", U32_LIMIT);
    HashesAreUnder(info);
    SizeIsNamed(o.build, info);
    hide Parse, Meaning, Encode, Collect, PairMeanings, GetString, GetUnsigned, GetHashes, GetTotalSize, TextUnder,
         IntUnder, StrUnder, NamedSize, HashList, InRange;
  }

  function FileReading(o: Oracle, top: Entries): Reading {
    match (TextUnder(o, top, "announce"), IntUnder(top, "creation date"), DictUnder(top, "info"))
    case (Some(announce), Some(date), Some(info)) =>
      (match IntUnder(info, "length")
       case None => TurnedDown
       case Some(n) =>
         var hash := o.sha1(Encode(Dict(info)));
         match Described(o, info, announce, date % U32_LIMIT, n % U32_LIMIT, n % U64_LIMIT, hash)
         case Some(t) => Read(t)
         case None => TurnedDown)
    case _ => TurnedDown
  }

  /** Any encoded torrent file gives exactly the torrent its entries describe, or is turned down. */
  lemma TorrentFileRead(o: Oracle, top: Entries)
    requires InRange(Dict(top))
    ensures ParseTorrent(o, Encode(Dict(top))) == FileReading(o, top)
  {
    ParseEncoded(Dict(top));
    DictionaryMeans(top);
    StringIsUnder(o, top, "announce");
    UnsignedIsUnder(top, "creation date", U32_LIMIT);
    DictIsUnder(top, "info");
    if DictUnder(top, "info").Some? {
      var info := DictUnder(top, "info").value;
      DictionaryMeans(info);
      StringIsUnder(o, info, "name");
      UnsignedIsUnder(info, "piece length", U32_LIMIT);
      UnsignedIsUnder(info, "length", U32_LIMIT);
      HashesAreUnder(info);
      SizeIsNamed(o.build, info);
    }
    hide Parse, Ascii, Meaning, Encode, Collect, PairMeanings, GetString, GetUnsigned, GetHashes, GetTotalSize,
         TextUnder, IntUnder, StrUnder, DictUnder, HashList, InRange;
  }

  /** A source with something no value begins with after its end is turned down, though it were right without. */
  lemma TrailingTurnedDown(o: Oracle, data: bytes, rest: bytes, hash: Digest, announce: bytes)
    requires Parse(data).Some? && rest != [] && !MayBegin(rest[0])
    ensures ParseTorrent(o, data + rest) == TurnedDown && ParseInfoDict(o, data + rest, hash, announce) == TurnedDown
  {
    LeftoverRejected(data, rest);
    hide Parse, Ascii;
  }
}
