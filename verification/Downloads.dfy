/**
 * The download state as a value, and what its operations mean. The class in
 * DownloadState.dfy is proved against these functions.
 */
module Downloads {
  import opened Basics
  import opened Geometry

  type Slots = seq<Option<bytes>>

  datatype Download = Download(meta: Meta, pieces: Slots, blocks: map<nat, Slots>,
                               requested: set<BlockInfo>, uploaded: nat)
  {
    ghost predicate Valid() {
      && meta.WellFormed()
      && |pieces| == meta.totalPieces
      && (forall p | p in blocks :: TrackedWell(meta, p, blocks[p]))
      && (forall p | 0 <= p < |pieces| :: KeptWell(meta, p, pieces[p]))
    }

    predicate Stored(b: BlockInfo) {
      b.piece in blocks && Index(b) < |blocks[b.piece]| && blocks[b.piece][Index(b)].Some?
    }

    predicate Finished(p: nat) { p < |pieces| && pieces[p].Some? }

    predicate IsComplete() { AllSome(pieces) }

    /** A block worth asking a peer for. */
    predicate Eligible(has: seq<bool>, b: BlockInfo)
      requires meta.WellFormed() && |pieces| == meta.totalPieces
    {
      && meta.IsTile(b)
      && pieces[b.piece].None?
      && b.piece < |has| && has[b.piece]
      && b !in requested
      && !Stored(b)
    }
  }

  /** Result of storing a block. `Panicked` is an index out of the hash table. */
  datatype Outcome = Partial | Verified | HashMismatch | Panicked

  /** A tracked piece has one slot per block, and always a block left to fetch. */
  ghost predicate TrackedWell(m: Meta, p: nat, slots: Slots)
    requires m.WellFormed()
  {
    |slots| == m.BlocksIn(p) && (p < m.totalPieces ==> !AllSome(slots))
  }

  /** Only a verified piece is kept. */
  ghost predicate KeptWell(m: Meta, p: nat, piece: Option<bytes>)
    requires m.WellFormed() && p < m.totalPieces
  {
    piece.Some? ==> m.sha1(piece.value) == m.hashes[p]
  }

  predicate AllSome(slots: Slots) { forall i | 0 <= i < |slots| :: slots[i].Some? }

  /** The filled slots' bytes, in order. */
  function Whole(slots: Slots): bytes {
    if slots == [] then []
    else
      var last := slots[|slots| - 1];
      Whole(slots[..|slots| - 1]) + (if last.Some? then last.value else [])
  }

  function Fresh(meta: Meta): Download {
    Download(meta, Repeat(meta.totalPieces, None), map[], {}, 0)
  }

  // ---- choosing a block ----

  /** The first block of piece p, from the k-th on, neither requested nor stored. */
  function FindNext(d: Download, p: nat, k: nat): Option<BlockInfo>
    requires d.meta.WellFormed()
    decreases d.meta.BlocksIn(p) - k
  {
    if k >= d.meta.BlocksIn(p) then None
    else
      var b := d.meta.Tile(p, k);
      if b !in d.requested && !d.Stored(b) then Some(b) else FindNext(d, p, k + 1)
  }

  function PickFrom(d: Download, has: seq<bool>, start: nat, i: nat): Option<BlockInfo>
    requires d.meta.WellFormed() && |d.pieces| == d.meta.totalPieces
    decreases |d.pieces| - i
  {
    if i >= |d.pieces| then None
    else
      var p := (start + i) % |d.pieces|;
      if d.pieces[p].None? && p < |has| && has[p] && FindNext(d, p, 0).Some?
      then FindNext(d, p, 0)
      else PickFrom(d, has, start, i + 1)
  }

  function Pick(d: Download, has: seq<bool>, start: nat): Option<BlockInfo>
    requires d.meta.WellFormed() && |d.pieces| == d.meta.totalPieces
  {
    PickFrom(d, has, start, 0)
  }

  /** When the scan that begins at `start` reaches piece p. */
  function Rank(total: nat, start: nat, p: nat): nat
    requires p < total
  {
    (p + total - start % total) % total
  }

  /** The rotated scan visits every piece exactly once. */
  lemma ScanVisitsOnce(total: nat, start: nat, p: nat, i: nat)
    requires p < total && i < total
    ensures Rank(total, start, p) < total
    ensures (start + i) % total == p <==> i == Rank(total, start, p)
  {
    var s := start % total;
    assert start == start / total * total + s;
    ModOfSum(start / total, total, s + i);
    ModOfSum(0, total, p + total - s);
  }

  lemma ModOfSum(q: nat, total: nat, r: nat)
    requires r < 2 * total
    ensures (q * total + r) % total == if r < total then r else r - total
  {
    var rest := if r < total then r else r - total;
    var times := if r < total then q else q + 1;
    assert q * total + r == times * total + rest;
    ModUnique(times, total, rest);
  }

  lemma ModUnique(q: nat, total: nat, r: nat)
    requires r < total
    ensures (q * total + r) % total == r
  {
    var x := q * total + r;
    var q', r' := x / total, x % total;
    assert x == q' * total + r';
    if q < q' { MulMonotone(q + 1, q', total); assert false; }
    if q' < q { MulMonotone(q' + 1, q, total); assert false; }
  }

  lemma {:induction false} FindNextIsFirst(d: Download, p: nat, k: nat)
    requires d.meta.WellFormed() && p < d.meta.totalPieces
    ensures var r := FindNext(d, p, k);
      match r
      case None =>
        forall j: nat | k <= j < d.meta.BlocksIn(p) :: d.meta.Tile(p, j) in d.requested || d.Stored(d.meta.Tile(p, j))
      case Some(b) =>
        && b.piece == p && d.meta.IsTile(b) && k <= Index(b) && b !in d.requested && !d.Stored(b)
        && forall j: nat | k <= j < Index(b) :: d.meta.Tile(p, j) in d.requested || d.Stored(d.meta.Tile(p, j))
    decreases d.meta.BlocksIn(p) - k
  {
    if k < d.meta.BlocksIn(p) {
      TileBounds(d.meta, p, k);
      FindNextIsFirst(d, p, k + 1);
    }
  }

  /** b is scanned before c: an earlier piece in rotated order, or an earlier block of the same piece. */
  predicate Before(total: nat, start: nat, b: BlockInfo, c: BlockInfo)
    requires b.piece < total && c.piece < total
  {
    || Rank(total, start, b.piece) < Rank(total, start, c.piece)
    || (b.piece == c.piece && b.offset < c.offset)
  }

  /** What `Pick` promises: the first eligible block, or none exactly when there is none. */
  ghost predicate IsFirstEligible(d: Download, has: seq<bool>, start: nat, r: Option<BlockInfo>)
    requires d.meta.WellFormed() && |d.pieces| == d.meta.totalPieces
  {
    match r
    case None => forall c :: !d.Eligible(has, c)
    case Some(b) =>
      && d.Eligible(has, b)
      && forall c | d.Eligible(has, c) && c != b :: Before(d.meta.totalPieces, start, b, c)
  }

  lemma {:induction false} PickFromSkipsNothing(d: Download, has: seq<bool>, start: nat, i: nat)
    requires d.meta.WellFormed() && |d.pieces| == d.meta.totalPieces
    ensures var total := d.meta.totalPieces;
      match PickFrom(d, has, start, i)
      case None => forall c | d.Eligible(has, c) :: Rank(total, start, c.piece) < i
      case Some(b) =>
        && d.Eligible(has, b)
        && forall c | d.Eligible(has, c) && c != b :: Rank(total, start, c.piece) < i || Before(total, start, b, c)
    decreases |d.pieces| - i
  {
    var total := d.meta.totalPieces;
    if i < total {
      var p := (start + i) % total;
      FindNextIsFirst(d, p, 0);
      PickFromSkipsNothing(d, has, start, i + 1);
      var r := FindNext(d, p, 0);
      forall c | d.Eligible(has, c)
        ensures Rank(total, start, c.piece) == i ==> c.piece == p && has[p] && d.pieces[p].None? && r.Some?
        ensures Rank(total, start, c.piece) == i && c != r.value ==> r.value.offset < c.offset
      {
        ScanVisitsOnce(total, start, c.piece, i);
        assert c == d.meta.Tile(c.piece, Index(c));
      }
      ScanVisitsOnce(total, start, p, i);
    } else {
      forall c | d.Eligible(has, c)
        ensures Rank(total, start, c.piece) < i
      {
        ScanVisitsOnce(total, start, c.piece, 0);
      }
    }
  }

  /** `Pick` is sound and complete. */
  lemma PickIsFirstEligible(d: Download, has: seq<bool>, start: nat)
    requires d.meta.WellFormed() && |d.pieces| == d.meta.totalPieces
    ensures IsFirstEligible(d, has, start, Pick(d, has, start))
  {
    PickFromSkipsNothing(d, has, start, 0);
  }

  /** The first eligible block is unique, so the promise determines the result. */
  lemma FirstEligibleUnique(d: Download, has: seq<bool>, start: nat, r: Option<BlockInfo>, r': Option<BlockInfo>)
    requires d.meta.WellFormed() && |d.pieces| == d.meta.totalPieces
    requires IsFirstEligible(d, has, start, r) && IsFirstEligible(d, has, start, r')
    ensures r == r'
  {
  }

  // ---- storing a block ----

  function SlotsOf(d: Download, p: nat): Slots
    requires d.meta.WellFormed()
  {
    if p in d.blocks then d.blocks[p] else Repeat(d.meta.BlocksIn(p), None)
  }

  /** Store a block; check the piece's hash once it has no empty slot left. */
  function Complete(d: Download, b: BlockInfo, data: bytes): (Download, Outcome)
    requires d.meta.WellFormed() && |d.pieces| == d.meta.totalPieces
  {
    var slots := SlotsOf(d, b.piece);
    var d1 := d.(requested := d.requested - {b}, blocks := d.blocks[b.piece := slots]);
    if Index(b) >= |slots| then (d1, Partial)
    else
      var filled := slots[Index(b) := Some(data)];
      if !AllSome(filled) then (d1.(blocks := d.blocks[b.piece := filled]), Partial)
      else if b.piece >= |d.meta.hashes| then (d1.(blocks := d.blocks[b.piece := filled]), Panicked)
      else
        var dropped := d1.(blocks := d.blocks - {b.piece});
        if d.meta.sha1(Whole(filled)) == d.meta.hashes[b.piece]
        then (dropped.(pieces := d.pieces[b.piece := Some(Whole(filled))]), Verified)
        else (dropped, HashMismatch)
  }

  /** The block fills the last empty slot kept for its piece, or all were full. */
  predicate FillsLast(d: Download, b: BlockInfo)
    requires d.meta.WellFormed()
  {
    var slots := SlotsOf(d, b.piece);
    Index(b) < |slots| && forall k | 0 <= k < |slots| && k != Index(b) :: slots[k].Some?
  }

  /** The piece number is out of range, and the block fills the last empty slot kept for it. */
  predicate StorePanics(d: Download, b: BlockInfo)
    requires d.meta.WellFormed()
  {
    b.piece >= d.meta.totalPieces && FillsLast(d, b)
  }

  /** The block fills the last empty slot of its piece, and the joined blocks do not have the piece's hash. */
  predicate StoreDiscards(d: Download, b: BlockInfo, data: bytes)
    requires d.meta.WellFormed()
  {
    && b.piece < d.meta.totalPieces && FillsLast(d, b)
    && d.meta.sha1(Whole(SlotsOf(d, b.piece)[Index(b) := Some(data)])) != d.meta.hashes[b.piece]
  }

  lemma FillsLastIff(d: Download, b: BlockInfo, data: bytes)
    requires d.meta.WellFormed() && Index(b) < |SlotsOf(d, b.piece)|
    ensures FillsLast(d, b) <==> AllSome(SlotsOf(d, b.piece)[Index(b) := Some(data)])
  {
    var slots := SlotsOf(d, b.piece);
    var filled := slots[Index(b) := Some(data)];
    if AllSome(filled) {
      forall k | 0 <= k < |slots| && k != Index(b) ensures slots[k].Some? { assert filled[k] == slots[k]; }
    }
  }

  /** Storing panics exactly in the one case, whatever the data, and fails the hash exactly in the other. */
  lemma StorePanicsIff(d: Download, b: BlockInfo, data: bytes)
    requires d.meta.WellFormed() && |d.pieces| == d.meta.totalPieces
    ensures Complete(d, b, data).1 == Panicked <==> StorePanics(d, b)
    ensures Complete(d, b, data).1 == HashMismatch <==> StoreDiscards(d, b, data)
  {
    if Index(b) < |SlotsOf(d, b.piece)| { FillsLastIff(d, b, data); }
    hide FillsLast, AllSome, SlotsOf;
  }

  lemma CompleteKeepsValid(d: Download, b: BlockInfo, data: bytes)
    requires d.Valid()
    ensures Complete(d, b, data).0.Valid()
    ensures Complete(d, b, data).1 == Panicked <==> StorePanics(d, b)
  {
    StorePanicsIff(d, b, data);
    var d' := Complete(d, b, data).0;
    forall p | p in d'.blocks ensures TrackedWell(d.meta, p, d'.blocks[p]) {
      if p == b.piece {
        EveryPieceHasABlock(d.meta, p);
        SlotsLeaveRoom(d, p);
      } else {
        assert p in d.blocks && d'.blocks[p] == d.blocks[p];
      }
    }
  }

  lemma SlotsLeaveRoom(d: Download, p: nat)
    requires d.Valid()
    ensures |SlotsOf(d, p)| == d.meta.BlocksIn(p) >= 1
    ensures p < d.meta.totalPieces ==> !AllSome(SlotsOf(d, p))
  {
    EveryPieceHasABlock(d.meta, p);
    if p in d.blocks {
      assert TrackedWell(d.meta, p, d.blocks[p]);
    } else {
      assert SlotsOf(d, p)[0].None?;
    }
  }

  /** All a call does to the marks is remove the block's own. */
  lemma CompleteUnmarks(d: Download, b: BlockInfo, data: bytes)
    requires d.Valid()
    ensures var d' := Complete(d, b, data).0;
      d'.Valid() && d'.meta == d.meta && d'.requested == d.requested - {b}
  {
    CompleteKeepsValid(d, b, data);
    hide Download.Valid;
  }

  /** A piece once finished stays finished, and other pieces are not touched. */
  lemma CompleteTouchesOnePiece(d: Download, b: BlockInfo, data: bytes, p: nat)
    requires d.Valid()
    ensures var d' := Complete(d, b, data).0;
      && d'.meta == d.meta && d'.uploaded == d.uploaded
      && d'.requested == d.requested - {b}
      && (d.Finished(p) ==> d'.Finished(p))
      && (p != b.piece ==>
            && (p < |d.pieces| ==> d'.pieces[p] == d.pieces[p])
            && (p in d'.blocks <==> p in d.blocks)
            && (p in d.blocks ==> d'.blocks[p] == d.blocks[p]))
  {
  }

  /** `get_piece_block`: part of a finished piece, if the range lies inside it. */
  function Served(d: Download, p: nat, begin: nat, length: nat): Option<bytes> {
    if p >= d.meta.totalPieces then None
    else if d.Finished(p) && begin + length <= |d.pieces[p].value|
    then Some(d.pieces[p].value[begin..begin + length])
    else None
  }

  // ---- accounting ----

  function CountSome(slots: Slots): (n: nat)
    ensures n <= |slots|
  {
    if slots == [] then 0
    else CountSome(slots[..|slots| - 1]) + (if slots[|slots| - 1].Some? then 1 else 0)
  }

  lemma {:induction false} CountSomeFull(slots: Slots)
    ensures CountSome(slots) == |slots| <==> AllSome(slots)
  {
    if slots != [] {
      CountSomeFull(slots[..|slots| - 1]);
      assert AllSome(slots) <==> AllSome(slots[..|slots| - 1]) && slots[|slots| - 1].Some?;
    }
  }

  lemma {:induction false} CountSomeUpdate(slots: Slots, k: nat, data: bytes)
    requires k < |slots|
    ensures CountSome(slots[k := Some(data)]) == CountSome(slots) + (if slots[k].None? then 1 else 0)
  {
    var last := |slots| - 1;
    if k < last {
      CountSomeUpdate(slots[..last], k, data);
      assert slots[k := Some(data)][..last] == slots[..last][k := Some(data)];
    } else {
      assert slots[k := Some(data)][..last] == slots[..last];
    }
  }

  lemma {:induction false} CountSomeEmpty(n: nat)
    ensures CountSome(Repeat(n, None)) == 0
  {
    if n > 0 {
      CountSomeEmpty(n - 1);
      assert Repeat<Option<bytes>>(n, None)[..n - 1] == Repeat(n - 1, None);
    }
  }

  /** Blocks of piece p held, either in a finished piece or in a tracked one. */
  function Held(d: Download, p: nat): nat
    requires d.meta.WellFormed()
  {
    if d.Finished(p) then d.meta.BlocksIn(p)
    else if p < |d.pieces| && p in d.blocks then CountSome(d.blocks[p])
    else 0
  }

  function HeldUpTo(d: Download, n: nat): nat
    requires d.meta.WellFormed()
  {
    if n == 0 then 0 else HeldUpTo(d, n - 1) + Held(d, n - 1)
  }

  function CompletedBlocks(d: Download): nat
    requires d.meta.WellFormed()
  {
    HeldUpTo(d, d.meta.totalPieces)
  }

  lemma HeldIsFullIffFinished(d: Download, p: nat)
    requires d.Valid() && p < d.meta.totalPieces
    ensures Held(d, p) <= d.meta.BlocksIn(p)
    ensures Held(d, p) == d.meta.BlocksIn(p) <==> d.Finished(p)
  {
    EveryPieceHasABlock(d.meta, p);
    if p in d.blocks { CountSomeFull(d.blocks[p]); }
  }

  lemma {:induction false} HeldUpToBound(d: Download, n: nat)
    requires d.Valid() && n <= d.meta.totalPieces
    ensures HeldUpTo(d, n) <= BlocksUpTo(d.meta, n)
    ensures HeldUpTo(d, n) == BlocksUpTo(d.meta, n) <==> forall p: nat | p < n :: d.Finished(p)
  {
    if n > 0 {
      HeldUpToBound(d, n - 1);
      HeldIsFullIffFinished(d, n - 1);
    }
  }

  /** The count reaches the total exactly when every piece is verified. */
  lemma AccountingMeetsTotalIffComplete(d: Download)
    requires d.Valid()
    ensures CompletedBlocks(d) <= d.meta.TotalBlocks()
    ensures CompletedBlocks(d) == d.meta.TotalBlocks() <==> d.IsComplete()
  {
    HeldUpToBound(d, d.meta.totalPieces);
    if d.IsComplete() {
      assert forall p: nat | p < d.meta.totalPieces :: d.Finished(p);
    } else {
      var p :| 0 <= p < |d.pieces| && d.pieces[p].None?;
      assert !d.Finished(p);
    }
  }

  lemma {:induction false} HeldUpToOneChange(d: Download, d': Download, p: nat, n: nat)
    requires d.meta.WellFormed() && d'.meta.WellFormed()
    requires forall q: nat | q < n && q != p :: Held(d', q) == Held(d, q)
    ensures HeldUpTo(d', n) == HeldUpTo(d, n) + (if p < n then Held(d', p) - Held(d, p) else 0)
  {
    if n > 0 { HeldUpToOneChange(d, d', p, n - 1); }
  }

  /** How a call changes the count of completed blocks. */
  function CountChange(d: Download, b: BlockInfo, data: bytes): int
    requires d.Valid()
  {
    var outcome := Complete(d, b, data).1;
    if b.piece >= d.meta.totalPieces || d.Finished(b.piece) || Index(b) >= d.meta.BlocksIn(b.piece) then 0
    else if outcome == HashMismatch then 1 - d.meta.BlocksIn(b.piece)
    else if d.Stored(b) then 0
    else 1
  }

  /**
   * Every call moves the count by +1, by 0, or by -(n - 1) when an n-block
   * piece is discarded; a duplicate or a block of a finished piece moves nothing.
   */
  lemma CompleteChangesCount(d: Download, b: BlockInfo, data: bytes)
    requires d.Valid()
    ensures CompletedBlocks(Complete(d, b, data).0) == CompletedBlocks(d) + CountChange(d, b, data)
  {
    var d' := Complete(d, b, data).0;
    forall q: nat | q != b.piece ensures Held(d', q) == Held(d, q) {
      CompleteTouchesOnePiece(d, b, data, q);
    }
    HeldUpToOneChange(d, d', b.piece, d.meta.totalPieces);
    if b.piece < d.meta.totalPieces { HeldChange(d, b, data); }
  }

  lemma HeldChange(d: Download, b: BlockInfo, data: bytes)
    requires d.Valid() && b.piece < d.meta.totalPieces
    ensures Held(Complete(d, b, data).0, b.piece) == Held(d, b.piece) + CountChange(d, b, data)
  {
    var slots := SlotsOf(d, b.piece);
    CountSomeEmpty(d.meta.BlocksIn(b.piece));
    assert Held(d, b.piece) == if d.Finished(b.piece) then d.meta.BlocksIn(b.piece) else CountSome(slots);
    if Index(b) < |slots| {
      var filled := slots[Index(b) := Some(data)];
      CountSomeUpdate(slots, Index(b), data);
      CountSomeFull(slots);
      CountSomeFull(filled);
      assert d.Stored(b) <==> slots[Index(b)].Some?;
    }
  }

  // ---- the file ----

  /** What `write_to_file` leaves on disk. */
  datatype WriteResult = Written(file: bytes) | Missing(piece: nat)

  function WriteFile(d: Download): WriteResult {
    if d.IsComplete() then
      var body := Whole(d.pieces);
      // the file is first extended to its full size
      Written(body + Zeros(if |body| < d.meta.totalSize then d.meta.totalSize - |body| else 0))
    else Missing(FirstMissing(d.pieces, 0))
  }

  function FirstMissing(pieces: Slots, i: nat): (r: nat)
    requires exists j :: i <= j < |pieces| && pieces[j].None?
    ensures i <= r < |pieces| && pieces[r].None? && forall j | i <= j < r :: pieces[j].Some?
    decreases |pieces| - i
  {
    if i < |pieces| && pieces[i].None? then i else FirstMissing(pieces, i + 1)
  }

  lemma {:induction false} WholeOfParts(slots: Slots, parts: seq<bytes>)
    requires |slots| == |parts| && forall i | 0 <= i < |slots| :: slots[i] == Some(parts[i])
    ensures Whole(slots) == Flatten(parts)
  {
    if slots != [] { WholeOfParts(slots[..|slots| - 1], parts[..|parts| - 1]); }
  }

  /** The hash list was made from this file, and no other bytes share those hashes. */
  ghost predicate HashesIdentify(m: Meta, file: bytes)
    requires m.WellFormed()
  {
    && |file| == m.totalSize
    && forall p: nat, x: bytes | p < m.totalPieces :: m.sha1(x) == m.hashes[p] <==> x == m.Chunk(file, p)
  }

  /** A complete download writes out the original file, short last piece included. */
  lemma CompleteDownloadIsTheFile(d: Download, file: bytes)
    requires d.Valid() && HashesIdentify(d.meta, file)
    ensures d.IsComplete() <==> WriteFile(d) == Written(file)
  {
    if d.IsComplete() {
      var m := d.meta;
      forall p | 0 <= p < |d.pieces| ensures d.pieces[p] == Some(Chunks(m, file, m.totalPieces)[p]) {
        assert m.sha1(d.pieces[p].value) == m.hashes[p];
      }
      WholeOfParts(d.pieces, Chunks(m, file, m.totalPieces));
      ChunksRebuildFile(m, file, m.totalPieces);
      PieceBytesPrefix(m, m.totalPieces);
      assert file[..m.totalSize] == file;
    }
  }

  /** Any sequence of deliveries, whatever the data. */
  function Deliver(d: Download, calls: seq<(BlockInfo, bytes)>): (r: Download)
    requires d.Valid()
    ensures r.Valid() && r.meta == d.meta
  {
    if calls == [] then d
    else
      var before := Deliver(d, calls[..|calls| - 1]);
      var (b, data) := calls[|calls| - 1];
      CompleteKeepsValid(before, b, data);
      Complete(before, b, data).0
  }

  lemma FreshIsValid(meta: Meta)
    requires meta.WellFormed()
    ensures Fresh(meta).Valid()
  {
  }

  /** End to end: arbitrary deliveries, and a complete result is the file itself. */
  lemma DeliveriesRebuildFile(meta: Meta, file: bytes, calls: seq<(BlockInfo, bytes)>)
    requires meta.WellFormed() && HashesIdentify(meta, file)
    ensures var d := (FreshIsValid(meta); Deliver(Fresh(meta), calls));
      && (forall p: nat | d.Finished(p) :: d.pieces[p] == Some(meta.Chunk(file, p)))
      && (d.IsComplete() <==> WriteFile(d) == Written(file))
  {
    FreshIsValid(meta);
    CompleteDownloadIsTheFile(Deliver(Fresh(meta), calls), file);
  }
}
