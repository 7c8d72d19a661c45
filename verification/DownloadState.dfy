/** The shared download state, updated in place by the peer workers. */
module DownloadStates {
  import opened Basics
  import opened Geometry
  import opened Downloads
  import opened Bitfields

  // ---- storing a block ----

  /** Storing, by what the block's piece then holds. */
  lemma CompleteByCases(d: Download, b: BlockInfo, data: bytes)
    requires d.meta.WellFormed() && |d.pieces| == d.meta.totalPieces
    ensures var slots := SlotsOf(d, b.piece);
      var d1 := d.(requested := d.requested - {b});
      if Index(b) >= |slots| then
        Complete(d, b, data) == (d1.(blocks := d.blocks[b.piece := slots]), Partial)
      else
        var filled := slots[Index(b) := Some(data)];
        if !AllSome(filled) || b.piece >= |d.meta.hashes| then
          Complete(d, b, data) ==
            (d1.(blocks := d.blocks[b.piece := filled]), if AllSome(filled) then Panicked else Partial)
        else if d.meta.sha1(Whole(filled)) == d.meta.hashes[b.piece] then
          Complete(d, b, data) ==
            (d1.(blocks := d.blocks - {b.piece}, pieces := d.pieces[b.piece := Some(Whole(filled))]), Verified)
        else
          Complete(d, b, data) == (d1.(blocks := d.blocks - {b.piece}), HashMismatch)
  {
    hide AllSome, Whole;
  }

  // ---- announcing the finished pieces ----

  /** A bit for each finished piece among the first n. */
  function PackedPieces(d: Download, n: nat): bytes {
    if n == 0 then Zeros(DivCeil(d.meta.totalPieces, 8))
    else if d.Finished(n - 1) then WithPiece(PackedPieces(d, n - 1), n - 1)
    else PackedPieces(d, n - 1)
  }

  lemma {:induction false} PackedPiecesTell(d: Download, n: nat, i: nat)
    requires n <= d.meta.totalPieces
    ensures |PackedPieces(d, n)| == DivCeil(d.meta.totalPieces, 8)
    ensures HasPieceIn(PackedPieces(d, n), i) <==> i < n && d.Finished(i)
  {
    if n == 0 {
      EmptyHasNoPiece(d.meta.totalPieces, i);
    } else {
      PackedPiecesTell(d, n - 1, i);
      WithPieceChangesOne(PackedPieces(d, n - 1), n - 1, i);
    }
  }

  // ---- counting with loops over the hash map ----

  /** Blocks a tracked piece adds to the count: none once the piece is finished or out of range. */
  function Share(d: Download, p: nat): nat {
    if p < |d.pieces| && d.pieces[p].None? && p in d.blocks then CountSome(d.blocks[p]) else 0
  }

  function FinishedUpTo(d: Download, n: nat): nat
    requires d.meta.WellFormed()
  {
    if n == 0 then 0 else FinishedUpTo(d, n - 1) + (if d.Finished(n - 1) then d.meta.BlocksIn(n - 1) else 0)
  }

  /** The shares of tracked pieces below n. */
  ghost function SharesBelow(d: Download, keys: set<nat>, n: nat): map<nat, int> {
    map p | p in keys :: if p < n then Share(d, p) else 0
  }

  lemma {:induction false} TotalOfZeros(m: map<nat, int>)
    requires forall k | k in m :: m[k] == 0
    ensures Total(m) == 0
    decreases |m|
  {
    if m != map[] {
      var k :| k in m;
      TotalWithout(m, k);
      TotalOfZeros(m - {k});
    }
  }

  lemma HeldSplit(d: Download, p: nat)
    requires d.meta.WellFormed()
    ensures Held(d, p) == (if d.Finished(p) then d.meta.BlocksIn(p) else 0) + Share(d, p)
  {
  }

  lemma SharesStep(d: Download, keys: set<nat>, n: nat)
    requires n !in keys ==> Share(d, n) == 0
    ensures Total(SharesBelow(d, keys, n + 1)) == Total(SharesBelow(d, keys, n)) + Share(d, n)
  {
    var m := SharesBelow(d, keys, n);
    if n in keys {
      TotalUpdate(m, n, Share(d, n));
      assert SharesBelow(d, keys, n + 1) == m[n := Share(d, n)];
    } else {
      assert SharesBelow(d, keys, n + 1) == m;
    }
  }

  lemma SharesWithout(d: Download, keys: set<nat>, p: nat)
    requires p in keys
    ensures Total(SharesBelow(d, keys, |d.pieces|)) == Share(d, p) + Total(SharesBelow(d, keys - {p}, |d.pieces|))
  {
    var m := SharesBelow(d, keys, |d.pieces|);
    TotalWithout(m, p);
    assert m - {p} == SharesBelow(d, keys - {p}, |d.pieces|);
  }

  lemma {:induction false} HeldSplits(d: Download, n: nat)
    requires d.meta.WellFormed()
    ensures HeldUpTo(d, n) == FinishedUpTo(d, n) + Total(SharesBelow(d, d.blocks.Keys, n))
  {
    if n == 0 {
      TotalOfZeros(SharesBelow(d, d.blocks.Keys, 0));
    } else {
      HeldSplits(d, n - 1);
      SharesStep(d, d.blocks.Keys, n - 1);
      HeldSplit(d, n - 1);
    }
  }

  // ---- the class ----

  class DownloadState {
    const meta: Meta
    var pieces: Slots
    var pieceBlocks: map<nat, Slots>
    var requestedBlocks: set<BlockInfo>
    var uploaded: nat

    function Value(): Download
      reads this
    {
      Download(meta, pieces, pieceBlocks, requestedBlocks, uploaded)
    }

    ghost predicate Valid()
      reads this
    {
      Value().Valid()
    }

    constructor (meta: Meta)
      requires meta.WellFormed()
      ensures Valid() && Value() == Fresh(meta)
    {
      this.meta := meta;
      pieces := Repeat(meta.totalPieces, None);
      pieceBlocks := map[];
      requestedBlocks := {};
      uploaded := 0;
    }

    /** The first block of a piece that is neither requested nor already here. */
    method FindNextBlockInPiece(p: nat) returns (r: Option<BlockInfo>)
      requires Valid()
      ensures r == FindNext(Value(), p, 0)
    {
      var n := meta.BlocksIn(p);
      var k := 0;
      while k < n
        invariant k <= n
        invariant FindNext(Value(), p, 0) == FindNext(Value(), p, k)
      {
        var block := meta.Tile(p, k);
        if block !in requestedBlocks {
          var held := false;
          if p in pieceBlocks {
            var index := block.offset / PIECE_BLOCK_SIZE;
            held := index < |pieceBlocks[p]| && pieceBlocks[p][index].Some?;
          }
          if !held { return Some(block); }
        }
        k := k + 1;
      }
      return None;
    }

    /** The first eligible block, scanning pieces from `start` and wrapping around. */
    method PickBlock(has: seq<bool>, start: nat) returns (r: Option<BlockInfo>)
      requires Valid()
      ensures r == Pick(Value(), has, start)
      ensures IsFirstEligible(Value(), has, start, r)
    {
      PickIsFirstEligible(Value(), has, start);
      var total := |pieces|;
      var i := 0;
      while i < total
        invariant i <= total
        invariant Pick(Value(), has, start) == PickFrom(Value(), has, start, i)
      {
        var p := (start + i) % total;
        if pieces[p].None? && p < |has| && has[p] {
          r := FindNextBlockInPiece(p);
          if r.Some? { return; }
        }
        i := i + 1;
      }
      return None;
    }

    method MarkBlockRequested(b: BlockInfo)
      requires Valid()
      modifies this`requestedBlocks
      ensures Valid()
      ensures Value() == old(Value()).(requested := old(requestedBlocks) + {b})
    {
      requestedBlocks := requestedBlocks + {b};
    }

    method ReleaseBlock(b: BlockInfo)
      requires Valid()
      modifies this`requestedBlocks
      ensures Valid()
      ensures Value() == old(Value()).(requested := old(requestedBlocks) - {b})
    {
      requestedBlocks := requestedBlocks - {b};
    }

    /** Join a piece's blocks. */
    method Combine(slots: Slots) returns (whole: bytes)
      ensures whole == Whole(slots)
    {
      whole := [];
      for i := 0 to |slots|
        invariant whole == Whole(slots[..i])
      {
        assert slots[..i + 1][..i] == slots[..i];
        if slots[i].Some? { whole := whole + slots[i].value; }
      }
      assert slots[..|slots|] == slots;
    }

    /** Store a block, and keep or discard its piece once all blocks are here. */
    method CompleteBlock(b: BlockInfo, data: bytes) returns (outcome: Outcome)
      requires Valid()
      modifies this
      ensures Valid()
      ensures (Value(), outcome) == Complete(old(Value()), b, data)
    {
      CompleteKeepsValid(Value(), b, data);
      CompleteByCases(Value(), b, data);
      hide Complete, Whole, StorePanics, FillsLast, Download.Valid, Meta.WellFormed, Meta.BlocksIn, AllSome;
      requestedBlocks := requestedBlocks - {b};
      if b.piece !in pieceBlocks {
        pieceBlocks := pieceBlocks[b.piece := Repeat(meta.BlocksIn(b.piece), None)];
      }
      assert pieceBlocks == old(pieceBlocks)[b.piece := SlotsOf(old(Value()), b.piece)];
      hide SlotsOf, Repeat;
      var index := b.offset / PIECE_BLOCK_SIZE;
      if index < |pieceBlocks[b.piece]| {
        pieceBlocks := pieceBlocks[b.piece := pieceBlocks[b.piece][index := Some(data)]];
        assert pieceBlocks == old(pieceBlocks)[b.piece := SlotsOf(old(Value()), b.piece)[index := Some(data)]];
        if AllSome(pieceBlocks[b.piece]) {
          ghost var tracked := pieceBlocks;
          outcome := CheckPiece(b.piece);
          assert tracked - {b.piece} == old(pieceBlocks) - {b.piece};
          return;
        }
      }
      return Partial;
    }

    /** Hash a piece whose blocks are all here, and keep or discard it. */
    method CheckPiece(p: nat) returns (outcome: Outcome)
      requires meta.WellFormed() && |pieces| == meta.totalPieces
      requires p in pieceBlocks
      modifies this`pieces, this`pieceBlocks
      ensures var whole := Whole(old(pieceBlocks)[p]);
        if p >= |meta.hashes| then
          outcome == Panicked && pieces == old(pieces) && pieceBlocks == old(pieceBlocks)
        else if meta.sha1(whole) == meta.hashes[p] then
          outcome == Verified && pieces == old(pieces)[p := Some(whole)] && pieceBlocks == old(pieceBlocks) - {p}
        else
          outcome == HashMismatch && pieces == old(pieces) && pieceBlocks == old(pieceBlocks) - {p}
    {
      var whole := Combine(pieceBlocks[p]);
      var computed := meta.sha1(whole);
      if p >= |meta.hashes| { return Panicked; }
      if computed == meta.hashes[p] {
        pieces := pieces[p := Some(whole)];
        pieceBlocks := pieceBlocks - {p};
        return Verified;
      }
      pieceBlocks := pieceBlocks - {p};
      return HashMismatch;
    }

    method TotalBlocks() returns (n: nat)
      requires Valid()
      ensures n == meta.TotalBlocks()
      ensures CompletedBlocks(Value()) <= n
    {
      AccountingMeetsTotalIffComplete(Value());
      n := 0;
      for i := 0 to meta.totalPieces
        invariant n == BlocksUpTo(meta, i)
      {
        n := n + meta.BlocksIn(i);
      }
    }

    /** Blocks held in finished pieces and in tracked ones. */
    method CountCompleted() returns (completed: nat)
      requires Valid()
      ensures completed == CompletedBlocks(Value())
      ensures completed == meta.TotalBlocks() <==> Value().IsComplete()
    {
      completed := 0;
      for i := 0 to |pieces|
        invariant completed == FinishedUpTo(Value(), i)
      {
        if pieces[i].Some? { completed := completed + meta.BlocksIn(i); }
      }
      var partial := CountPartial();
      completed := completed + partial;
      HeldSplits(Value(), meta.totalPieces);
      AccountingMeetsTotalIffComplete(Value());
    }

    /** Blocks held in tracked pieces, visited in any order. */
    method CountPartial() returns (n: nat)
      requires |pieces| == meta.totalPieces
      ensures n == Total(SharesBelow(Value(), pieceBlocks.Keys, |pieces|))
    {
      ghost var d := Value();
      var rest := pieceBlocks.Keys;
      n := 0;
      while rest != {}
        invariant rest <= pieceBlocks.Keys
        invariant n + Total(SharesBelow(d, rest, |pieces|)) == Total(SharesBelow(d, pieceBlocks.Keys, |pieces|))
        decreases |rest|
      {
        var p :| p in rest;
        SharesWithout(d, rest, p);
        if p < |pieces| && pieces[p].None? {
          var filled := CountFilled(pieceBlocks[p]);
          n := n + filled;
        }
        rest := rest - {p};
      }
    }

    method CountFilled(slots: Slots) returns (n: nat)
      ensures n == CountSome(slots)
    {
      n := 0;
      for i := 0 to |slots|
        invariant n == CountSome(slots[..i])
      {
        assert slots[..i + 1][..i] == slots[..i];
        if slots[i].Some? { n := n + 1; }
      }
      assert slots[..|slots|] == slots;
    }

    /** Which pieces we can serve; every spare bit is zero. */
    method BuildBitfield() returns (field: Bitfield)
      requires Valid()
      ensures fresh(field) && field.bits == PackedPieces(Value(), meta.totalPieces)
      ensures forall i: nat :: field.HasPiece(i) <==> Value().Finished(i)
    {
      field := new Bitfield.FromPieceCount(meta.totalPieces);
      for i := 0 to |pieces|
        invariant field.bits == PackedPieces(Value(), i)
      {
        if pieces[i].Some? { field.SetPiece(i); }
      }
      forall i: nat ensures field.HasPiece(i) <==> Value().Finished(i) {
        PackedPiecesTell(Value(), meta.totalPieces, i);
      }
    }

    /** A block of a finished piece, if the range lies inside it. */
    function GetPieceBlock(p: nat, begin: nat, length: nat): (r: Option<bytes>)
      reads this
      requires Valid()
      ensures r == Served(Value(), p, begin, length)
      ensures r.Some? <==> Value().Finished(p) && begin + length <= |pieces[p].value|
      ensures r.Some? ==> |r.value| == length && Value().Finished(p) && r.value <= pieces[p].value[begin..]
    {
      Served(Value(), p, begin, length)
    }

    method RecordUpload(n: nat)
      requires Valid()
      modifies this`uploaded
      ensures Valid() && Value() == old(Value()).(uploaded := old(uploaded) + n)
    {
      uploaded := uploaded + n;
    }

    method WriteToFile() returns (r: WriteResult)
      requires Valid()
      ensures r == WriteFile(Value())
      ensures r.Missing? ==>
        r.piece < |pieces| && pieces[r.piece].None? && forall j | 0 <= j < r.piece :: pieces[j].Some?
      ensures r.Written? ==>
        && (forall j | 0 <= j < |pieces| :: pieces[j].Some?) && Whole(pieces) <= r.file
        && |r.file| == (if |Whole(pieces)| < meta.totalSize then meta.totalSize else |Whole(pieces)|)
        && forall j | |Whole(pieces)| <= j < |r.file| :: r.file[j] == 0
    {
      var written := [];
      for i := 0 to |pieces|
        invariant forall j | 0 <= j < i :: pieces[j].Some?
        invariant written == Whole(pieces[..i])
      {
        if pieces[i].None? {
          return Missing(i);
        }
        assert pieces[..i + 1][..i] == pieces[..i];
        written := written + pieces[i].value;
      }
      assert pieces[..|pieces|] == pieces;
      var gap := if |written| < meta.totalSize then meta.totalSize - |written| else 0;
      return Written(written + Zeros(gap));
    }
  }
}
