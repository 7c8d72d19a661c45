/**
 * A piece on its way from one peer to another: requested block by block over
 * the wire, served from a finished piece, and rebuilt in any order.
 */
module Transfer {
  import opened Basics
  import opened Geometry
  import opened Downloads
  import opened DownloadStates
  import opened Bitfields
  import opened Wire
  import opened Pools
  import opened Connections
  import S = Sections

  /** The bytes of the k-th block of a piece. */
  function Cut(m: Meta, p: nat, piece: bytes, k: nat): bytes
    requires m.WellFormed() && p < m.totalPieces && |piece| == m.PieceLen(p) && k < m.BlocksIn(p)
  {
    TileBounds(m, p, k);
    piece[k * PIECE_BLOCK_SIZE..k * PIECE_BLOCK_SIZE + m.Tile(p, k).length]
  }

  // ---- from requests on the wire to blocks received ----

  /** Everything sent to a peer while its upload queue is flushed, a few requests at a time. */
  function Drained(s: S.Shared, a: Addr): seq<Message>
    decreases if a in s.conns then |s.conns[a].uploads| else 0
  {
    if a !in s.conns || s.conns[a].uploads == [] then []
    else
      var (s', requests) := S.TakeUploads(s, a);
      S.Answers(s.dl, requests, |requests|).0 + Drained(s', a)
  }

  const PEER := Addr(0, 0)

  /** A client that holds d and has this one connection. */
  function Serving(d: Download, c: Conn, host: Host): S.Shared {
    S.Shared(d, map[PEER := c], S.Stats(0, 0, 0, 0), host)
  }

  function Carried(ms: seq<Message>): seq<Frame> { seq(|ms|, i requires 0 <= i < |ms| => Carrying(ms[i])) }

  /** The blocks in a list of messages; anything unreadable carries none. */
  function Blocks(ms: seq<Message>): seq<(BlockInfo, bytes)> {
    if ms == [] then []
    else
      var block := ParsePiece(ms[|ms| - 1].payload);
      Blocks(ms[..|ms| - 1]) + (if ms[|ms| - 1].kind == Piece && block.Some? then [block.value] else [])
  }

  /** What comes back when these bytes reach a peer holding d. */
  function Arrivals(d: Download, c: Conn, wire: bytes, host: Host): seq<(BlockInfo, bytes)>
    requires forall i | 0 <= i < |ReadAll(wire).0| :: ReadAll(wire).0[i].kind != Piece
  {
    var s := Serving(d, ProcessAll(c, ReadAll(wire).0, host), host);
    Blocks(ReadAll(EncodeFrames(Carried(Drained(s, PEER)))).0)
  }

  function Asked(b: BlockInfo): PieceRequest { PieceRequest(b.piece, b.offset, b.length) }

  function AskedFor(bs: seq<BlockInfo>): seq<PieceRequest> { seq(|bs|, i requires 0 <= i < |bs| => Asked(bs[i])) }

  function RequestsFor(bs: seq<BlockInfo>): seq<Message> {
    seq(|bs|, i requires 0 <= i < |bs| => RequestMessage(bs[i]))
  }

  /** A tile of a piece d has finished, at full length. */
  predicate Available(d: Download, b: BlockInfo)
    requires d.meta.WellFormed()
  {
    && d.meta.IsTile(b) && d.Finished(b.piece)
    && |d.pieces[b.piece].value| == d.meta.PieceLen(b.piece)
  }

  function DataOf(d: Download, b: BlockInfo): bytes
    requires d.meta.WellFormed() && Available(d, b)
  {
    Cut(d.meta, b.piece, d.pieces[b.piece].value, Index(b))
  }

  /** A tile fits the wire and the upload limit, and is served exactly. */
  lemma TileIsServed(d: Download, b: BlockInfo)
    requires d.meta.WellFormed() && Available(d, b)
    ensures FitsWire(b) && b.length <= MAX_UPLOAD_LENGTH
    ensures Served(d, b.piece, b.offset, b.length) == Some(DataOf(d, b))
    ensures |DataOf(d, b)| == b.length
  {
    TileBounds(d.meta, b.piece, Index(b));
    PieceInFile(d.meta, b.piece);
  }

  lemma {:induction false} RequestsQueue(d: Download, c: Conn, bs: seq<BlockInfo>, host: Host)
    requires d.meta.WellFormed() && forall i | 0 <= i < |bs| :: Available(d, bs[i])
    requires !c.amChoking && |c.uploads| + |bs| <= MAX_UPLOAD_QUEUE_DEPTH
    ensures ProcessAll(c, RequestsFor(bs), host) == c.(uploads := c.uploads + AskedFor(bs))
  {
    if bs == [] {
      assert c.uploads + AskedFor(bs) == c.uploads;
    } else {
      var last := |bs| - 1;
      RequestsQueue(d, c, bs[..last], host);
      assert RequestsFor(bs)[..last] == RequestsFor(bs[..last]);
      assert AskedFor(bs) == AskedFor(bs[..last]) + [Asked(bs[last])];
      assert |c.uploads + AskedFor(bs[..last])| < MAX_UPLOAD_QUEUE_DEPTH;
      QueueOne(d, c.(uploads := c.uploads + AskedFor(bs[..last])), bs[last], host);
      Associates(c.uploads, AskedFor(bs[..last]), [Asked(bs[last])]);
      hide AskedFor, Available, Meta.WellFormed, Process;
    }
  }

  lemma QueueOne(d: Download, c: Conn, b: BlockInfo, host: Host)
    requires d.meta.WellFormed() && Available(d, b)
    requires !c.amChoking && |c.uploads| < MAX_UPLOAD_QUEUE_DEPTH
    ensures Process(c, RequestMessage(b), host) == (c.(uploads := c.uploads + [Asked(b)]), false)
  {
    TileIsServed(d, b);
    RequestRoundTripIff(b);
    hide ParseRequest, Available, Meta.WellFormed;
  }

  lemma Associates<T>(a: seq<T>, b: seq<T>, c: seq<T>)
    ensures a + b + c == a + (b + c)
  {
  }

  function ReplyTo(d: Download, b: BlockInfo): Message
    requires d.meta.WellFormed() && Available(d, b)
  {
    PieceMessage(b.piece, b.offset, DataOf(d, b))
  }

  function Replies(d: Download, bs: seq<BlockInfo>): seq<Message>
    requires d.meta.WellFormed() && forall i | 0 <= i < |bs| :: Available(d, bs[i])
  {
    seq(|bs|, i requires 0 <= i < |bs| => ReplyTo(d, bs[i]))
  }

  lemma {:induction false} AnswersAreReplies(d: Download, bs: seq<BlockInfo>, writes: nat)
    requires d.meta.WellFormed() && forall i | 0 <= i < |bs| :: Available(d, bs[i])
    requires |bs| <= writes
    ensures S.Answers(d, AskedFor(bs), writes).0 == Replies(d, bs)
    ensures S.Answers(d, AskedFor(bs), writes).2
  {
    if bs != [] {
      var last := |bs| - 1;
      AnswersAreReplies(d, bs[..last], writes);
      assert AskedFor(bs)[..last] == AskedFor(bs[..last]);
      assert Replies(d, bs) == Replies(d, bs[..last]) + [ReplyTo(d, bs[last])];
      TileIsServed(d, bs[last]);
    }
  }

  /** Flushing a queue of available blocks sends every one of them, in order. */
  lemma {:induction false} DrainedAreReplies(s: S.Shared, a: Addr, bs: seq<BlockInfo>)
    requires s.dl.meta.WellFormed() && forall i | 0 <= i < |bs| :: Available(s.dl, bs[i])
    requires a in s.conns && s.conns[a].uploads == AskedFor(bs)
    ensures Drained(s, a) == Replies(s.dl, bs)
    decreases |bs|
  {
    if bs != [] {
      var n := Min(S.UPLOADS_PER_FLUSH, |bs|);
      SplitAt(s.dl, bs, n);
      assert |AskedFor(bs)| == |bs|;
      hide Available, Replies, AskedFor, S.Answers, Meta.WellFormed;
      AnswersAreReplies(s.dl, bs[..n], n);
      DrainedAreReplies(S.TakeUploads(s, a).0, a, bs[n..]);
    } else {
      assert AskedFor(bs) == [];
    }
  }

  lemma SplitAt(d: Download, bs: seq<BlockInfo>, n: nat)
    requires d.meta.WellFormed() && (forall i | 0 <= i < |bs| :: Available(d, bs[i])) && n <= |bs|
    ensures AskedFor(bs)[..n] == AskedFor(bs[..n]) && AskedFor(bs)[n..] == AskedFor(bs[n..])
    ensures Replies(d, bs) == Replies(d, bs[..n]) + Replies(d, bs[n..])
  {
    hide Available, ReplyTo, Meta.WellFormed;
  }

  lemma {:induction false} CarriedMessages(ms: seq<Message>)
    ensures Messages(Carried(ms)) == ms
  {
    if ms != [] {
      CarriedMessages(ms[1..]);
      assert Carried(ms)[1..] == Carried(ms[1..]);
    }
  }

  /** The blocks asked for, with their bytes. */
  function Fetched(d: Download, bs: seq<BlockInfo>): seq<(BlockInfo, bytes)>
    requires d.meta.WellFormed() && forall i | 0 <= i < |bs| :: Available(d, bs[i])
  {
    seq(|bs|, i requires 0 <= i < |bs| => (bs[i], DataOf(d, bs[i])))
  }

  lemma RepliesFit(d: Download, bs: seq<BlockInfo>)
    requires d.meta.WellFormed() && forall i | 0 <= i < |bs| :: Available(d, bs[i])
    ensures AllFit(Carried(Replies(d, bs)))
  {
    forall i | 0 <= i < |bs| ensures Fits(Replies(d, bs)[i]) { ReplyCarriesBlock(d, bs[i]); }
  }

  lemma BlocksSnoc(ms: seq<Message>, m: Message)
    requires m.kind == Piece && ParsePiece(m.payload).Some?
    ensures Blocks(ms + [m]) == Blocks(ms) + [ParsePiece(m.payload).value]
  {
    assert (ms + [m])[..|ms|] == ms;
  }

  lemma ReplyCarriesBlock(d: Download, b: BlockInfo)
    requires d.meta.WellFormed() && Available(d, b)
    ensures var m := ReplyTo(d, b);
      m.kind == Piece && Fits(m) && ParsePiece(m.payload) == Some((b, DataOf(d, b)))
  {
    TileIsServed(d, b);
    PieceRoundTrip(b.piece, b.offset, DataOf(d, b));
  }

  lemma RepliesSnoc(d: Download, bs: seq<BlockInfo>)
    requires d.meta.WellFormed() && forall i | 0 <= i < |bs| :: Available(d, bs[i])
    requires bs != []
    ensures var (init, last) := (bs[..|bs| - 1], bs[|bs| - 1]);
      && Replies(d, bs) == Replies(d, init) + [ReplyTo(d, last)]
      && Fetched(d, bs) == Fetched(d, init) + [(last, DataOf(d, last))]
  {
    hide Available, DataOf, ReplyTo;
  }

  lemma {:induction false} RepliesCarryBlocks(d: Download, bs: seq<BlockInfo>)
    requires d.meta.WellFormed() && forall i | 0 <= i < |bs| :: Available(d, bs[i])
    ensures Blocks(Replies(d, bs)) == Fetched(d, bs)
  {
    if bs != [] {
      var last := |bs| - 1;
      RepliesSnoc(d, bs);
      ReplyCarriesBlock(d, bs[last]);
      RepliesCarryBlocks(d, bs[..last]);
      hide *;
      BlocksSnoc(Replies(d, bs[..last]), ReplyTo(d, bs[last]));
    }
  }

  /** A pipeline of requests for finished blocks, with keep-alives anywhere between them. */
  predicate Asks(d: Download, c: Conn, frames: seq<Frame>, bs: seq<BlockInfo>)
    requires d.meta.WellFormed()
  {
    && !c.amChoking && c.uploads == [] && |bs| <= MAX_UPLOAD_QUEUE_DEPTH
    && (forall i | 0 <= i < |bs| :: Available(d, bs[i]))
    && Messages(frames) == RequestsFor(bs)
  }

  lemma {:induction false} FramesFit(frames: seq<Frame>)
    requires forall i | 0 <= i < |Messages(frames)| :: Fits(Messages(frames)[i])
    ensures AllFit(frames)
  {
    if frames != [] {
      var head, tail := FrameMessages(frames[0]), Messages(frames[1..]);
      forall i | 0 <= i < |tail| ensures Fits(tail[i]) { assert Messages(frames)[|head| + i] == tail[i]; }
      if frames[0].Carrying? { assert Messages(frames)[0] == frames[0].m; }
      FramesFit(frames[1..]);
      forall i | 0 <= i < |frames| && frames[i].Carrying? ensures Fits(frames[i].m) {
        if i > 0 { assert frames[i] == frames[1..][i - 1]; }
      }
    }
  }

  lemma RequestsArrive(d: Download, c: Conn, frames: seq<Frame>, bs: seq<BlockInfo>)
    requires d.meta.WellFormed() && Asks(d, c, frames, bs)
    ensures ReadAll(EncodeFrames(frames)).0 == RequestsFor(bs)
  {
    FramesFit(frames);
    StreamRoundTrip(frames);
  }

  /**
   * Requests for finished blocks, sent over the wire and answered over the
   * wire, bring back exactly those blocks with exactly their bytes.
   */
  lemma RequestedBlocksArrive(d: Download, c: Conn, frames: seq<Frame>, bs: seq<BlockInfo>, host: Host)
    requires d.meta.WellFormed() && Asks(d, c, frames, bs)
    ensures ReadAll(EncodeFrames(frames)).0 == RequestsFor(bs)
    ensures Arrivals(d, c, EncodeFrames(frames), host) == Fetched(d, bs)
  {
    RequestsArrive(d, c, frames, bs);
    RequestsQueue(d, c, bs, host);
    assert c.uploads + AskedFor(bs) == AskedFor(bs);
    var s := Serving(d, c.(uploads := AskedFor(bs)), host);
    DrainedAreReplies(s, PEER, bs);
    RepliesCarryBlocks(d, bs);
    RepliesFit(d, bs);
    CarriedMessages(Replies(d, bs));
    StreamRoundTrip(Carried(Replies(d, bs)));
  }

  // ---- rebuilding a piece ----

  function Cuts(m: Meta, p: nat, piece: bytes, n: nat): (parts: seq<bytes>)
    requires m.WellFormed() && p < m.totalPieces && |piece| == m.PieceLen(p) && n <= m.BlocksIn(p)
    ensures |parts| == n && forall k: nat | k < n :: parts[k] == Cut(m, p, piece, k)
  {
    if n == 0 then [] else Cuts(m, p, piece, n - 1) + [Cut(m, p, piece, n - 1)]
  }

  lemma CutExtendsPrefix(m: Meta, p: nat, piece: bytes, k: nat)
    requires m.WellFormed() && p < m.totalPieces && |piece| == m.PieceLen(p) && k < m.BlocksIn(p)
    ensures var (lo, hi) := (Min(k * PIECE_BLOCK_SIZE, |piece|), Min((k + 1) * PIECE_BLOCK_SIZE, |piece|));
      piece[..lo] + Cut(m, p, piece, k) == piece[..hi]
  {
    TileBounds(m, p, k);
    var (lo, hi) := (k * PIECE_BLOCK_SIZE, k * PIECE_BLOCK_SIZE + m.Tile(p, k).length);
    assert Min(k * PIECE_BLOCK_SIZE, |piece|) == lo && Min((k + 1) * PIECE_BLOCK_SIZE, |piece|) == hi;
    hide Meta.WellFormed, Meta.PieceLen, Meta.BlocksIn, Meta.Tile;
  }

  lemma {:induction false} CutsRebuildPiece(m: Meta, p: nat, piece: bytes, n: nat)
    requires m.WellFormed() && p < m.totalPieces && |piece| == m.PieceLen(p) && n <= m.BlocksIn(p)
    ensures Flatten(Cuts(m, p, piece, n)) == piece[..Min(n * PIECE_BLOCK_SIZE, |piece|)]
  {
    hide Meta.WellFormed, Meta.PieceLen, Meta.BlocksIn, Meta.Tile, Cut;
    if n > 0 {
      CutsRebuildPiece(m, p, piece, n - 1);
      CutExtendsPrefix(m, p, piece, n - 1);
      FlattenSnoc(Cuts(m, p, piece, n - 1), Cut(m, p, piece, n - 1));
    }
  }

  /** A call that stores a true block of the piece, as its tiling names it. */
  predicate Genuine(m: Meta, p: nat, piece: bytes, call: (BlockInfo, bytes))
    requires m.WellFormed() && p < m.totalPieces && |piece| == m.PieceLen(p)
  {
    m.IsTile(call.0) && call.0.piece == p && call.1 == Cut(m, p, piece, Index(call.0))
  }

  /** The piece is missing or right, and every slot of it is empty or right. */
  predicate Faithful(d: Download, p: nat, piece: bytes)
    requires d.meta.WellFormed() && |d.pieces| == d.meta.totalPieces
    requires p < d.meta.totalPieces && |piece| == d.meta.PieceLen(p)
  {
    && (d.pieces[p].Some? ==> d.pieces[p].value == piece)
    && var slots := SlotsOf(d, p);
       && |slots| == d.meta.BlocksIn(p)
       && forall k: nat | k < |slots| && slots[k].Some? :: slots[k].value == Cut(d.meta, p, piece, k)
  }

  /** The piece is finished once every block has come, and before that holds those that have. */
  predicate Reflects(d: Download, p: nat, got: set<nat>)
    requires d.meta.WellFormed() && |d.pieces| == d.meta.totalPieces && p < d.meta.totalPieces
  {
    && (d.pieces[p].Some? <==> Full(d.meta, p, got))
    && (d.pieces[p].None? ==>
          var slots := SlotsOf(d, p);
          forall k: nat | k < |slots| :: slots[k].Some? <==> k in got)
  }

  predicate Full(m: Meta, p: nat, got: set<nat>)
    requires m.WellFormed()
  {
    forall k: nat | k < m.BlocksIn(p) :: k in got
  }

  lemma FullSlotsAreThePiece(m: Meta, p: nat, piece: bytes, slots: Slots)
    requires m.WellFormed() && p < m.totalPieces && |piece| == m.PieceLen(p)
    requires |slots| == m.BlocksIn(p)
    requires forall k: nat | k < |slots| :: slots[k] == Some(Cut(m, p, piece, k))
    ensures Whole(slots) == piece
  {
    var n := m.BlocksIn(p);
    WholeOfParts(slots, Cuts(m, p, piece, n));
    CutsRebuildPiece(m, p, piece, n);
    assert Min(n * PIECE_BLOCK_SIZE, |piece|) == |piece|;
    hide *;
    assert piece[..|piece|] == piece;
  }

  /** One true block: the call verifies the piece exactly when it was the last one missing. */
  lemma GenuineStep(d: Download, p: nat, piece: bytes, got: set<nat>, call: (BlockInfo, bytes))
    requires d.Valid() && p < d.meta.totalPieces && |piece| == d.meta.PieceLen(p)
    requires d.meta.sha1(piece) == d.meta.hashes[p]
    requires Faithful(d, p, piece) && Reflects(d, p, got) && Genuine(d.meta, p, piece, call)
    ensures var (d', outcome) := Complete(d, call.0, call.1);
      && d'.Valid() && d'.meta == d.meta
      && Faithful(d', p, piece) && Reflects(d', p, got + {Index(call.0)})
      && (!Full(d.meta, p, got) ==>
            outcome == if Full(d.meta, p, got + {Index(call.0)}) then Verified else Partial)
  {
    var (b, data) := call;
    CompleteKeepsValid(d, b, data);
    SlotsLeaveRoom(d, p);
    var slots := SlotsOf(d, p);
    var filled := slots[Index(b) := Some(data)];
    var got' := got + {Index(b)};
    if AllSome(filled) {
      FullSlotsAreThePiece(d.meta, p, piece, filled);
      if d.pieces[p].None? {
        forall k: nat | k < d.meta.BlocksIn(p) ensures k in got' { assert filled[k].Some?; }
      }
    } else if d.pieces[p].None? {
      var k :| 0 <= k < |filled| && filled[k].None?;
      assert k !in got';
    }
  }

  /** The blocks of piece p among a list of calls, by position. */
  function BlocksGot(calls: seq<(BlockInfo, bytes)>, p: nat): set<nat> {
    set i | 0 <= i < |calls| && calls[i].0.piece == p :: Index(calls[i].0)
  }

  predicate AllGenuine(m: Meta, p: nat, piece: bytes, calls: seq<(BlockInfo, bytes)>)
    requires m.WellFormed() && p < m.totalPieces && |piece| == m.PieceLen(p)
  {
    forall i | 0 <= i < |calls| && calls[i].0.piece == p :: Genuine(m, p, piece, calls[i])
  }

  lemma OtherPieceStep(d: Download, p: nat, piece: bytes, got: set<nat>, call: (BlockInfo, bytes))
    requires d.Valid() && p < d.meta.totalPieces && |piece| == d.meta.PieceLen(p)
    requires Faithful(d, p, piece) && Reflects(d, p, got) && call.0.piece != p
    ensures var d' := Complete(d, call.0, call.1).0;
      d'.Valid() && d'.meta == d.meta && Faithful(d', p, piece) && Reflects(d', p, got)
  {
    CompleteKeepsValid(d, call.0, call.1);
    CompleteTouchesOnePiece(d, call.0, call.1, p);
  }

  lemma GotOneMore(calls: seq<(BlockInfo, bytes)>, p: nat)
    requires calls != []
    ensures var last := calls[|calls| - 1];
      BlocksGot(calls, p) == BlocksGot(calls[..|calls| - 1], p) + (if last.0.piece == p then {Index(last.0)} else {})
  {
    var init, n := calls[..|calls| - 1], |calls| - 1;
    forall k | k in BlocksGot(calls, p)
      ensures k in BlocksGot(init, p) || (calls[n].0.piece == p && k == Index(calls[n].0))
    {
      var i :| 0 <= i < |calls| && calls[i].0.piece == p && k == Index(calls[i].0);
      if i < n { assert init[i] == calls[i]; }
    }
    forall k | k in BlocksGot(init, p) ensures k in BlocksGot(calls, p) {
      var i :| 0 <= i < |init| && init[i].0.piece == p && k == Index(init[i].0);
      assert calls[i] == init[i];
    }
  }

  lemma {:induction false} DeliveryKeepsFaith(d: Download, p: nat, piece: bytes, had: set<nat>,
                                              calls: seq<(BlockInfo, bytes)>)
    requires d.Valid() && p < d.meta.totalPieces && |piece| == d.meta.PieceLen(p)
    requires d.meta.sha1(piece) == d.meta.hashes[p]
    requires Faithful(d, p, piece) && Reflects(d, p, had) && AllGenuine(d.meta, p, piece, calls)
    ensures Faithful(Deliver(d, calls), p, piece) && Reflects(Deliver(d, calls), p, had + BlocksGot(calls, p))
  {
    if calls == [] {
      assert had + BlocksGot(calls, p) == had;
    } else {
      var init, last := calls[..|calls| - 1], calls[|calls| - 1];
      DeliveryKeepsFaith(d, p, piece, had, init);
      GotOneMore(calls, p);
      var got := had + BlocksGot(init, p);
      hide Faithful, Reflects, Genuine, Download.Valid, Complete, BlocksGot;
      if last.0.piece == p {
        GenuineStep(Deliver(d, init), p, piece, got, last);
        assert had + BlocksGot(calls, p) == got + {Index(last.0)};
      } else {
        OtherPieceStep(Deliver(d, init), p, piece, got, last);
        assert had + BlocksGot(calls, p) == got;
      }
    }
  }

  /**
   * True blocks of a piece may come in any order, repeated, and mixed with any
   * calls for other pieces, when some are stored already: the piece is kept, byte
   * for byte, once each of its blocks has come, and not before. The call that
   * brings the last of them reports it verified; those before it report no more
   * than progress.
   */
  lemma TransferInAnyOrder(d: Download, p: nat, piece: bytes, had: set<nat>, calls: seq<(BlockInfo, bytes)>,
                           next: (BlockInfo, bytes))
    requires d.Valid() && p < d.meta.totalPieces && |piece| == d.meta.PieceLen(p)
    requires d.meta.sha1(piece) == d.meta.hashes[p]
    requires Faithful(d, p, piece) && Reflects(d, p, had) && AllGenuine(d.meta, p, piece, calls)
    ensures Deliver(d, calls).pieces[p] == if Full(d.meta, p, had + BlocksGot(calls, p)) then Some(piece) else None
    ensures Genuine(d.meta, p, piece, next) && !Full(d.meta, p, had + BlocksGot(calls, p)) ==>
      Complete(Deliver(d, calls), next.0, next.1).1
        == if Full(d.meta, p, had + BlocksGot(calls + [next], p)) then Verified else Partial
  {
    DeliveryKeepsFaith(d, p, piece, had, calls);
    if Genuine(d.meta, p, piece, next) {
      var got := had + BlocksGot(calls, p);
      GenuineStep(Deliver(d, calls), p, piece, got, next);
      GotOneMore(calls + [next], p);
      assert (calls + [next])[..|calls|] == calls;
      assert had + BlocksGot(calls + [next], p) == got + {Index(next.0)};
    }
    hide Genuine, Complete, BlocksGot, Full, Download.Valid;
  }

  function FilledAt(slots: Slots): set<nat> { set k: nat | k < |slots| && slots[k].Some? }

  /** A missing piece whose stored blocks are true is such a start: it has what is stored. */
  lemma StoredSoFar(d: Download, p: nat, piece: bytes)
    requires d.Valid() && p < d.meta.totalPieces && |piece| == d.meta.PieceLen(p) && d.pieces[p].None?
    requires Faithful(d, p, piece)
    ensures Reflects(d, p, FilledAt(SlotsOf(d, p)))
  {
    SlotsLeaveRoom(d, p);
    var slots := SlotsOf(d, p);
    var k: nat :| k < |slots| && slots[k].None?;
    assert k < d.meta.BlocksIn(p) && k !in FilledAt(slots);
    hide Faithful, Download.Valid, SlotsOf, Meta.WellFormed, Meta.BlocksIn;
  }

  // ---- from one peer to the other ----

  /** A block that came back from a peer holding d, for a pipeline of requests. */
  ghost predicate CameFrom(d: Download, call: (BlockInfo, bytes), host: Host)
    requires d.meta.WellFormed()
  {
    exists c, frames, bs ::
      && Asks(d, c, frames, bs)
      && (RequestsArrive(d, c, frames, bs); call in Arrivals(d, c, EncodeFrames(frames), host))
  }

  lemma WhatCameIsGenuine(d: Download, call: (BlockInfo, bytes), host: Host)
    requires d.meta.WellFormed() && CameFrom(d, call, host)
    ensures Available(d, call.0) && call.1 == DataOf(d, call.0)
  {
    var c, frames, bs :|
      && Asks(d, c, frames, bs)
      && (RequestsArrive(d, c, frames, bs); call in Arrivals(d, c, EncodeFrames(frames), host));
    RequestedBlocksArrive(d, c, frames, bs, host);
  }

  /** A single request for an available block, alone on the wire, brings it back. */
  lemma EveryBlockCanCome(d: Download, b: BlockInfo, host: Host)
    requires d.meta.WellFormed() && Available(d, b)
    ensures CameFrom(d, (b, DataOf(d, b)), host)
  {
    var c, frames, bs := NewConn().(amChoking := false), Carried(RequestsFor([b])), [b];
    CarriedMessages(RequestsFor([b]));
    assert Asks(d, c, frames, bs);
    RequestedBlocksArrive(d, c, frames, bs, host);
    assert Fetched(d, bs)[0] == (b, DataOf(d, b));
  }

  /**
   * End to end: a piece one peer has verified, fetched by another over the wire,
   * arrives as the same bytes as soon as each of its blocks has come, counting
   * those it had before.
   */
  lemma PieceCrossesTheWire(seeder: Download, leecher: Download, p: nat, had: set<nat>,
                            calls: seq<(BlockInfo, bytes)>, host: Host)
    requires seeder.Valid() && leecher.Valid() && seeder.meta == leecher.meta && seeder.Finished(p)
    requires |seeder.pieces[p].value| == seeder.meta.PieceLen(p)
    requires Faithful(leecher, p, seeder.pieces[p].value) && Reflects(leecher, p, had)
    requires forall i | 0 <= i < |calls| && calls[i].0.piece == p :: CameFrom(seeder, calls[i], host)
    ensures Deliver(leecher, calls).pieces[p]
      == if Full(leecher.meta, p, had + BlocksGot(calls, p)) then seeder.pieces[p] else None
  {
    var piece := seeder.pieces[p].value;
    forall i | 0 <= i < |calls| && calls[i].0.piece == p
      ensures Genuine(leecher.meta, p, piece, calls[i])
    {
      WhatCameIsGenuine(seeder, calls[i], host);
    }
    TransferInAnyOrder(leecher, p, piece, had, calls, (leecher.meta.Tile(p, 0), []));
  }

  // ---- announcing the finished pieces ----

  /** What a peer learns from the announced bitfield: exactly the finished pieces. */
  lemma AnnouncedPiecesAreFinished(d: Download, c: Conn, rest: bytes, host: Host)
    requires d.Valid()
    ensures var m := Message(MessageId.Bitfield, PackedPieces(d, d.meta.totalPieces));
      && ReadOne(Serialize(m) + rest) == Got(m, rest)
      && var c' := Process(c, m, host).0;
         && c'.bitfield.Some?
         && (forall i: nat :: HasPieceIn(c'.bitfield.value, i) <==> d.Finished(i))
         && S.PiecesOf(c'.bitfield.value, d.meta.totalPieces)
            == seq(d.meta.totalPieces, i requires 0 <= i => d.Finished(i))
  {
    var m := Message(MessageId.Bitfield, PackedPieces(d, d.meta.totalPieces));
    forall i: nat ensures HasPieceIn(m.payload, i) <==> d.Finished(i) { PackedPiecesTell(d, d.meta.totalPieces, i); }
    PackedPiecesTell(d, d.meta.totalPieces, 0);
    ReadOneFrame(m, rest);
  }
}
