/**
 * The state shared by the peer workers, and what each lock-guarded section of a
 * worker does to it. Every section is atomic.
 */
module Sections {
  import opened Basics
  import opened Geometry
  import opened Downloads
  import opened Bitfields
  import opened Wire
  import opened Pools
  import opened Connections

  const BATCH_SIZE: nat := 16
  const UPLOADS_PER_FLUSH: nat := 4

  datatype Stats = Stats(sent: nat, responses: nat, timeouts: nat, maxDepth: nat)

  datatype Shared = Shared(dl: Download, conns: map<Addr, Conn>, stats: Stats, host: Host)
  {
    predicate Shaped() { dl.meta.WellFormed() && |dl.pieces| == dl.meta.totalPieces }
  }

  // ---- choosing and sending requests ----

  /** Pick and mark up to n blocks, one at a time. */
  function PickBatch(d: Download, has: seq<bool>, start: nat, n: nat): (Download, seq<BlockInfo>)
    requires d.meta.WellFormed() && |d.pieces| == d.meta.totalPieces
    decreases n
  {
    if n == 0 then (d, [])
    else
      match Pick(d, has, start)
      case None => (d, [])
      case Some(b) =>
        var (d', rest) := PickBatch(d.(requested := d.requested + {b}), has, start, n - 1);
        (d', [b] + rest)
  }

  function PiecesOf(bits: bytes, total: nat): seq<bool> {
    seq(total, i requires 0 <= i < total => HasPieceIn(bits, i))
  }

  function FreeSlots(c: Conn): nat {
    Min(BATCH_SIZE, if |c.pending| < MAX_PIPELINE_DEPTH then MAX_PIPELINE_DEPTH - |c.pending| else 0)
  }

  /** Fill the pipeline of one peer: the marked blocks and the resulting depth. */
  function Choose(s: Shared, a: Addr, start: nat): (Shared, seq<BlockInfo>, nat)
    requires s.Shaped()
  {
    if a in s.conns && s.conns[a].bitfield.Some? then
      var c := s.conns[a];
      var (d, batch) := PickBatch(s.dl, PiecesOf(c.bitfield.value, s.dl.meta.totalPieces), start, FreeSlots(c));
      (s.(dl := d), batch, |c.pending| + |batch|)
    else (s, [], 0)
  }

  function AddAll(c: Conn, batch: seq<BlockInfo>, times: seq<nat>): Conn
    requires |times| == |batch|
  {
    if batch == [] then c
    else
      var last := |batch| - 1;
      AddPending(AddAll(c, batch[..last], times[..last]), batch[last], times[last])
  }

  function AddBatch(s: Shared, a: Addr, batch: seq<BlockInfo>, times: seq<nat>): Shared
    requires |times| == |batch|
  {
    if a in s.conns then s.(conns := s.conns[a := AddAll(s.conns[a], batch, times)]) else s
  }

  /** Undo the requests that could not be sent. */
  function DropUnsent(s: Shared, a: Addr, failed: seq<BlockInfo>): Shared {
    if a in s.conns then
      s.(conns := s.conns[a := s.conns[a].(pending := s.conns[a].pending - Elements(failed))],
         dl := s.dl.(requested := s.dl.requested - Elements(failed)))
    else s
  }

  function CountSent(s: Shared, count: nat, depth: nat): Shared {
    if count == 0 then s
    else s.(stats := s.stats.(sent := s.stats.sent + count,
                              maxDepth := if depth > s.stats.maxDepth then depth else s.stats.maxDepth))
  }

  // ---- receiving blocks ----

  function TakePending(s: Shared, a: Addr, b: BlockInfo): (Shared, bool) {
    if a in s.conns then
      (s.(conns := s.conns[a := s.conns[a].(pending := s.conns[a].pending - {b})]), b in s.conns[a].pending)
    else (s, false)
  }

  function CountResponse(s: Shared): Shared { s.(stats := s.stats.(responses := s.stats.responses + 1)) }

  function StoreBlock(s: Shared, b: BlockInfo, data: bytes): (Shared, Outcome)
    requires s.Shaped()
  {
    var (d, outcome) := Complete(s.dl, b, data);
    (s.(dl := d), outcome)
  }

  // ---- timeouts ----

  function Expire(s: Shared, a: Addr, now: nat): (Shared, set<BlockInfo>) {
    if a in s.conns then
      var expired := TimedOut(s.conns[a], now);
      (s.(conns := s.conns[a := s.conns[a].(pending := s.conns[a].pending - expired)]), expired)
    else (s, {})
  }

  function Release(s: Shared, blocks: set<BlockInfo>): Shared {
    s.(dl := s.dl.(requested := s.dl.requested - blocks))
  }

  function CountTimeouts(s: Shared, count: nat): Shared {
    s.(stats := s.stats.(timeouts := s.stats.timeouts + count))
  }

  // ---- the life of a connection ----

  function Connect(s: Shared, a: Addr): Shared { s.(conns := s.conns[a := NewConn()]) }

  function Enter(s: Shared, a: Addr): Shared {
    if a in s.conns
    then s.(conns := s.conns[a := s.conns[a].(amInterested := true, amChoking := false)])
    else s
  }

  /** Any message but a piece; the flag says whether its reader never comes back from it. */
  function HandleMessage(s: Shared, a: Addr, m: Message): (Shared, bool)
    requires m.kind != Piece
  {
    if a in s.conns then
      var (c, stuck) := Process(s.conns[a], m, s.host);
      (s.(conns := s.conns[a := c]), stuck)
    else (s, Process(NewConn(), m, s.host).1)
  }

  /** Send a keep-alive if one is due; the clock is read before and after. */
  function KeepAlive(s: Shared, a: Addr, checked: nat, now: nat): (Shared, bool) {
    if a in s.conns && s.conns[a].KeepAliveDue(checked)
    then (s.(conns := s.conns[a := s.conns[a].(lastRequest := Some(now))]), true)
    else (s, false)
  }

  /** Remove the connection, and everything it had pending from the requested blocks. */
  function Disconnect(s: Shared, a: Addr): Shared {
    if a in s.conns then
      s.(conns := s.conns - {a}, dl := s.dl.(requested := s.dl.requested - s.conns[a].pending.Keys))
    else s
  }

  // ---- uploads ----

  function TakeUploads(s: Shared, a: Addr): (Shared, seq<PieceRequest>) {
    if a in s.conns then
      var queue := s.conns[a].uploads;
      var n := Min(UPLOADS_PER_FLUSH, |queue|);
      (s.(conns := s.conns[a := s.conns[a].(uploads := queue[n..])]), queue[..n])
    else (s, [])
  }

  /** What serving a list of requests sends when only the first `writes` writes succeed. */
  function Answers(d: Download, requests: seq<PieceRequest>, writes: nat): (seq<Message>, nat, bool)
  {
    if requests == [] then ([], 0, true)
    else
      var (sent, uploaded, ok) := Answers(d, requests[..|requests| - 1], writes);
      var last := requests[|requests| - 1];
      var block := Served(d, last.piece, last.begin, last.length);
      if !ok || block.None? then (sent, uploaded, ok)
      else if |sent| < writes then
        (sent + [PieceMessage(last.piece, last.begin, block.value)], uploaded + last.length, true)
      else (sent, uploaded, false)
  }

  function ServeUploads(s: Shared, requests: seq<PieceRequest>, writes: nat): (Shared, bool) {
    var (sent, uploaded, ok) := Answers(s.dl, requests, writes);
    (s.(dl := s.dl.(uploaded := s.dl.uploaded + uploaded)), ok)
  }

  function FlushMetadata(s: Shared, a: Addr): (Shared, seq<Message>) {
    if a in s.conns
    then (s.(conns := s.conns[a := s.conns[a].(metadataOut := [])]), s.conns[a].metadataOut)
    else (s, [])
  }

  // ---- what a batch consists of ----

  /** The blocks of a batch are distinct, were eligible, and are now requested. */
  lemma {:induction false} BatchIsFresh(d: Download, has: seq<bool>, start: nat, n: nat)
    requires d.meta.WellFormed() && |d.pieces| == d.meta.totalPieces
    ensures var (d', batch) := PickBatch(d, has, start, n);
      && d' == d.(requested := d.requested + Elements(batch))
      && |batch| <= n && NoDup(batch)
      && (forall b | b in batch :: d.Eligible(has, b))
    decreases n
  {
    hide Pick, Download.Eligible;
    if n == 0 {
      BatchEmpty(d);
    } else {
      PickIsFirstEligible(d, has, start);
      match Pick(d, has, start)
      case None => BatchEmpty(d);
      case Some(b) =>
        var d1 := d.(requested := d.requested + {b});
        var rest := PickBatch(d1, has, start, n - 1).1;
        BatchIsFresh(d1, has, start, n - 1);
        forall c | c in rest ensures d.Eligible(has, c) && c != b { EligibleBefore(d, has, b, c); }
        assert Elements([b] + rest) == {b} + Elements(rest);
        assert d1.requested + Elements(rest) == d.requested + Elements([b] + rest);
    }
  }

  lemma BatchEmpty(d: Download)
    ensures d == d.(requested := d.requested + Elements([]))
  {
    assert d.requested + Elements([]) == d.requested;
  }

  lemma EligibleBefore(d: Download, has: seq<bool>, b: BlockInfo, c: BlockInfo)
    requires d.meta.WellFormed() && |d.pieces| == d.meta.totalPieces
    requires d.(requested := d.requested + {b}).Eligible(has, c)
    ensures d.Eligible(has, c) && c != b
  {
    assert d.(requested := d.requested + {b}).Stored(c) == d.Stored(c);
  }

  /** A batch falls short of its limit only when the peer has nothing left to offer. */
  lemma {:induction false} ShortBatchLeavesNothing(d: Download, has: seq<bool>, start: nat, n: nat)
    requires d.meta.WellFormed() && |d.pieces| == d.meta.totalPieces
    ensures var (d', batch) := PickBatch(d, has, start, n);
      && d'.meta == d.meta && d'.pieces == d.pieces
      && (|batch| < n ==> forall c :: !d'.Eligible(has, c))
    decreases n
  {
    hide Pick, Download.Eligible;
    if n > 0 {
      PickIsFirstEligible(d, has, start);
      match Pick(d, has, start)
      case None =>
      case Some(b) => ShortBatchLeavesNothing(d.(requested := d.requested + {b}), has, start, n - 1);
    }
  }

  /** A batch is in the order of the scan, and leaves out nothing that comes before one of its blocks. */
  lemma {:induction false} BatchInOrder(d: Download, has: seq<bool>, start: nat, n: nat, i: nat, c: BlockInfo)
    requires d.meta.WellFormed() && |d.pieces| == d.meta.totalPieces
    requires var batch := PickBatch(d, has, start, n).1; i < |batch| && d.Eligible(has, c) && c !in batch[..i + 1]
    ensures var b := PickBatch(d, has, start, n).1[i];
      b.piece < d.meta.totalPieces && Before(d.meta.totalPieces, start, b, c)
    decreases n
  {
    PickIsFirstEligible(d, has, start);
    var batch := PickBatch(d, has, start, n).1;
    var b := Pick(d, has, start).value;
    var d1 := d.(requested := d.requested + {b});
    assert d1.Stored(c) == d.Stored(c);
    if i > 0 {
      assert batch == [b] + batch[1..] && batch[1..][..i] == batch[1..i + 1];
      assert batch[..i + 1] == [b] + batch[1..i + 1];
      hide Pick;
      BatchInOrder(d1, has, start, n - 1, i - 1, c);
    }
  }

  lemma {:induction false} AddedAreBatch(c: Conn, batch: seq<BlockInfo>, times: seq<nat>)
    requires |times| == |batch|
    ensures var c' := AddAll(c, batch, times);
      c'.pending.Keys == c.pending.Keys + Elements(batch) && c'.uploads == c.uploads
  {
    if batch != [] {
      var last := |batch| - 1;
      AddedAreBatch(c, batch[..last], times[..last]);
      assert Elements(batch) == Elements(batch[..last]) + {batch[last]};
    }
  }

  /** Bytes of block data in a list of piece messages. */
  function BytesSent(sent: seq<Message>): nat {
    if sent == [] then 0
    else BytesSent(sent[..|sent| - 1]) + (if |sent[|sent| - 1].payload| < 8 then 0 else |sent[|sent| - 1].payload| - 8)
  }

  /** A message that answers one of the requests from a finished piece. */
  ghost predicate IsAnswer(d: Download, requests: seq<PieceRequest>, m: Message) {
    exists r | r in requests ::
      var block := Served(d, r.piece, r.begin, r.length);
      block.Some? && m == PieceMessage(r.piece, r.begin, block.value)
  }

  /**
   * The upload counter grows by exactly the block bytes sent, and each message
   * sent answers one of the requests from a finished piece.
   */
  lemma {:induction false} UploadedIsWhatWasSent(d: Download, requests: seq<PieceRequest>, writes: nat)
    ensures var (sent, uploaded, ok) := Answers(d, requests, writes);
      && uploaded == BytesSent(sent) && |sent| <= writes && |sent| <= |requests|
      && forall i | 0 <= i < |sent| :: IsAnswer(d, requests, sent[i])
  {
    if requests != [] {
      var init, last := requests[..|requests| - 1], requests[|requests| - 1];
      UploadedIsWhatWasSent(d, init, writes);
      var before, sent := Answers(d, init, writes).0, Answers(d, requests, writes).0;
      if |sent| > |before| {
        assert sent[..|before|] == before && |sent[|before|].payload| == 8 + last.length;
        assert last in requests && IsAnswer(d, requests, sent[|before|]);
      }
      forall i | 0 <= i < |before| ensures IsAnswer(d, requests, sent[i]) {
        assert sent[i] == before[i] && forall r | r in init :: r in requests;
      }
    }
  }

  /** Serving one more request. */
  lemma AnswersStep(d: Download, requests: seq<PieceRequest>, writes: nat, i: nat)
    requires i < |requests|
    ensures var (sent, uploaded, ok) := Answers(d, requests[..i], writes);
      var r := requests[i];
      var block := Served(d, r.piece, r.begin, r.length);
      Answers(d, requests[..i + 1], writes) ==
        if !ok || block.None? then (sent, uploaded, ok)
        else if |sent| < writes then (sent + [PieceMessage(r.piece, r.begin, block.value)], uploaded + r.length, true)
        else (sent, uploaded, false)
  {
    assert requests[..i + 1][..i] == requests[..i];
  }
}
