/**
 * What the rest of a worker's round does, told from the state before it: timeouts,
 * keep-alives, uploads, counters, and when a worker leaves its main loop.
 */
module Upkeep {
  import opened Basics
  import opened Geometry
  import opened Downloads
  import opened Wire
  import opened Pools
  import opened Connections
  import opened Protocol
  import opened Safety
  import S = Sections

  // ---- timeouts ----

  /** The request was sent more than fifteen seconds before now. */
  predicate Overdue(c: Conn, b: BlockInfo, now: nat) { b in c.pending && now > c.pending[b] + 15_000_000_000 }

  /** Exactly the overdue requests leave the pending list, for the worker's hand; nothing else changes. */
  lemma ExpireTakesOverdue(w: World, a: Addr, now: nat)
    requires w.s.Shaped() && a in w.workers && w.workers[a].pc == Idle && a in w.s.conns
    ensures var (w', c) := (Next(w, Label.Expire(a, now)), w.s.conns[a]);
      && a in w'.s.conns && a in w'.workers && w'.s == w.s.(conns := w.s.conns[a := w'.s.conns[a]])
      && w'.s.conns[a] == c.(pending := w'.s.conns[a].pending)
      && (forall b :: b in w'.s.conns[a].pending <==> b in c.pending && !Overdue(c, b, now))
      && (forall b | b in w'.s.conns[a].pending :: w'.s.conns[a].pending[b] == c.pending[b])
      && (forall b :: b in HandAt(w', a) <==> Overdue(c, b, now))
  {
  }

  /** A block enters the pending list with the time at which it was sent. */
  lemma {:induction false} AddedAtTheirTimes(c: Conn, batch: seq<BlockInfo>, times: seq<nat>, i: nat)
    requires |times| == |batch| && NoDup(batch) && i < |batch|
    ensures var c' := S.AddAll(c, batch, times);
      && batch[i] in c'.pending && c'.pending[batch[i]] == times[i]
      && c'.lastRequest == Some(times[|times| - 1])
      && forall b | b in c.pending && b !in batch :: b in c'.pending && c'.pending[b] == c.pending[b]
  {
    var last := |batch| - 1;
    if i < last {
      AddedAtTheirTimes(c, batch[..last], times[..last], i);
    } else if last > 0 {
      AddedAtTheirTimes(c, batch[..last], times[..last], 0);
    }
  }

  /** A batch is added, written, what could not be written is taken back, and the rest is counted. */
  ghost function GoneOut(w: World, a: Addr, times: seq<nat>, oks: nat): (w': World)
    requires Inv(w)
    ensures Inv(w')
  {
    NextKeepsInv(w, Label.Add(a, times));
    var w1 := Next(w, Label.Add(a, times));
    NextKeepsInv(w1, Label.Send(a, oks));
    var w2 := Next(w1, Label.Send(a, oks));
    NextKeepsInv(w2, Label.Undo(a));
    var w3 := Next(w2, Label.Undo(a));
    NextKeepsInv(w3, Label.CountSent(a));
    Next(w3, Label.CountSent(a))
  }

  /**
   * Of a batch exactly the requests written before the first failed write stay
   * pending, each with its time; the others are unmarked, and only those written are
   * counted.
   */
  lemma BatchGoesOut(w: World, a: Addr, times: seq<nat>, oks: nat)
    requires Inv(w) && a in w.workers && w.workers[a].pc.Picked? && |times| == |w.workers[a].pc.batch|
    ensures a in w.s.conns
    ensures var (batch, w') := (w.workers[a].pc.batch, GoneOut(w, a, times, oks));
      var n := Min(oks, |batch|);
      && a in w'.s.conns && a in w'.workers && w'.workers[a].pc == Idle
      && OnlySent(w.s.conns[a].pending, w'.s.conns[a].pending, batch, times, n)
      && w'.s.dl == w.s.dl.(requested := w.s.dl.requested - Elements(batch[n..]))
      && w'.s.stats.sent == w.s.stats.sent + n && w'.workers[a].tally.sent == w.workers[a].tally.sent + n
  {
    InvValid(w);
    InvFacts(w, a);
    var (c, k) := (w.s.conns[a], w.workers[a]);
    var n := Min(oks, |k.pc.batch|);
    SentStay(c, k.pc.batch, times, n);
    SentAll(w.s.dl, S.AddAll(c, k.pc.batch, times), k.pc.batch);
    GoesOut(w, a, times, oks);
    assert NoDup(k.pc.batch);
    hide Inv, GoneOut, S.AddAll, ConnOk, WorkerOk, Download.Valid, Meta.WellFormed, NoDup, Elements, OnlySent;
  }

  /** The first n of a batch are pending, with their times, and none of the others. */
  predicate OnlySent(before: map<BlockInfo, nat>, after: map<BlockInfo, nat>, batch: seq<BlockInfo>,
                     times: seq<nat>, n: nat)
    requires n <= |batch| == |times|
  {
    && after.Keys == before.Keys - Elements(batch[n..]) + Elements(batch[..n])
    && forall i | 0 <= i < n :: batch[i] in after && after[batch[i]] == times[i]
  }

  lemma SentStay(c: Conn, batch: seq<BlockInfo>, times: seq<nat>, n: nat)
    requires NoDup(batch) && n <= |batch| == |times|
    ensures OnlySent(c.pending, S.AddAll(c, batch, times).pending - Elements(batch[n..]), batch, times, n)
  {
    S.AddedAreBatch(c, batch, times);
    forall i | 0 <= i < n
      ensures batch[i] in S.AddAll(c, batch, times).pending && S.AddAll(c, batch, times).pending[batch[i]] == times[i]
    {
      AddedAtTheirTimes(c, batch, times, i);
    }
    Parts(batch, n);
    assert forall i | 0 <= i < n :: batch[i] in batch[..n];
    hide S.AddAll, NoDup;
  }

  lemma SentAll(d: Download, c: Conn, batch: seq<BlockInfo>)
    ensures d.(requested := d.requested - Elements(batch[|batch|..])) == d
    ensures c.pending - Elements(batch[|batch|..]) == c.pending
  {
    assert batch[|batch|..] == [];
  }

  /** The four sections together. */
  lemma GoesOut(w: World, a: Addr, times: seq<nat>, oks: nat)
    requires Inv(w) && a in w.s.conns && a in w.workers && w.workers[a].pc.Picked?
    requires |times| == |w.workers[a].pc.batch|
    ensures var (k, w') := (w.workers[a], GoneOut(w, a, times, oks));
      var (batch, n) := (k.pc.batch, Min(oks, |k.pc.batch|));
      var added := S.AddAll(w.s.conns[a], batch, times);
      && a in w'.s.conns && a in w'.workers && w'.workers[a] == Worker(Idle, k.tally.(sent := k.tally.sent + n))
      && w'.s.stats.sent == w.s.stats.sent + n
      && w'.s.conns[a].pending == (if oks < |batch| then added.pending - Elements(batch[n..]) else added.pending)
      && w'.s.dl ==
           if oks < |batch| then w.s.dl.(requested := w.s.dl.requested - Elements(batch[n..])) else w.s.dl
  {
    hide Inv, Next;
    InvValid(w);
    Added(w, a, times);
    NextKeepsInv(w, Label.Add(a, times));
    var w1 := Next(w, Label.Add(a, times));
    InvValid(w1);
    Written(w1, a, oks);
    NextKeepsInv(w1, Label.Send(a, oks));
    var w2 := Next(w1, Label.Send(a, oks));
    InvValid(w2);
    TakenBack(w2, a);
    NextKeepsInv(w2, Label.Undo(a));
    var w3 := Next(w2, Label.Undo(a));
    InvValid(w3);
    Counted(w3, a);
    assert GoneOut(w, a, times, oks) == Next(w3, Label.CountSent(a));
    hide *;
  }

  lemma Added(w: World, a: Addr, times: seq<nat>)
    requires w.s.Shaped() && a in w.s.conns && a in w.workers && w.workers[a].pc.Picked?
    requires |times| == |w.workers[a].pc.batch|
    ensures var k := w.workers[a];
      Next(w, Label.Add(a, times)) ==
        World(w.s.(conns := w.s.conns[a := S.AddAll(w.s.conns[a], k.pc.batch, times)]),
              w.workers[a := k.(pc := Sending(k.pc.batch, k.pc.depth))])
  {
    hide S.AddAll, Meta.WellFormed;
  }

  lemma Written(w: World, a: Addr, oks: nat)
    requires w.s.Shaped() && a in w.workers && w.workers[a].pc.Sending?
    ensures var k := w.workers[a];
      Next(w, Label.Send(a, oks)) ==
        World(w.s, w.workers[a := k.(pc := if oks < |k.pc.batch| then Unsent(k.pc.batch[oks..], oks, k.pc.depth)
                                           else Sent(|k.pc.batch|, k.pc.depth))])
  {
    hide Meta.WellFormed;
  }

  /** What was not sent leaves the pending list and the marks; a batch sent whole stays as it is. */
  lemma TakenBack(w: World, a: Addr)
    requires w.s.Shaped() && a in w.s.conns && a in w.workers && (w.workers[a].pc.Unsent? || w.workers[a].pc.Sent?)
    ensures var (k, c) := (w.workers[a], w.s.conns[a]);
      Next(w, Label.Undo(a)) ==
        if k.pc.Sent? then w
        else
          World(w.s.(conns := w.s.conns[a := c.(pending := c.pending - Elements(k.pc.failed))],
                     dl := w.s.dl.(requested := w.s.dl.requested - Elements(k.pc.failed))),
                w.workers[a := k.(pc := Sent(k.pc.count, k.pc.depth))])
  {
    hide Meta.WellFormed, Elements;
  }

  lemma Counted(w: World, a: Addr)
    requires w.s.Shaped() && a in w.workers && w.workers[a].pc.Sent?
    ensures var (k, w') := (w.workers[a], Next(w, Label.CountSent(a)));
      && w'.s == w.s.(stats := w'.s.stats) && w'.s.stats.sent == w.s.stats.sent + k.pc.count
      && w'.workers == w.workers[a := Worker(Idle, k.tally.(sent := k.tally.sent + k.pc.count))]
  {
    hide Meta.WellFormed;
  }

  lemma Parts<T>(s: seq<T>, n: nat)
    requires n <= |s| && NoDup(s)
    ensures Elements(s) == Elements(s[..n]) + Elements(s[n..]) && Elements(s[..n]) !! Elements(s[n..])
  {
    assert s == s[..n] + s[n..];
    assert forall i, j | 0 <= i < n <= j < |s| :: s[i] != s[j];
  }

  // ---- keep-alives ----

  /** A keep-alive is sent exactly when nothing was sent for two minutes, or ever; only its time is noted. */
  lemma KeepAliveIff(s: S.Shared, a: Addr, checked: nat, now: nat)
    ensures var (s', sent) := S.KeepAlive(s, a, checked, now);
      && (sent <==>
            && a in s.conns
            && (s.conns[a].lastRequest == None || checked > s.conns[a].lastRequest.value + 120_000_000_000))
      && s' == (if sent then s.(conns := s.conns[a := s.conns[a].(lastRequest := Some(now))]) else s)
  {
  }

  // ---- queues ----

  /** Up to four uploads are taken, oldest first, and the others stay queued in order. */
  lemma OldestUploadsTaken(s: S.Shared, a: Addr)
    ensures var (s', taken) := S.TakeUploads(s, a);
      if a in s.conns then
        && a in s'.conns && taken + s'.conns[a].uploads == s.conns[a].uploads
        && (|taken| == 4 || (|taken| < 4 && s'.conns[a].uploads == []))
        && s' == s.(conns := s.conns[a := s.conns[a].(uploads := s'.conns[a].uploads)])
      else s' == s && taken == []
  {
  }

  /** All queued responses are taken, in order. */
  lemma ResponsesTaken(s: S.Shared, a: Addr)
    ensures var (s', taken) := S.FlushMetadata(s, a);
      if a in s.conns then
        taken == s.conns[a].metadataOut && s' == s.(conns := s.conns[a := s.conns[a].(metadataOut := [])])
      else s' == s && taken == []
  {
  }

  // ---- answers ----

  /** The replies due to a list of requests: one for each range inside a finished piece, in order. */
  function RepliesDue(d: Download, requests: seq<PieceRequest>): seq<Message> {
    if requests == [] then []
    else
      var (init, r) := (requests[..|requests| - 1], requests[|requests| - 1]);
      RepliesDue(d, init)
      + (if d.Finished(r.piece) && r.piece < d.meta.totalPieces && r.begin + r.length <= |d.pieces[r.piece].value|
         then [PieceMessage(r.piece, r.begin, d.pieces[r.piece].value[r.begin..r.begin + r.length])] else [])
  }

  /** As many of them are sent as writes succeed, and the worker goes on exactly if that is all of them. */
  lemma {:induction false} RepliesAreSent(d: Download, requests: seq<PieceRequest>, writes: nat)
    ensures var (sent, uploaded, ok) := S.Answers(d, requests, writes);
      var due := RepliesDue(d, requests);
      sent == due[..Min(writes, |due|)] && (ok <==> |due| <= writes) && uploaded == S.BytesSent(sent)
  {
    S.UploadedIsWhatWasSent(d, requests, writes);
    if requests != [] {
      var n := |requests| - 1;
      var r := requests[n];
      RepliesAreSent(d, requests[..n], writes);
      S.AnswersStep(d, requests, writes, n);
      assert requests[..n + 1] == requests;
      var (before, due) := (RepliesDue(d, requests[..n]), RepliesDue(d, requests));
      var block := Served(d, r.piece, r.begin, r.length);
      assert due == before + (if block.Some? then [PieceMessage(r.piece, r.begin, block.value)] else []);
      hide *;
      TakeMore(before, due, writes);
    }
  }

  lemma TakeMore(before: seq<Message>, due: seq<Message>, n: nat)
    requires |before| <= |due| <= |before| + 1 && due[..|before|] == before
    ensures |due| == |before| ==> due == before
    ensures n < |due| ==> due[..Min(n, |due|)] == before[..Min(n, |before|)]
    ensures n >= |due| > |before| ==> due[..Min(n, |due|)] == before[..Min(n, |before|)] + [due[|before|]]
    ensures n >= |due| ==> before[..Min(n, |before|)] == before && due[..Min(n, |due|)] == due
  {
  }

  // ---- leaving the main loop ----

  /** The section ends the worker's main loop. */
  ghost predicate Closes(w: World, l: Label)
    requires w.s.Shaped() && l.a in w.workers
  {
    match (l, w.workers[l.a].pc)
    case (Handle(_, m), Idle) => m.kind == Piece && |m.payload| < 8
    case (Break(_), Idle) => true
    case (Store(_), Received(b, data, _)) => StoreDiscards(w.s.dl, b, data)
    case (Serve(_, writes), Serving(requests)) => |RepliesDue(w.s.dl, requests)| > writes
    case _ => false
  }

  /**
   * A worker leaves its main loop exactly on a piece message too short to be one, a
   * piece that fails its hash, an upload that cannot be written, or its own decision.
   */
  lemma ClosingIff(w: World, l: Label)
    requires Inv(w) && l.a in w.workers && w.workers[l.a].pc != Closing
    ensures w.s.Shaped()
    ensures l.a in Next(w, l).workers && Next(w, l).workers[l.a].pc == Closing <==> Closes(w, l)
  {
    InvValid(w);
    if w.workers[l.a].pc.Idle? { IdleClosingIff(w, l); } else { BusyClosingIff(w, l); }
    hide Inv, NextOfIdle, NextOfBusy, Closes;
  }

  lemma IdleClosingIff(w: World, l: Label)
    requires w.s.Shaped() && l.a in w.workers && w.workers[l.a].pc == Idle
    ensures l.a in NextOfIdle(w, l).workers && NextOfIdle(w, l).workers[l.a].pc == Closing <==> Closes(w, l)
  {
    hide Process, S.PickBatch, TimedOut, Meta.WellFormed;
  }

  lemma BusyClosingIff(w: World, l: Label)
    requires w.s.Shaped() && l.a in w.workers && w.workers[l.a].pc != Idle && w.workers[l.a].pc != Closing
    ensures var (pc, t) := (w.workers[l.a].pc, w.workers[l.a].tally);
      l.a in NextOfBusy(w, l, pc, t).workers && NextOfBusy(w, l, pc, t).workers[l.a].pc == Closing <==> Closes(w, l)
  {
    var pc := w.workers[l.a].pc;
    if pc.Received? { StorePanicsIff(w.s.dl, pc.block, pc.data); }
    if l.Serve? && pc.Serving? { RepliesAreSent(w.s.dl, pc.requests, l.writes); }
    hide Complete, S.AddAll, S.Answers, StoreDiscards, StorePanics, RepliesDue, Meta.WellFormed;
  }

  // ---- counters ----

  /** The shared counters move with those of the worker, and the depth is the deepest pipeline counted. */
  lemma CountersMove(w: World, l: Label)
    requires Inv(w)
    ensures var (w', s, s') := (Next(w, l), w.s.stats, Next(w, l).s.stats);
      && (l.a in w.workers && l.a in w'.workers ==>
            var (t, t') := (w.workers[l.a].tally, w'.workers[l.a].tally);
            && s'.sent - s.sent == t'.sent - t.sent && s'.responses - s.responses == t'.responses - t.responses
            && s'.timeouts - s.timeouts == t'.timeouts - t.timeouts)
      && (l.a !in w.workers || l.a !in w'.workers ==> s' == s)
      && s'.maxDepth ==
           if && l.CountSent? && l.a in w.workers && w.workers[l.a].pc.Sent? && w.workers[l.a].pc.count > 0
              && w.workers[l.a].pc.depth > s.maxDepth
           then w.workers[l.a].pc.depth else s.maxDepth
  {
    InvValid(w);
    if l.a in w.workers {
      if w.workers[l.a].pc.Idle? { IdleCounts(w, l); } else { BusyCounts(w, l); }
    }
    hide Inv, NextOfIdle, NextOfBusy, Download.Valid, Meta.WellFormed, NewConn;
  }

  lemma IdleCounts(w: World, l: Label)
    requires w.s.Shaped() && l.a in w.workers && w.workers[l.a].pc == Idle
    ensures var w' := NextOfIdle(w, l);
      && w'.s.stats == w.s.stats && (l.a in w'.workers ==> w'.workers[l.a].tally == w.workers[l.a].tally)
  {
    hide Process, S.PickBatch, TimedOut, ParsePiece, Meta.WellFormed;
  }

  lemma BusyCounts(w: World, l: Label)
    requires w.s.Shaped() && l.a in w.workers && w.workers[l.a].pc != Idle
    ensures var (pc, t) := (w.workers[l.a].pc, w.workers[l.a].tally);
      var (w', s) := (NextOfBusy(w, l, pc, t), w.s.stats);
      var s' := w'.s.stats;
      && (l.a !in w'.workers ==> s' == s)
      && (l.a in w'.workers ==>
            var t' := w'.workers[l.a].tally;
            && s'.sent - s.sent == t'.sent - t.sent && s'.responses - s.responses == t'.responses - t.responses
            && s'.timeouts - s.timeouts == t'.timeouts - t.timeouts)
      && s'.maxDepth ==
           (if l.CountSent? && pc.Sent? && pc.count > 0 && pc.depth > s.maxDepth then pc.depth else s.maxDepth)
  {
    hide Complete, S.AddAll, S.Answers, Meta.WellFormed;
  }
}
