/** Whole runs: any interleaving of any workers' sections, from a fresh download. */
module Runs {
  import opened Basics
  import opened Geometry
  import opened Downloads
  import opened Wire
  import opened Pools
  import opened Connections
  import opened Protocol
  import opened Safety
  import S = Sections

  lemma InitInv(meta: Meta, host: Host)
    requires meta.WellFormed()
    ensures Inv(Init(meta, host))
  {
    FreshIsValid(meta);
    var w := Init(meta, host);
    assert Nets(w.workers) == map[];
    assert forall a :: AddrOk(w, a);
  }

  /** The state after a run. */
  ghost function Exec(meta: Meta, host: Host, run: seq<Label>): (w: World)
    requires meta.WellFormed()
    ensures Inv(w) && w.s.dl.meta == meta
  {
    InitInv(meta, host);
    if run == [] then Init(meta, host)
    else
      var before := Exec(meta, host, run[..|run| - 1]);
      NextKeepsInv(before, run[|run| - 1]);
      Next(before, run[|run| - 1])
  }

  /**
   * In every reachable state: no requested block is orphaned; a peer's pipeline,
   * counting blocks picked but not yet pending, never exceeds its depth; nothing
   * is answered or timed out more often than sent; queued uploads are bounded.
   */
  lemma EveryRunIsSafe(meta: Meta, host: Host, run: seq<Label>)
    requires meta.WellFormed()
    ensures var w := Exec(meta, host, run);
      && NoOrphan(w)
      && (forall a | a in w.workers && w.workers[a].pc.Picked? ::
            |PendingAt(w, a)| + |w.workers[a].pc.batch| <= MAX_PIPELINE_DEPTH)
      && (forall a | a in w.s.conns :: |w.s.conns[a].pending| <= MAX_PIPELINE_DEPTH && w.s.conns[a].WithinLimits())
      && w.s.stats.responses + w.s.stats.timeouts <= w.s.stats.sent
      && w.s.stats.maxDepth <= MAX_PIPELINE_DEPTH
  {
    var w := Exec(meta, host, run);
    AnsweredWithinSent(w);
    forall a | a in w.workers && w.workers[a].pc.Picked?
      ensures |PendingAt(w, a)| + |w.workers[a].pc.batch| <= MAX_PIPELINE_DEPTH
    {
      InvFacts(w, a);
      assert |PendingAt(w, a)| == |w.s.conns[a].pending|;
    }
    forall a | a in w.s.conns
      ensures |w.s.conns[a].pending| <= MAX_PIPELINE_DEPTH && w.s.conns[a].WithinLimits()
    {
      assert AddrOk(w, a);
    }
  }

  // ---- never wedged ----

  /** No worker carries a block and no connection waits for one. */
  ghost predicate Quiet(w: World) { forall a :: HeldAt(w, a) == {} }

  /** A missing piece always has a block that is not stored. */
  lemma MissingPieceHasFreeBlock(d: Download, p: nat) returns (k: nat)
    requires d.Valid() && p < d.meta.totalPieces
    ensures k < d.meta.BlocksIn(p) && !d.Stored(d.meta.Tile(p, k)) && Index(d.meta.Tile(p, k)) == k
  {
    EveryPieceHasABlock(d.meta, p);
    k := 0;
    if p in d.blocks {
      assert TrackedWell(d.meta, p, d.blocks[p]);
      k :| 0 <= k < |d.blocks[p]| && d.blocks[p][k].None?;
    }
    TileBounds(d.meta, p, k);
  }

  /**
   * In every reachable quiet state nothing is marked as requested, and a peer
   * with any missing piece is offered a block.
   */
  lemma NeverWedged(meta: Meta, host: Host, run: seq<Label>, has: seq<bool>, start: nat, p: nat)
    requires meta.WellFormed() && Quiet(Exec(meta, host, run))
    ensures var d := Exec(meta, host, run).s.dl;
      && d.requested == {}
      && (p < meta.totalPieces && d.pieces[p].None? && p < |has| && has[p] ==> Pick(d, has, start).Some?)
  {
    var d := Exec(meta, host, run).s.dl;
    if p < meta.totalPieces && d.pieces[p].None? && p < |has| && has[p] {
      var k := MissingPieceHasFreeBlock(d, p);
      TileBounds(meta, p, k);
      assert d.Eligible(has, meta.Tile(p, k));
      PickIsFirstEligible(d, has, start);
    }
  }

  // ---- the file ----

  /** Whatever peers send in whatever order: a finished piece is the file's, and a complete download is the file. */
  lemma EveryRunBuildsTheFile(meta: Meta, host: Host, run: seq<Label>, file: bytes)
    requires meta.WellFormed() && HashesIdentify(meta, file)
    ensures var d := Exec(meta, host, run).s.dl;
      && (forall p: nat | d.Finished(p) :: d.pieces[p] == Some(meta.Chunk(file, p)))
      && (d.IsComplete() <==> WriteFile(d) == Written(file))
  {
    var d := Exec(meta, host, run).s.dl;
    FinishedPiecesAreTheFiles(d, file);
    CompleteDownloadIsTheFile(d, file);
  }

  lemma FinishedPiecesAreTheFiles(d: Download, file: bytes)
    requires d.Valid() && HashesIdentify(d.meta, file)
    ensures forall p: nat | d.Finished(p) :: d.pieces[p] == Some(d.meta.Chunk(file, p))
  {
    forall p: nat | d.Finished(p) ensures d.pieces[p] == Some(d.meta.Chunk(file, p)) {
      assert KeptWell(d.meta, p, d.pieces[p]);
    }
  }

  /** No section of any worker loses a finished piece. */
  lemma NextKeepsFinished(w: World, l: Label, p: nat)
    requires Inv(w) && w.s.dl.Finished(p)
    ensures Next(w, l).s.dl.Finished(p)
  {
    if l.a in w.workers {
      var pc := w.workers[l.a].pc;
      if pc.Idle? { IdleKeepsFinished(w, l, p); } else { BusyKeepsFinished(w, l, p); }
    }
    hide Inv, NextOfIdle, NextOfBusy;
  }

  lemma IdleKeepsFinished(w: World, l: Label, p: nat)
    requires Inv(w) && w.s.dl.Finished(p) && l.a in w.workers && w.workers[l.a].pc == Idle
    ensures NextOfIdle(w, l).s.dl.Finished(p)
  {
    if l.Choose? && l.a in w.s.conns {
      InvFacts(w, l.a);
      ChooseMarks(w.s, l.a, l.start);
    }
    hide Inv, Process, ParsePiece, TimedOut, S.Choose;
  }

  lemma BusyKeepsFinished(w: World, l: Label, p: nat)
    requires Inv(w) && w.s.dl.Finished(p) && l.a in w.workers
    ensures NextOfBusy(w, l, w.workers[l.a].pc, w.workers[l.a].tally).s.dl.Finished(p)
  {
    var pc := w.workers[l.a].pc;
    if pc.Received? { CompleteTouchesOnePiece(w.s.dl, pc.block, pc.data, p); }
    hide Inv, Complete, S.AddAll, S.Answers;
  }

  /** The pieces finished at some point of a run are finished ever after. */
  lemma {:induction false} FinishedForever(meta: Meta, host: Host, run: seq<Label>, n: nat, p: nat)
    requires meta.WellFormed() && n <= |run| && Exec(meta, host, run[..n]).s.dl.Finished(p)
    ensures Exec(meta, host, run).s.dl.Finished(p)
    decreases |run|
  {
    hide Inv, Next, Download.Finished;
    if n == |run| {
      assert run[..n] == run;
    } else {
      var init := run[..|run| - 1];
      assert init[..n] == run[..n];
      FinishedForever(meta, host, init, n, p);
      NextKeepsFinished(Exec(meta, host, init), run[|run| - 1], p);
    }
  }

  // ---- peers that never send a bitfield ----

  /** Nothing is known of the peer's pieces, and nothing was asked of it. */
  ghost predicate Unasked(w: World, a: Addr) {
    && (a in w.s.conns ==> w.s.conns[a].bitfield == None && w.s.conns[a].pending == map[])
    && (a in w.workers ==>
          var k := w.workers[a];
          k.tally.sent == 0 && !k.pc.Picked? && !k.pc.Sending? && !k.pc.Unsent? && !k.pc.Sent?)
  }

  predicate SendsBitfield(l: Label, a: Addr) { l.Handle? && l.a == a && l.m.kind == Bitfield }

  lemma NextKeepsUnasked(w: World, l: Label, a: Addr)
    requires Inv(w) && Unasked(w, a) && !SendsBitfield(l, a)
    ensures Unasked(Next(w, l), a)
  {
    if l.a != a {
      OthersUntouched(w, l, a);
    } else if a in w.workers {
      InvFacts(w, a);
      if w.workers[a].pc.Idle? { IdleKeepsUnasked(w, l); } else { BusyKeepsUnasked(w, l); }
    }
    hide Inv, NextOfIdle, NextOfBusy;
  }

  lemma IdleKeepsUnasked(w: World, l: Label)
    requires Inv(w) && l.a in w.workers && l.a in w.s.conns && w.workers[l.a].pc == Idle
    requires Unasked(w, l.a) && !SendsBitfield(l, l.a)
    ensures Unasked(NextOfIdle(w, l), l.a)
  {
    InvValid(w);
    var c := w.s.conns[l.a];
    if l.Handle? && l.m.kind != Piece {
      ProcessDecides(c, l.m, w.s.host);
      ProcessKeepsLimits(c, l.m, w.s.host);
    }
    assert forall now :: TimedOut(c, now) == {};
    hide Inv, Process, ParsePiece, TimedOut, S.PickBatch;
  }

  lemma BusyKeepsUnasked(w: World, l: Label)
    requires Inv(w) && l.a in w.workers && l.a in w.s.conns && Unasked(w, l.a)
    ensures Unasked(NextOfBusy(w, l, w.workers[l.a].pc, w.workers[l.a].tally), l.a)
  {
    InvValid(w);
    hide Inv, Complete, S.AddAll, S.Answers;
  }

  /** In every run, a peer that sends no bitfield is never asked for a block, whatever it announces. */
  lemma {:induction false} NeverAsked(meta: Meta, host: Host, run: seq<Label>, a: Addr)
    requires meta.WellFormed() && forall n | 0 <= n < |run| :: !SendsBitfield(run[n], a)
    ensures Unasked(Exec(meta, host, run), a)
  {
    hide Inv, Next, Unasked;
    if run == [] {
      assert Unasked(Init(meta, host), a) by { InitUnasked(meta, host, a); }
    } else {
      NeverAsked(meta, host, run[..|run| - 1], a);
      NextKeepsUnasked(Exec(meta, host, run[..|run| - 1]), run[|run| - 1], a);
    }
  }

  lemma InitUnasked(meta: Meta, host: Host, a: Addr)
    ensures Unasked(Init(meta, host), a)
  {
  }
}
