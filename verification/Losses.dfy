/**
 * Workers that vanish without their cleanup: what makes them vanish, when that
 * strands a requested block, and what becomes of it.
 */
module Losses {
  import opened Basics
  import opened Geometry
  import opened Downloads
  import opened Bitfields
  import opened Scanning
  import opened Wire
  import opened Pools
  import opened MetadataMessages
  import opened Connections
  import opened Protocol
  import opened Safety
  import opened Runs
  import opened Scripts
  import S = Sections

  // ---- what makes a worker vanish ----

  /**
   * A metadata request whose reader panics, or never returns. Either way the
   * worker takes no further section and its cleanup does not come.
   */
  ghost predicate RequestStops(build: Build, payload: bytes) {
    && payload != [] && payload[0] == OUR_UT_METADATA_ID
    && (ReaderPanics(build, payload[1..]) || ComesBack(build, payload[1..]))
  }

  lemma RequestStopsIff(build: Build, payload: bytes)
    ensures RequestStops(build, payload) <==>
      var read := ParseMetadataRequest(build, payload, OUR_UT_METADATA_ID);
      payload != [] && payload[0] == OUR_UT_METADATA_ID && (read.Panics? || read.Hangs?)
  {
    if payload != [] { ReaderPanicsIff(build, payload[1..]); }
    hide ReadDict, ReaderPanics, ComesBack;
  }

  lemma ProcessStopsIff(c: Conn, m: Message, host: Host)
    requires m.kind != Piece
    ensures Process(c, m, host).1 <==> m.kind == Extended && RequestStops(host.build, m.payload)
  {
    RequestStopsIff(host.build, m.payload);
    hide ParseMetadataRequest, RequestStops, ParseHandshakeId, Respond, ParseRequest, WithPiece;
  }

  /** The section is the last of its worker: it reads such a request, or stores the block that panics. */
  ghost predicate Panics(w: World, l: Label)
    requires w.s.Shaped()
  {
    && l.a in w.workers
    && var pc := w.workers[l.a].pc;
       || (l.Handle? && pc.Idle? && l.m.kind == Extended && RequestStops(w.s.host.build, l.m.payload))
       || (l.Store? && pc.Received? && StorePanics(w.s.dl, pc.block))
  }

  /** A worker ends before its main loop, or after its cleanup. */
  predicate Retires(pc: Pc, l: Label) { (l.Abandon? && pc.Starting?) || (l.Leave? && pc.Closing?) }

  lemma IdleVanishesIff(w: World, l: Label)
    requires Inv(w) && l.a in w.workers && w.workers[l.a].pc == Idle
    ensures l.a !in NextOfIdle(w, l).workers <==> Panics(w, l)
  {
    InvFacts(w, l.a);
    InvValid(w);
    if l.Handle? && l.m.kind != Piece { ProcessStopsIff(w.s.conns[l.a], l.m, w.s.host); }
    hide Inv, Process, ParsePiece, TimedOut, S.Choose, RequestStops, StorePanics;
  }

  lemma BusyVanishesIff(w: World, l: Label, pc: Pc)
    requires Inv(w) && l.a in w.workers && w.workers[l.a].pc == pc && !pc.Idle?
    ensures l.a !in NextOfBusy(w, l, pc, w.workers[l.a].tally).workers <==> Panics(w, l) || Retires(pc, l)
  {
    InvValid(w);
    if pc.Received? { StorePanicsIff(w.s.dl, pc.block, pc.data); }
    hide Inv, Complete, S.AddAll, S.Answers, S.DropUnsent, RequestStops, StorePanics;
  }

  /** A section ends its worker exactly when it panics, or is the worker's own end. */
  lemma VanishesIffPanics(w: World, l: Label)
    requires Inv(w) && l.a in w.workers
    ensures l.a !in Next(w, l).workers <==> Panics(w, l) || Retires(w.workers[l.a].pc, l)
  {
    InvValid(w);
    var pc := w.workers[l.a].pc;
    if !l.Join? { if pc.Idle? { IdleVanishesIff(w, l); } else { BusyVanishesIff(w, l, pc); } }
    hide Inv, NextOfIdle, NextOfBusy, RequestStops, StorePanics;
  }

  /** A panicking section leaves every connection as it is, and unmarks no more than the block it stores. */
  lemma PanicLeaves(w: World, l: Label)
    requires Inv(w) && Panics(w, l)
    ensures var (w', pc) := (Next(w, l), w.workers[l.a].pc);
      && w'.workers == w.workers - {l.a} && w'.s.conns == w.s.conns
      && w'.s.dl.requested == (if pc.Received? then w.s.dl.requested - {pc.block} else w.s.dl.requested)
  {
    InvFacts(w, l.a);
    InvValid(w);
    var pc := w.workers[l.a].pc;
    if pc.Received? {
      StorePanicsIff(w.s.dl, pc.block, pc.data);
      CompleteUnmarks(w.s.dl, pc.block, pc.data);
    } else {
      ProcessStopsIff(w.s.conns[l.a], l.m, w.s.host);
      PanicChangesNothing(w.s.conns[l.a], l.m, w.s.host);
      assert w.s.conns[l.a := w.s.conns[l.a]] == w.s.conns;
    }
    hide Inv, Process, Complete, RequestStops, StorePanics, Download.Valid;
  }

  // ---- runs without panics ----

  ghost predicate PanicFree(meta: Meta, host: Host, run: seq<Label>)
    requires meta.WellFormed()
  {
    forall n | 0 <= n < |run| :: !Panics(Exec(meta, host, run[..n]), run[n])
  }

  /** A connection without a worker, or whose worker is only starting, waits for nothing. */
  ghost predicate Attended(w: World) {
    forall a | a in w.s.conns && (a !in w.workers || w.workers[a].pc == Starting) :: w.s.conns[a].pending == map[]
  }

  lemma NextKeepsAttended(w: World, l: Label)
    requires Inv(w) && Attended(w) && !Panics(w, l)
    ensures Attended(Next(w, l))
  {
    forall a | a in Next(w, l).s.conns && (a !in Next(w, l).workers || Next(w, l).workers[a].pc == Starting)
      ensures Next(w, l).s.conns[a].pending == map[]
    {
      if a != l.a { OthersUntouched(w, l, a); } else { OwnStaysAttended(w, l); }
    }
  }

  lemma OwnStaysAttended(w: World, l: Label)
    requires Inv(w) && Attended(w) && !Panics(w, l)
    ensures var w' := Next(w, l);
      l.a in w'.s.conns && (l.a !in w'.workers || w'.workers[l.a].pc == Starting) ==> w'.s.conns[l.a].pending == map[]
  {
    if l.a in w.workers {
      VanishesIffPanics(w, l);
      OnlyJoinStarts(w, l);
      if Retires(w.workers[l.a].pc, l) { RetiringAttended(w, l); }
    }
    hide Inv, NextOf, Panics;
  }

  lemma OnlyJoinStarts(w: World, l: Label)
    requires Inv(w) && l.a in w.workers
    ensures var w' := Next(w, l);
      l.a in w'.workers && w'.workers[l.a].pc == Starting ==> w' == w
  {
    hide Inv, Complete, Process, ParsePiece, TimedOut, S.PickBatch, S.AddAll, S.Answers;
  }

  /** A worker that ends on its own leaves nothing pending. */
  lemma RetiringAttended(w: World, l: Label)
    requires Inv(w) && Attended(w) && l.a in w.workers && Retires(w.workers[l.a].pc, l)
    ensures var w' := Next(w, l); l.a in w'.s.conns ==> w'.s.conns[l.a].pending == map[]
  {
    hide Inv;
  }

  /** Every requested block is held where a live worker will answer for it. */
  ghost predicate Alive(w: World) {
    forall b | b in w.s.dl.requested :: exists a :: a in w.workers && b in HeldAt(w, a)
  }

  /** Without panics, every requested block has a live holder. */
  lemma {:induction false} HoldersAreAlive(meta: Meta, host: Host, run: seq<Label>)
    requires meta.WellFormed() && PanicFree(meta, host, run)
    ensures Attended(Exec(meta, host, run)) && Alive(Exec(meta, host, run))
  {
    hide Next;
    if run != [] {
      var init := run[..|run| - 1];
      forall n | 0 <= n < |init| ensures !Panics(Exec(meta, host, init[..n]), init[n]) {
        assert init[..n] == run[..n];
      }
      HoldersAreAlive(meta, host, init);
      NextKeepsAttended(Exec(meta, host, init), run[|run| - 1]);
    }
    AttendedIsAlive(Exec(meta, host, run));
  }

  lemma AttendedIsAlive(w: World)
    requires Inv(w) && Attended(w)
    ensures Alive(w)
  {
    forall b | b in w.s.dl.requested ensures exists a :: a in w.workers && b in HeldAt(w, a) {
      var a :| b in HeldAt(w, a);
      assert a in w.workers;
    }
  }

  // ---- harmful panics ----

  /** No other live worker answers for the block, and the panicking section does not unmark it. */
  ghost predicate Strands(w: World, l: Label, b: BlockInfo)
    requires l.a in w.workers
  {
    && b in w.s.dl.requested && !(w.workers[l.a].pc.Received? && w.workers[l.a].pc.block == b)
    && forall c | c in w.workers && c != l.a :: b !in HeldAt(w, c)
  }

  /** A panic whose worker had such a block pending. */
  ghost predicate HarmfulPanic(w: World, l: Label)
    requires w.s.Shaped()
  {
    Panics(w, l) && exists b | b in PendingAt(w, l.a) :: Strands(w, l, b)
  }

  /** Workers that are only starting have nothing pending. */
  ghost predicate StartsEmpty(w: World) {
    forall a | a in w.workers && a in w.s.conns && w.workers[a].pc == Starting :: w.s.conns[a].pending == map[]
  }

  lemma NextKeepsStartsEmpty(w: World, l: Label)
    requires Inv(w) && StartsEmpty(w)
    ensures StartsEmpty(Next(w, l))
  {
    var w' := Next(w, l);
    forall a | a in w'.workers && a in w'.s.conns && w'.workers[a].pc == Starting
      ensures w'.s.conns[a].pending == map[]
    {
      if a != l.a { OthersUntouched(w, l, a); } else if a in w.workers { OnlyJoinStarts(w, l); }
    }
  }

  /** A worker's own end strands nothing. */
  lemma RetiringReleases(w: World, l: Label, b: BlockInfo)
    requires Inv(w) && StartsEmpty(w) && l.a in w.workers && Retires(w.workers[l.a].pc, l)
    requires b in HeldAt(w, l.a)
    ensures b !in Next(w, l).s.dl.requested
  {
    InvFacts(w, l.a);
    InvValid(w);
    assert w.workers[l.a].pc == Starting ==> w.s.conns[l.a].pending == map[];
    hide *;
    RetiringUnmarks(w, l, b);
  }

  lemma RetiringUnmarks(w: World, l: Label, b: BlockInfo)
    requires w.s.Shaped() && l.a in w.workers && l.a in w.s.conns && Retires(w.workers[l.a].pc, l)
    requires w.workers[l.a].pc == Starting ==> w.s.conns[l.a].pending == map[]
    requires b in HeldAt(w, l.a)
    ensures b !in Next(w, l).s.dl.requested
  {
    hide Meta.WellFormed;
  }

  /** One block keeps a live holder through a section that does not panic. */
  lemma KeepsHolder(w: World, l: Label, b: BlockInfo)
    requires Inv(w) && Alive(w) && StartsEmpty(w) && !Panics(w, l) && b in Next(w, l).s.dl.requested
    ensures exists a :: a in Next(w, l).workers && b in HeldAt(Next(w, l), a)
  {
    var w' := Next(w, l);
    NextSound(w, l);
    if b in w.s.dl.requested {
      var a :| a in w.workers && b in HeldAt(w, a);
      if a != l.a {
        OthersUntouched(w, l, a);
        assert a in w'.workers && b in HeldAt(w', a);
      } else {
        VanishesIffPanics(w, l);
        if Retires(w.workers[a].pc, l) { RetiringReleases(w, l, b); }
        assert a in w'.workers && b in HeldAt(w', a);
      }
    } else {
      NewMarkIsLive(w, l, b);
      assert b in HeldAt(w', l.a);
    }
  }

  lemma RetiringMarksNothing(w: World, l: Label)
    requires w.s.Shaped() && l.a in w.workers && Retires(w.workers[l.a].pc, l)
    ensures Next(w, l).s.dl.requested <= w.s.dl.requested
  {
  }

  lemma NewMarkIsLive(w: World, l: Label, b: BlockInfo)
    requires Inv(w) && !Panics(w, l) && b !in w.s.dl.requested && b in Next(w, l).s.dl.requested
    ensures l.a in Next(w, l).workers
  {
    InvValid(w);
    if l.a in w.workers {
      VanishesIffPanics(w, l);
      if Retires(w.workers[l.a].pc, l) { RetiringMarksNothing(w, l); }
    }
    hide Inv, NextOf, Panics, Retires;
  }

  /** A panic leaves every requested block a live holder exactly when it is not harmful. */
  lemma PanicKeepsAliveIff(w: World, l: Label)
    requires Inv(w) && Alive(w) && Panics(w, l)
    ensures Alive(Next(w, l)) <==> !HarmfulPanic(w, l)
  {
    var w' := Next(w, l);
    PanicLeaves(w, l);
    forall c | c != l.a ensures HeldAt(w', c) == HeldAt(w, c) && (c in w'.workers <==> c in w.workers) {
      OthersUntouched(w, l, c);
    }
    forall b | b in HeldAt(w, l.a) && b in w'.s.dl.requested ensures b in PendingAt(w, l.a) {
      HandEmptied(w, l, b);
    }
    hide Inv, Next, Panics, HeldAt, PendingAt;
    if HarmfulPanic(w, l) {
      var b :| b in PendingAt(w, l.a) && Strands(w, l, b);
      assert b in w'.s.dl.requested;
    } else {
      forall b | b in w'.s.dl.requested ensures exists a :: a in w'.workers && b in HeldAt(w', a) {
        HolderLeft(w, l, b);
        var a :| a in w.workers && a != l.a && b in HeldAt(w, a);
        assert a in w'.workers && b in HeldAt(w', a);
      }
    }
  }

  /** The hand of a panicking worker holds at most the block it stores. */
  lemma HandEmptied(w: World, l: Label, b: BlockInfo)
    requires Inv(w) && Panics(w, l) && b in HeldAt(w, l.a) && b in Next(w, l).s.dl.requested
    ensures b in PendingAt(w, l.a)
  {
    PanicLeaves(w, l);
    hide Inv, Next;
  }

  lemma HolderLeft(w: World, l: Label, b: BlockInfo)
    requires Inv(w) && Alive(w) && Panics(w, l) && !HarmfulPanic(w, l) && b in Next(w, l).s.dl.requested
    ensures exists a :: a in w.workers && a != l.a && b in HeldAt(w, a)
  {
    PanicLeaves(w, l);
    var a :| a in w.workers && b in HeldAt(w, a);
    if a == l.a {
      HandEmptied(w, l, b);
      assert !Strands(w, l, b);
    }
  }

  lemma NextAliveIff(w: World, l: Label)
    requires Inv(w) && Alive(w) && StartsEmpty(w)
    ensures Alive(Next(w, l)) <==> !HarmfulPanic(w, l)
  {
    InvValid(w);
    if Panics(w, l) {
      PanicKeepsAliveIff(w, l);
    } else {
      forall b | b in Next(w, l).s.dl.requested
        ensures exists a :: a in Next(w, l).workers && b in HeldAt(Next(w, l), a)
      {
        KeepsHolder(w, l, b);
      }
    }
    hide Inv, Next, Panics, HeldAt;
  }

  ghost predicate NoHarmfulPanic(meta: Meta, host: Host, run: seq<Label>)
    requires meta.WellFormed()
  {
    forall n | 0 <= n < |run| :: !HarmfulPanic(Exec(meta, host, run[..n]), run[n])
  }

  ghost predicate AliveThroughout(meta: Meta, host: Host, run: seq<Label>)
    requires meta.WellFormed()
  {
    forall n | 0 <= n <= |run| :: Alive(Exec(meta, host, run[..n]))
  }

  lemma {:induction false} StartsEmptyAlways(meta: Meta, host: Host, run: seq<Label>)
    requires meta.WellFormed()
    ensures StartsEmpty(Exec(meta, host, run))
  {
    hide Next, Inv;
    if run != [] {
      StartsEmptyAlways(meta, host, run[..|run| - 1]);
      NextKeepsStartsEmpty(Exec(meta, host, run[..|run| - 1]), run[|run| - 1]);
    }
  }

  /**
   * All through a run every requested block is held where a live worker will
   * answer for it, exactly when no panic of the run strands one.
   */
  lemma {:induction false} AliveThroughoutIff(meta: Meta, host: Host, run: seq<Label>)
    requires meta.WellFormed()
    ensures AliveThroughout(meta, host, run) <==> NoHarmfulPanic(meta, host, run)
  {
    hide Inv, Next, Alive, HarmfulPanic, AliveThroughout, NoHarmfulPanic, StartsEmpty;
    if run == [] {
      NothingYet(meta, host);
    } else {
      var (init, l) := (run[..|run| - 1], run[|run| - 1]);
      AliveThroughoutIff(meta, host, init);
      AliveSnoc(meta, host, run);
      HarmSnoc(meta, host, run);
      StartsEmptyAlways(meta, host, init);
      if Alive(Exec(meta, host, init)) { NextAliveIff(Exec(meta, host, init), l); }
    }
  }

  lemma NothingYet(meta: Meta, host: Host)
    requires meta.WellFormed()
    ensures AliveThroughout(meta, host, []) && NoHarmfulPanic(meta, host, [])
  {
  }

  lemma AliveSnoc(meta: Meta, host: Host, run: seq<Label>)
    requires meta.WellFormed() && run != []
    ensures var init := run[..|run| - 1];
      && (AliveThroughout(meta, host, run) <==>
            AliveThroughout(meta, host, init) && Alive(Exec(meta, host, run)))
      && (AliveThroughout(meta, host, init) ==> Alive(Exec(meta, host, init)))
  {
    hide Alive, Exec;
    var init := run[..|run| - 1];
    assert run[..|run|] == run && init[..|init|] == init;
    forall n | 0 <= n <= |init| ensures init[..n] == run[..n] {}
  }

  lemma HarmSnoc(meta: Meta, host: Host, run: seq<Label>)
    requires meta.WellFormed() && run != []
    ensures var init := run[..|run| - 1];
      NoHarmfulPanic(meta, host, run) <==>
        NoHarmfulPanic(meta, host, init) && !HarmfulPanic(Exec(meta, host, init), run[|run| - 1])
  {
    hide HarmfulPanic, Exec;
    var init := run[..|run| - 1];
    forall n | 0 <= n < |init| ensures init[..n] == run[..n] && init[n] == run[n] {}
  }

  // ---- connections and blocks that are lost ----

  /** A connection without a worker stays so: its address is never dialled again. */
  lemma {:induction false} NeverDialledAgain(w: World, run: seq<Label>, a: Addr)
    requires Inv(w) && a in w.s.conns && a !in w.workers
    ensures a in After(w, run).s.conns && a !in After(w, run).workers
    ensures After(w, run).s.conns[a] == w.s.conns[a]
    decreases |run|
  {
    if run != [] {
      NextKeepsInv(w, run[0]);
      if run[0].a != a { OthersUntouched(w, run[0], a); }
      assert a in Next(w, run[0]).s.conns && a !in Next(w, run[0]).workers;
      assert Next(w, run[0]).s.conns[a] == w.s.conns[a];
      hide Next, Inv;
      NeverDialledAgain(Next(w, run[0]), run[1..], a);
    }
  }

  /** Every connection of the table has a worker. */
  ghost predicate Manned(w: World) { forall a | a in w.s.conns :: a in w.workers }

  /** A section that takes the worker from a connection: a panic, or an end before the main loop. */
  ghost predicate Unmans(w: World, l: Label)
    requires w.s.Shaped()
  {
    Panics(w, l) || (l.Abandon? && l.a in w.workers && w.workers[l.a].pc.Starting?)
  }

  lemma OwnManned(w: World, l: Label)
    requires Inv(w) && l.a in w.workers
    ensures var w' := Next(w, l); (l.a in w'.s.conns ==> l.a in w'.workers) <==> !Unmans(w, l)
  {
    InvFacts(w, l.a);
    InvValid(w);
    VanishesIffPanics(w, l);
    if Panics(w, l) {
      PanicLeaves(w, l);
    } else if Retires(w.workers[l.a].pc, l) {
      RetiringConnection(w, l);
    }
    hide Inv, Next, Panics;
  }

  /** A worker's own end removes its connection, unless it is an end before the main loop. */
  lemma RetiringConnection(w: World, l: Label)
    requires Inv(w) && l.a in w.workers && l.a in w.s.conns && Retires(w.workers[l.a].pc, l)
    ensures l.a in Next(w, l).s.conns <==> l.Abandon?
  {
    hide Inv, Download.Valid;
  }

  lemma JoinedManned(w: World, l: Label)
    requires Inv(w) && Manned(w) && l.a !in w.workers
    ensures var w' := Next(w, l); l.a in w'.s.conns ==> l.a in w'.workers
  {
    hide Inv;
  }

  /** A section leaves every connection its worker exactly when it is neither of these. */
  lemma NextMannedIff(w: World, l: Label)
    requires Inv(w) && Manned(w)
    ensures Manned(Next(w, l)) <==> !Unmans(w, l)
  {
    InvValid(w);
    var w' := Next(w, l);
    forall a | a != l.a ensures a in w'.s.conns ==> a in w'.workers { OthersUntouched(w, l, a); }
    if l.a in w.workers { OwnManned(w, l); } else { JoinedManned(w, l); }
    hide Inv, Next, Retires;
  }

  ghost predicate NoneUnmanned(meta: Meta, host: Host, run: seq<Label>)
    requires meta.WellFormed()
  {
    forall n | 0 <= n < |run| :: !Unmans(Exec(meta, host, run[..n]), run[n])
  }

  /** After a run every connection has its worker exactly when no section of the run took one away. */
  lemma {:induction false} MannedIff(meta: Meta, host: Host, run: seq<Label>)
    requires meta.WellFormed()
    ensures Manned(Exec(meta, host, run)) <==> NoneUnmanned(meta, host, run)
  {
    hide Inv, Next, Unmans, NoneUnmanned, Manned;
    if run == [] {
      MannedAtFirst(meta, host);
    } else {
      var (init, l) := (run[..|run| - 1], run[|run| - 1]);
      var w := Exec(meta, host, init);
      MannedIff(meta, host, init);
      UnmannedSnoc(meta, host, run);
      if Manned(w) { NextMannedIff(w, l); } else { UnmannedStays(w, l); }
    }
  }

  lemma MannedAtFirst(meta: Meta, host: Host)
    requires meta.WellFormed()
    ensures Manned(Exec(meta, host, [])) && NoneUnmanned(meta, host, [])
  {
  }

  lemma UnmannedSnoc(meta: Meta, host: Host, run: seq<Label>)
    requires meta.WellFormed() && run != []
    ensures var init := run[..|run| - 1];
      NoneUnmanned(meta, host, run) <==>
        NoneUnmanned(meta, host, init) && !Unmans(Exec(meta, host, init), run[|run| - 1])
  {
    hide Unmans, Exec;
    var init := run[..|run| - 1];
    forall n | 0 <= n < |init| ensures init[..n] == run[..n] && init[n] == run[n] {}
  }

  lemma UnmannedStays(w: World, l: Label)
    requires Inv(w) && !Manned(w)
    ensures !Manned(Next(w, l))
  {
    var a :| a in w.s.conns && a !in w.workers;
    NeverDialledAgain(w, [l], a);
    AfterOne(w, l);
    hide Inv, Next, After;
  }

  lemma AfterOne(w: World, l: Label)
    requires Inv(w)
    ensures After(w, [l]) == Next(w, l)
  {
    hide Inv, Next;
  }

  /** The block is about to be stored at c without having been asked of it. */
  predicate Unbidden(w: World, c: Addr, b: BlockInfo) {
    c in w.workers && w.workers[c].pc.Received? && w.workers[c].pc.block == b
  }

  /** b is marked, and pending only on the connection of a, whose worker is gone. */
  ghost predicate Lost(w: World, a: Addr, b: BlockInfo) {
    && a in w.s.conns && a !in w.workers && b in w.s.conns[a].pending && b in w.s.dl.requested
    && forall c | c != a :: b !in HeldAt(w, c) && !Unbidden(w, c, b)
  }

  /** A piece message that carries the block. */
  predicate Delivers(l: Label, b: BlockInfo) {
    l.Handle? && l.m.kind == Piece && ParsePiece(l.m.payload).Some? && ParsePiece(l.m.payload).value.0 == b
  }

  /** b is still marked, and c has nothing to do with it. */
  ghost predicate Spares(w: World, c: Addr, b: BlockInfo) {
    b in w.s.dl.requested && b !in HeldAt(w, c) && !Unbidden(w, c, b)
  }

  lemma ChosenWereUnmarked(s: S.Shared, a: Addr, start: nat)
    requires s.dl.Valid() && a in s.conns
    ensures forall b | b in S.Choose(s, a, start).1 :: b !in s.dl.requested
  {
    var (c, d) := (s.conns[a], s.dl);
    assert s.Shaped();
    if c.bitfield.Some? {
      S.BatchIsFresh(d, S.PiecesOf(c.bitfield.value, d.meta.totalPieces), start, S.FreeSlots(c));
    }
    hide Download.Valid, S.PickBatch;
  }

  lemma ChooseSpares(w: World, a: Addr, start: nat, b: BlockInfo)
    requires Inv(w) && a in w.workers && w.workers[a].pc == Idle && Spares(w, a, b)
    ensures var (s, batch, depth) := S.Choose(w.s, a, start);
      Spares(Then(w, a, s, if batch == [] then Idle else Picked(batch, depth)), a, b)
  {
    InvFacts(w, a);
    ChooseMarks(w.s, a, start);
    ChosenWereUnmarked(w.s, a, start);
    hide Inv, S.Choose, ConnOk, WorkerOk, Download.Valid;
  }

  lemma TakeKeeps(w: World, a: Addr, payload: bytes, b: BlockInfo)
    requires a in w.workers && a in w.s.conns && w.workers[a].pc == Idle && Spares(w, a, b)
    requires ParsePiece(payload).Some? ==> ParsePiece(payload).value.0 != b
    ensures Spares(TakePiece(w, a, payload), a, b)
  {
    hide ParsePiece;
  }

  lemma TakeSpares(w: World, a: Addr, payload: bytes, b: BlockInfo)
    requires Inv(w) && a in w.workers && w.workers[a].pc == Idle && Spares(w, a, b)
    requires ParsePiece(payload).Some? ==> ParsePiece(payload).value.0 != b
    ensures Spares(TakePiece(w, a, payload), a, b)
  {
    InvFacts(w, a);
    hide *;
    TakeKeeps(w, a, payload, b);
  }

  lemma HandleSpares(w: World, a: Addr, m: Message, b: BlockInfo)
    requires Inv(w) && a in w.workers && w.workers[a].pc == Idle && Spares(w, a, b) && m.kind != Piece
    ensures var (s, stuck) := S.HandleMessage(w.s, a, m);
      Spares(if stuck then Gone(w, a, s) else Then(w, a, s, Idle), a, b)
  {
    InvFacts(w, a);
    ProcessKeepsLimits(w.s.conns[a], m, w.s.host);
    hide Inv, Process, ConnOk, WorkerOk, Download.Valid, ShortQueue;
  }

  lemma ExpireSpares(w: World, a: Addr, now: nat, b: BlockInfo)
    requires Inv(w) && a in w.workers && w.workers[a].pc == Idle && Spares(w, a, b)
    ensures var (s, expired) := S.Expire(w.s, a, now);
      Spares(Then(w, a, s, if expired == {} then Idle else Expired(expired)), a, b)
  {
    InvFacts(w, a);
    hide *;
    ExpireKeeps(w, a, now, b);
  }

  lemma ExpireKeeps(w: World, a: Addr, now: nat, b: BlockInfo)
    requires a in w.workers && a in w.s.conns && w.workers[a].pc == Idle && Spares(w, a, b)
    ensures var (s, expired) := S.Expire(w.s, a, now);
      Spares(Then(w, a, s, if expired == {} then Idle else Expired(expired)), a, b)
  {
  }

  lemma PlainKeeps(w: World, l: Label, b: BlockInfo)
    requires w.s.Shaped() && l.a in w.workers && l.a in w.s.conns && w.workers[l.a].pc == Idle && Spares(w, l.a, b)
    requires !l.Handle? && !l.Expire? && !l.Choose?
    ensures Spares(NextOfIdle(w, l), l.a, b)
  {
    hide Meta.WellFormed;
  }

  lemma PlainSpares(w: World, l: Label, b: BlockInfo)
    requires Inv(w) && l.a in w.workers && w.workers[l.a].pc == Idle && Spares(w, l.a, b)
    requires !l.Handle? && !l.Expire? && !l.Choose?
    ensures Spares(NextOfIdle(w, l), l.a, b)
  {
    InvFacts(w, l.a);
    InvValid(w);
    hide *;
    PlainKeeps(w, l, b);
  }

  /** A worker that has nothing to do with a marked block stays away from it. */
  lemma IdleSpares(w: World, l: Label, b: BlockInfo)
    requires Inv(w) && l.a in w.workers && w.workers[l.a].pc == Idle && Spares(w, l.a, b) && !Delivers(l, b)
    ensures Spares(NextOfIdle(w, l), l.a, b)
  {
    InvValid(w);
    hide Inv, Spares, S.Choose, S.Expire, S.HandleMessage, TakePiece, ParsePiece, Then, Gone;
    if l.Handle? {
      if l.m.kind == Piece { TakeSpares(w, l.a, l.m.payload, b); } else { HandleSpares(w, l.a, l.m, b); }
    } else if l.Expire? {
      ExpireSpares(w, l.a, l.now, b);
    } else if l.Choose? {
      ChooseSpares(w, l.a, l.start, b);
    } else {
      PlainSpares(w, l, b);
    }
  }

  lemma StoreSpares(w: World, a: Addr, b: BlockInfo)
    requires Inv(w) && a in w.workers && w.workers[a].pc.Received? && Spares(w, a, b)
    ensures var pc := w.workers[a].pc; Spares(StoreTaken(w, a, pc.block, pc.data), a, b)
  {
    InvValid(w);
    var pc := w.workers[a].pc;
    CompleteUnmarks(w.s.dl, pc.block, pc.data);
    hide Inv, Complete, Download.Valid;
  }

  lemma AddSpares(w: World, a: Addr, times: seq<nat>, b: BlockInfo)
    requires Inv(w) && a in w.workers && w.workers[a].pc.Picked? && |times| == |w.workers[a].pc.batch|
    requires Spares(w, a, b)
    ensures var pc := w.workers[a].pc;
      Spares(Then(w, a, S.AddBatch(w.s, a, pc.batch, times), Sending(pc.batch, pc.depth)), a, b)
  {
    InvFacts(w, a);
    hide *;
    AddKeeps(w, a, times, b);
  }

  lemma AddKeeps(w: World, a: Addr, times: seq<nat>, b: BlockInfo)
    requires a in w.workers && a in w.s.conns && w.workers[a].pc.Picked?
    requires |times| == |w.workers[a].pc.batch| && Spares(w, a, b)
    ensures var pc := w.workers[a].pc;
      Spares(Then(w, a, S.AddBatch(w.s, a, pc.batch, times), Sending(pc.batch, pc.depth)), a, b)
  {
    S.AddedAreBatch(w.s.conns[a], w.workers[a].pc.batch, times);
    hide S.AddAll, Elements;
  }

  lemma UndoSpares(w: World, a: Addr, b: BlockInfo)
    requires Inv(w) && a in w.workers && w.workers[a].pc.Unsent? && Spares(w, a, b)
    ensures var pc := w.workers[a].pc;
      Spares(Then(w, a, S.DropUnsent(w.s, a, pc.failed), Sent(pc.count, pc.depth)), a, b)
  {
    InvFacts(w, a);
    var pc := w.workers[a].pc;
    assert Elements(pc.failed) <= w.s.conns[a].pending.Keys;
    hide Inv, ConnOk, WorkerOk, Download.Valid, Elements, NoDup;
  }

  lemma LeaveSpares(w: World, a: Addr, b: BlockInfo)
    requires Inv(w) && a in w.workers && w.workers[a].pc == Closing && Spares(w, a, b)
    ensures Spares(Gone(w, a, S.Disconnect(w.s, a)), a, b)
  {
    InvFacts(w, a);
    hide Inv, ConnOk, WorkerOk, Download.Valid;
  }

  /** Other steps keep what is pending, and unmark no more than what they held. */
  lemma SteadyKeeps(w: World, l: Label, b: BlockInfo)
    requires w.s.Shaped() && l.a in w.workers && l.a in w.s.conns && Spares(w, l.a, b)
    requires !l.Store? && !l.Add? && !l.Undo? && !l.Leave?
    ensures Spares(NextOfBusy(w, l, w.workers[l.a].pc, w.workers[l.a].tally), l.a, b)
  {
    hide S.Answers, Elements, Meta.WellFormed;
    var (a, pc, t) := (l.a, w.workers[l.a].pc, w.workers[l.a].tally);
    var w' := NextOfBusy(w, l, pc, t);
    assert b !in Hand(pc) && b !in w.s.conns[a].pending;
    if l.Release? && pc.Expired? {
      assert w'.s.dl.requested == w.s.dl.requested - pc.blocks && w'.s.conns == w.s.conns;
    } else {
      assert w'.s.dl.requested == w.s.dl.requested && PendingAt(w', a) == PendingAt(w, a);
    }
    assert a in w'.workers ==> Hand(w'.workers[a].pc) <= Hand(pc);
    hide NextOfBusy, Hand;
  }

  lemma SteadySpares(w: World, l: Label, b: BlockInfo)
    requires Inv(w) && l.a in w.workers && Spares(w, l.a, b)
    requires !l.Store? && !l.Add? && !l.Undo? && !l.Leave?
    ensures Spares(NextOfBusy(w, l, w.workers[l.a].pc, w.workers[l.a].tally), l.a, b)
  {
    InvFacts(w, l.a);
    InvValid(w);
    hide *;
    SteadyKeeps(w, l, b);
  }

  lemma BusySpares(w: World, l: Label, b: BlockInfo)
    requires Inv(w) && l.a in w.workers && Spares(w, l.a, b)
    ensures Spares(NextOfBusy(w, l, w.workers[l.a].pc, w.workers[l.a].tally), l.a, b)
  {
    InvValid(w);
    hide Inv, Spares, StoreTaken, S.AddBatch, S.DropUnsent, S.Disconnect, Then, Gone;
    var pc := w.workers[l.a].pc;
    if l.Store? {
      if pc.Received? { StoreSpares(w, l.a, b); }
    } else if l.Add? {
      if pc.Picked? && |l.times| == |pc.batch| { AddSpares(w, l.a, l.times, b); }
    } else if l.Undo? {
      if pc.Unsent? { UndoSpares(w, l.a, b); }
    } else if l.Leave? {
      if pc.Closing? { LeaveSpares(w, l.a, b); }
    } else {
      SteadySpares(w, l, b);
    }
  }

  lemma NextSpares(w: World, l: Label, a: Addr, b: BlockInfo)
    requires Inv(w) && Lost(w, a, b) && !Delivers(l, b) && l.a != a
    ensures Spares(Next(w, l), l.a, b)
  {
    InvValid(w);
    assert Spares(w, l.a, b);
    if l.a in w.workers {
      if w.workers[l.a].pc.Idle? { IdleSpares(w, l, b); } else { BusySpares(w, l, b); }
    } else if l.Join? && l.a !in w.s.conns {
      JoinSpares(w, l.a, b);
    }
    hide Inv, NextOfIdle, NextOfBusy, Spares, Lost, Delivers;
  }

  lemma JoinSpares(w: World, a: Addr, b: BlockInfo)
    requires Spares(w, a, b)
    ensures Spares(Tallied(w, a, S.Connect(w.s, a), Starting, Tally(0, 0, 0)), a, b)
  {
  }

  lemma NextKeepsLost(w: World, l: Label, a: Addr, b: BlockInfo)
    requires Inv(w) && Lost(w, a, b) && !Delivers(l, b)
    ensures Lost(Next(w, l), a, b)
  {
    var w' := Next(w, l);
    if l.a == a {
      assert w' == w;
    } else {
      NextSpares(w, l, a, b);
      OthersUntouched(w, l, a);
      forall c | c != a ensures b !in HeldAt(w', c) && !Unbidden(w', c, b) {
        if c != l.a { OthersUntouched(w, l, c); }
      }
    }
    hide Inv, Next, HeldAt, Delivers;
  }

  /**
   * A lost block stays lost, and so requested: whatever happens, nobody picks it,
   * unless some peer sends it without having been asked.
   */
  lemma {:induction false} LostForGood(w: World, run: seq<Label>, a: Addr, b: BlockInfo)
    requires Inv(w) && Lost(w, a, b) && forall n | 0 <= n < |run| :: !Delivers(run[n], b)
    ensures Lost(After(w, run), a, b)
    decreases |run|
  {
    InvValid(w);
    hide Next, Inv, Lost, Delivers;
    if run != [] {
      NextKeepsInv(w, run[0]);
      NextKeepsLost(w, run[0], a, b);
      LostForGood(Next(w, run[0]), run[1..], a, b);
    }
  }

  /** A panic that strands a block which no other peer is about to send loses it. */
  lemma PanicLoses(w: World, l: Label, b: BlockInfo)
    requires Inv(w) && Panics(w, l) && b in PendingAt(w, l.a) && Strands(w, l, b)
    requires forall c | c != l.a :: b !in HeldAt(w, c) && !Unbidden(w, c, b)
    ensures Lost(Next(w, l), l.a, b)
  {
    var w' := Next(w, l);
    PanicLeaves(w, l);
    forall c | c != l.a ensures SameAt(w, w', c) && HeldAt(w', c) == HeldAt(w, c) { OthersUntouched(w, l, c); }
    hide Inv, Next, Panics, HeldAt;
  }

  // ---- runs that lose something ----

  function AbandonRun(a: Addr): seq<Label> { [Join(a), Abandon(a)] }

  /** A write that fails before the main loop leaves a connection nobody looks after. */
  lemma EarlyEndLeavesConnection(w: World, a: Addr)
    requires Inv(w) && a !in w.s.conns && a !in w.workers
    ensures var w' := After(w, AbandonRun(a)); a in w'.s.conns && a !in w'.workers
  {
    var w1, w2 := Two(w, AbandonRun(a));
    hide Inv, After;
  }

  /** One piece message of a piece the torrent does not have. */
  const STRAY := PieceMessage(5, 0, [7])

  const STRAY_BLOCK := BlockInfo(5, 0, 1)

  function StrayRun(a: Addr): seq<Label> { [Handle(a, STRAY), Label.Store(a)] }

  /** Send and count the request, and so return to the main loop. */
  function SendRun(a: Addr): seq<Label> { [Label.Send(a, 1), Label.CountSent(a)] }

  lemma Sends(w: World, a: Addr)
    requires Inv(w) && Asking(w, a)
    ensures var w' := After(w, SendRun(a));
      && w'.s.dl == w.s.dl && a in w'.s.conns && BLOCK in w'.s.conns[a].pending
      && a in w'.workers && w'.workers[a].pc == Idle
  {
    InvValid(w);
    Writes(w, a);
    var w1, w2 := Two(w, SendRun(a));
    InvValid(w1);
    hide Inv, After, Next, Meta.WellFormed;
    Counts(w1, a);
  }

  lemma Writes(w: World, a: Addr)
    requires w.s.Shaped() && Asking(w, a)
    ensures var w' := Next(w, Label.Send(a, 1)); w'.s == w.s && a in w'.workers && w'.workers[a].pc == Sent(1, 1)
  {
    hide Meta.WellFormed;
  }

  lemma Counts(w: World, a: Addr)
    requires w.s.Shaped() && a in w.workers && w.workers[a].pc == Sent(1, 1)
    ensures var w' := Next(w, Label.CountSent(a));
      w'.s.dl == w.s.dl && w'.s.conns == w.s.conns && a in w'.workers && w'.workers[a].pc == Idle
  {
  }

  lemma TakesStray(w: World, a: Addr)
    requires Inv(w) && a in w.s.conns && a in w.workers && w.workers[a].pc == Idle
    requires STRAY_BLOCK !in w.s.conns[a].pending
    ensures var w' := Next(w, Handle(a, STRAY));
      && w'.s.dl == w.s.dl && PendingAt(w', a) == PendingAt(w, a)
      && a in w'.workers && w'.workers[a].pc == Received(STRAY_BLOCK, [7], false)
  {
    PieceRoundTrip(5, 0, [7]);
    hide Inv, ParsePiece, PieceMessage;
  }

  lemma StrayPanics(d: Download)
    requires Tiny(d.meta) && d.meta.WellFormed() && d.blocks == map[]
    ensures StorePanics(d, STRAY_BLOCK)
  {
    assert d.meta.BlocksIn(5) == 1;
  }

  lemma StrayIsNoTile(w: World, a: Addr)
    requires Inv(w) && Tiny(w.s.dl.meta) && a in w.s.conns && a in w.workers
    ensures STRAY_BLOCK !in w.s.conns[a].pending
  {
    InvFacts(w, a);
    InvValid(w);
  }

  /** Having asked for the block and gone back to its main loop, alone. */
  ghost predicate Waiting(w: World, a: Addr) {
    && Tiny(w.s.dl.meta) && w.s.dl.blocks == map[] && BLOCK in w.s.dl.requested
    && a in w.s.conns && a in w.workers && w.workers[a].pc == Idle && BLOCK in w.s.conns[a].pending
    && forall c | c != a :: c !in w.workers && c !in w.s.conns
  }

  /** An idle worker with the block pending, and then a message for a piece out of range: the block is lost. */
  lemma StrayLoses(w: World, a: Addr)
    requires Inv(w) && Waiting(w, a)
    ensures var w1 := Next(w, Handle(a, STRAY));
      Inv(w1) && HarmfulPanic(w1, Label.Store(a)) && Lost(Next(w1, Label.Store(a)), a, BLOCK)
  {
    InvValid(w);
    StrayIsNoTile(w, a);
    TakesStray(w, a);
    NextKeepsInv(w, Handle(a, STRAY));
    var w1, l := Next(w, Handle(a, STRAY)), Label.Store(a);
    forall c | c != a ensures HeldAt(w1, c) == {} && c !in w1.workers {
      OthersUntouched(w, Handle(a, STRAY), c);
    }
    StrayPanics(w1.s.dl);
    hide Inv, Next, StorePanics, STRAY;
    assert Panics(w1, l) && Strands(w1, l, BLOCK);
    PanicLoses(w1, l, BLOCK);
  }

  /** Take the block, ask for it, and be sent the stray piece. */
  function LossRun(a: Addr): seq<Label> { FetchRun(a) + SendRun(a) + StrayRun(a) }

  lemma NobodyElse(w: World, a: Addr, run: seq<Label>)
    requires Inv(w) && (forall c :: c !in w.workers && c !in w.s.conns) && forall i | 0 <= i < |run| :: run[i].a == a
    ensures forall c | c != a :: c !in After(w, run).workers && c !in After(w, run).s.conns
  {
    forall c | c != a ensures c !in After(w, run).workers && c !in After(w, run).s.conns {
      OthersKept(w, a, run, c);
    }
  }

  lemma FetchesAndSends(w: World, a: Addr)
    requires Inv(w) && Blank(w) && a !in w.s.conns && a !in w.workers
    ensures var w' := After(w, FetchRun(a) + SendRun(a));
      && w'.s.dl == w.s.dl.(requested := {BLOCK}) && a in w'.s.conns && BLOCK in w'.s.conns[a].pending
      && a in w'.workers && w'.workers[a].pc == Idle
  {
    hide Inv, Next, HeldAt, SameAt;
    Fetches(w, a, Addr(a.ip + 1, a.port));
    Sends(After(w, FetchRun(a)), a);
    AfterTwice(w, FetchRun(a), SendRun(a));
    hide After, FetchRun, SendRun, Blank;
  }

  lemma Waits(w: World, a: Addr)
    requires Inv(w) && Blank(w) && forall c :: c !in w.workers && c !in w.s.conns
    ensures Waiting(After(w, FetchRun(a) + SendRun(a)), a)
  {
    hide Inv, After;
    FetchesAndSends(w, a);
    NobodyElse(w, a, FetchRun(a) + SendRun(a));
    hide FetchRun, SendRun;
  }

  lemma Loses(w: World, a: Addr)
    requires Inv(w) && Waiting(w, a)
    ensures Lost(After(w, StrayRun(a)), a, BLOCK)
  {
    StrayLoses(w, a);
    hide Inv, Next, Lost, Waiting;
    var w1, w2 := Two(w, StrayRun(a));
  }

  /**
   * From the start: a reachable state in which a block is requested, pending on a
   * connection whose worker is gone, and so will never be picked again.
   */
  lemma ReachableLoss(m: Meta, host: Host, a: Addr)
    requires Tiny(m)
    ensures m.WellFormed() && Lost(Exec(m, host, LossRun(a)), a, BLOCK)
  {
    TinyShape(m);
    var w := Exec(m, host, []);
    assert w == Init(m, host) && Blank(w);
    Waits(w, a);
    hide Inv, Waiting, Lost, Next;
    Loses(After(w, FetchRun(a) + SendRun(a)), a);
    AfterTwice(w, FetchRun(a) + SendRun(a), StrayRun(a));
    ExecThenAfter(m, host, [], LossRun(a));
    assert [] + LossRun(a) == LossRun(a);
  }

  /** The run of that state has a harmful panic. */
  lemma LossIsHarmful(m: Meta, host: Host, a: Addr)
    requires Tiny(m)
    ensures m.WellFormed() && !NoHarmfulPanic(m, host, LossRun(a))
  {
    ReachableLoss(m, host, a);
    var run := LossRun(a);
    var w := Exec(m, host, run);
    assert run[..|run|] == run;
    assert !Alive(w) by { LostHasNoHolder(w, a, BLOCK); }
    AliveThroughoutIff(m, host, run);
  }

  lemma LostHasNoHolder(w: World, a: Addr, b: BlockInfo)
    requires Lost(w, a, b)
    ensures !Alive(w)
  {
    hide HeldAt;
    assert b in w.s.dl.requested && forall c | c in w.workers :: b !in HeldAt(w, c);
  }
}
