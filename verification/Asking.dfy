/**
 * Whom a worker asks, for what, and when: the choice of blocks told from what
 * its peer has said, in every run.
 */
module Asking {
  import opened Basics
  import opened Numbers
  import opened Geometry
  import opened Downloads
  import opened Bitfields
  import opened Wire
  import opened Pools
  import opened MetadataMessages
  import opened Connections
  import opened Protocol
  import opened Safety
  import opened Runs
  import S = Sections

  // ---- what is chosen ----

  /** A block of a missing piece that nobody has asked for or stored. */
  predicate Wanted(d: Download, b: BlockInfo)
    requires d.meta.WellFormed() && |d.pieces| == d.meta.totalPieces
  {
    d.meta.IsTile(b) && d.pieces[b.piece].None? && b !in d.requested && !d.Stored(b)
  }

  /** The peer has sent a bitfield with the bit of this piece set. */
  predicate Offers(c: Conn, p: nat) { c.bitfield.Some? && HasPieceIn(c.bitfield.value, p) }

  lemma EligibleIsOffered(d: Download, bits: bytes, b: BlockInfo)
    requires d.meta.WellFormed() && |d.pieces| == d.meta.totalPieces
    ensures d.Eligible(S.PiecesOf(bits, d.meta.totalPieces), b) <==> Wanted(d, b) && HasPieceIn(bits, b.piece)
  {
    hide HasPieceIn;
  }

  /**
   * Only wanted blocks of pieces the peer offers are chosen, each once, and they
   * are marked and nothing else changes. The pipeline reaches ten, or nothing
   * wanted is left of what the peer offers.
   */
  lemma ChooseTakesOffered(s: S.Shared, a: Addr, start: nat)
    requires s.Shaped()
    ensures var (s', batch, depth) := S.Choose(s, a, start);
      && s' == s.(dl := s.dl.(requested := s.dl.requested + Elements(batch))) && NoDup(batch)
      && (a !in s.conns || s.conns[a].bitfield == None ==> batch == [])
      && (a in s.conns && s.conns[a].bitfield.Some? ==>
            var (c, d) := (s.conns[a], s.dl);
            && (forall b | b in batch :: Wanted(d, b) && Offers(c, b.piece))
            && depth == |c.pending| + |batch|
            && |batch| <= (if |c.pending| < 10 then 10 - |c.pending| else 0)
            && (depth < 10 ==> forall b :: Wanted(s'.dl, b) ==> !Offers(c, b.piece)))
  {
    var d := s.dl;
    if a in s.conns && s.conns[a].bitfield.Some? {
      var (c, bits) := (s.conns[a], s.conns[a].bitfield.value);
      var (has, n) := (S.PiecesOf(bits, d.meta.totalPieces), S.FreeSlots(c));
      var d' := S.PickBatch(d, has, start, n).0;
      S.BatchIsFresh(d, has, start, n);
      S.ShortBatchLeavesNothing(d, has, start, n);
      forall b ensures d.Eligible(has, b) <==> Wanted(d, b) && Offers(c, b.piece) { EligibleIsOffered(d, bits, b); }
      forall b ensures d'.Eligible(has, b) <==> Wanted(d', b) && Offers(c, b.piece) { EligibleIsOffered(d', bits, b); }
      assert n == if |c.pending| < 10 then 10 - |c.pending| else 0;
      hide S.PickBatch, S.PiecesOf, S.FreeSlots, Download.Eligible, Wanted, Offers, NoDup;
    } else {
      S.BatchEmpty(d);
    }
  }

  /** The blocks come in the order of the scan, and none that comes before one of them is left out. */
  lemma ChooseInOrder(s: S.Shared, a: Addr, start: nat, i: nat, c: BlockInfo)
    requires s.Shaped() && a in s.conns
    requires var batch := S.Choose(s, a, start).1;
      i < |batch| && Wanted(s.dl, c) && Offers(s.conns[a], c.piece) && c !in batch[..i + 1]
    ensures var b := S.Choose(s, a, start).1[i];
      b.piece < s.dl.meta.totalPieces && Before(s.dl.meta.totalPieces, start, b, c)
  {
    var bits := s.conns[a].bitfield.value;
    EligibleIsOffered(s.dl, bits, c);
    S.BatchInOrder(s.dl, S.PiecesOf(bits, s.dl.meta.totalPieces), start, S.FreeSlots(s.conns[a]), i, c);
    hide S.PickBatch, S.PiecesOf, S.FreeSlots, Download.Eligible, Wanted, HasPieceIn, Before;
  }

  /** The worker is in its main loop, its peer does not choke it, and its pipeline has room for a wanted block. */
  ghost predicate MayAsk(w: World, a: Addr)
    requires w.s.Shaped()
  {
    && a in w.workers && w.workers[a].pc == Idle && a in w.s.conns
    && var c := w.s.conns[a];
       && c.amInterested && !c.peerChoking && |c.pending| < 10
       && exists b :: Wanted(w.s.dl, b) && Offers(c, b.piece)
  }

  /** What the section that chooses did: it went on with new marks, in its hand and nowhere else. */
  ghost predicate Asked(w: World, w': World, a: Addr)
    requires w.s.Shaped() && a in w.s.conns && a in w.workers
  {
    && a in w'.workers && w'.workers[a].pc.Picked?
    && var (c, batch) := (w.s.conns[a], w'.workers[a].pc.batch);
       && batch != [] && NoDup(batch) && |c.pending| + |batch| <= 10
       && w' == World(w.s.(dl := w.s.dl.(requested := w.s.dl.requested + Elements(batch))),
                      w.workers[a := w.workers[a].(pc := Picked(batch, |c.pending| + |batch|))])
       && (forall b | b in batch :: Wanted(w.s.dl, b) && Offers(c, b.piece))
       && (|c.pending| + |batch| == 10 || forall b :: w'.s.Shaped() && Wanted(w'.s.dl, b) ==> !Offers(c, b.piece))
  }

  lemma NextChooseIs(w: World, a: Addr, start: nat)
    requires w.s.Shaped()
    ensures Next(w, Choose(a, start)) ==
      if && a in w.workers && w.workers[a].pc == Idle && a in w.s.conns
         && !w.s.conns[a].peerChoking && w.s.conns[a].amInterested
      then
        var (s, batch, depth) := S.Choose(w.s, a, start);
        Then(w, a, s, if batch == [] then Idle else Picked(batch, depth))
      else w
  {
    hide S.Choose, Meta.WellFormed;
  }

  /** A batch of offered blocks, for a connection that may be asked. */
  ghost predicate Fills(s: S.Shared, s': S.Shared, c: Conn, batch: seq<BlockInfo>)
    requires s.Shaped() && s'.Shaped()
  {
    && s' == s.(dl := s.dl.(requested := s.dl.requested + Elements(batch))) && NoDup(batch)
    && (forall b | b in batch :: Wanted(s.dl, b) && Offers(c, b.piece))
    && |c.pending| + |batch| <= 10
    && (|c.pending| + |batch| < 10 ==> forall b :: Wanted(s'.dl, b) ==> !Offers(c, b.piece))
  }

  lemma ChooseFills(s: S.Shared, a: Addr, start: nat)
    requires s.Shaped() && a in s.conns && |s.conns[a].pending| <= 10
    ensures var (s', batch, depth) := S.Choose(s, a, start);
      s'.Shaped() && Fills(s, s', s.conns[a], batch) && (batch != [] ==> depth == |s.conns[a].pending| + |batch|)
  {
    ChooseTakesOffered(s, a, start);
    hide S.Choose, Wanted, HasPieceIn, NoDup, Elements, Meta.WellFormed;
  }

  lemma NothingChosen(w: World, a: Addr, s: S.Shared)
    requires w.s.Shaped() && s.Shaped() && a in w.workers && w.workers[a].pc == Idle && a in w.s.conns
    requires Fills(w.s, s, w.s.conns[a], [])
    ensures Then(w, a, s, Idle) == w && !MayAsk(w, a)
  {
    assert w.s.dl.requested + Elements([]) == w.s.dl.requested;
    assert w.workers[a := w.workers[a].(pc := Idle)] == w.workers;
    hide Wanted, Offers, NoDup, Meta.WellFormed;
  }

  lemma SomeChosen(w: World, a: Addr, s: S.Shared, batch: seq<BlockInfo>, depth: nat)
    requires w.s.Shaped() && s.Shaped() && a in w.workers && w.workers[a].pc == Idle && a in w.s.conns
    requires Fills(w.s, s, w.s.conns[a], batch) && batch != [] && depth == |w.s.conns[a].pending| + |batch|
    ensures MayAsk(w, a) <==> w.s.conns[a].amInterested && !w.s.conns[a].peerChoking
    ensures Asked(w, Then(w, a, s, Picked(batch, depth)), a)
  {
    assert batch[0] in batch;
    hide Wanted, Offers, NoDup, Elements, Meta.WellFormed;
  }

  /**
   * The section that chooses does something exactly when the worker may ask; then
   * it marks and picks up blocks the peer offers until ten are in the pipeline or
   * nothing wanted is left of them.
   */
  lemma NextChoosesIff(w: World, a: Addr, start: nat)
    requires Inv(w)
    ensures w.s.Shaped()
    ensures var w' := Next(w, Choose(a, start));
      if MayAsk(w, a) then Asked(w, w', a) else w' == w
  {
    InvValid(w);
    NextChooseIs(w, a, start);
    MayAskNeeds(w, a);
    var idle := a in w.workers && w.workers[a].pc == Idle;
    if idle {
      InvFacts(w, a);
      assert |w.s.conns[a].pending| <= 10;
    }
    hide *;
    if idle {
      var (s, batch, depth) := S.Choose(w.s, a, start);
      ChooseFills(w.s, a, start);
      if batch == [] { NothingChosen(w, a, s); } else { SomeChosen(w, a, s, batch, depth); }
    }
  }

  lemma MayAskNeeds(w: World, a: Addr)
    requires w.s.Shaped()
    ensures MayAsk(w, a) ==>
      && a in w.workers && w.workers[a].pc == Idle && a in w.s.conns
      && w.s.conns[a].amInterested && !w.s.conns[a].peerChoking
  {
    hide Wanted, Offers, Meta.WellFormed;
  }

  // ---- whole runs ----

  /** The messages a worker has handled since it last joined, pieces aside. */
  ghost function Heard(meta: Meta, host: Host, run: seq<Label>, a: Addr): seq<Message>
    requires meta.WellFormed()
    decreases |run|
  {
    if run == [] then []
    else
      var (init, l) := (run[..|run| - 1], run[|run| - 1]);
      HeardAfter(Exec(meta, host, init), l, a, Heard(meta, host, init, a))
  }

  function HeardAfter(w: World, l: Label, a: Addr, before: seq<Message>): seq<Message> {
    if l == Join(a) && a !in w.workers && a !in w.s.conns then []
    else if l.Handle? && l.a == a && a in w.workers && w.workers[a].pc == Idle && l.m.kind != Piece then before + [l.m]
    else before
  }

  lemma {:induction false} HeardIsPlain(meta: Meta, host: Host, run: seq<Label>, a: Addr)
    requires meta.WellFormed()
    ensures Plain(Heard(meta, host, run, a))
  {
    hide Exec;
    if run != [] { HeardIsPlain(meta, host, run[..|run| - 1], a); }
  }

  predicate Plain(ms: seq<Message>) { forall i | 0 <= i < |ms| :: ms[i].kind != Piece }

  /** The connection says of its peer what the messages ms made of a new one. */
  predicate KeptFrom(c: Conn, ms: seq<Message>, host: Host)
    requires Plain(ms)
  {
    var told := ProcessAll(NewConn(), ms, host);
    && c.peerChoking == told.peerChoking && c.peerInterested == told.peerInterested
    && c.bitfield == told.bitfield && c.metadataId == told.metadataId
  }

  /** What a worker knows of its peer, and what it has told it: from the main loop on it is interested and unchokes. */
  ghost predicate Knows(w: World, a: Addr, ms: seq<Message>)
    requires Plain(ms)
  {
    a in w.workers ==>
      && a in w.s.conns && KeptFrom(w.s.conns[a], ms, w.s.host)
      && (w.workers[a].pc == Starting ==> !w.s.conns[a].amInterested && w.s.conns[a].amChoking)
      && (w.workers[a].pc != Starting ==> w.s.conns[a].amInterested && !w.s.conns[a].amChoking)
  }

  /** What one message tells does not depend on the rest of the connection. */
  lemma ProcessTells(c: Conn, told: Conn, m: Message, host: Host)
    requires m.kind != Piece
    requires c.peerChoking == told.peerChoking && c.peerInterested == told.peerInterested
    requires c.bitfield == told.bitfield && c.metadataId == told.metadataId
    ensures var (c', told') := (Process(c, m, host).0, Process(told, m, host).0);
      && c'.peerChoking == told'.peerChoking && c'.peerInterested == told'.peerInterested
      && c'.bitfield == told'.bitfield && c'.metadataId == told'.metadataId
      && c'.amChoking == c.amChoking && c'.amInterested == c.amInterested
  {
    if m.kind == Extended {
      ExtendedTells(c, m.payload, host);
      ExtendedTells(told, m.payload, host);
      hide ProcessExtended;
    } else {
      PlainTells(c, m, host);
      PlainTells(told, m, host);
      hide Process, WithPiece, U32At;
    }
  }

  /** Of the other messages each changes its own part of the connection and nothing else. */
  lemma PlainTells(c: Conn, m: Message, host: Host)
    requires m.kind != Piece && m.kind != Extended
    ensures var c' := Process(c, m, host).0;
      && c' == c.(peerChoking := c'.peerChoking, peerInterested := c'.peerInterested, bitfield := c'.bitfield,
                  uploads := c'.uploads)
      && c'.peerChoking == (if m.kind == Choke then true else if m.kind == Unchoke then false else c.peerChoking)
      && c'.peerInterested ==
           (if m.kind == Interested then true else if m.kind == NotInterested then false else c.peerInterested)
      && c'.bitfield ==
           (if m.kind == Bitfield then Some(m.payload)
            else if m.kind == Have && |m.payload| == 4 && c.bitfield.Some?
            then Some(WithPiece(c.bitfield.value, U32At(m.payload, 0)))
            else c.bitfield)
      && (m.kind != Request && m.kind != Cancel ==> c'.uploads == c.uploads)
  {
    hide WithPiece, ParseRequest, Retained, U32At;
  }

  /** An extended message tells an id, or nothing. */
  lemma ExtendedTells(c: Conn, payload: bytes, host: Host)
    ensures var c' := ProcessExtended(c, payload, host).0;
      && c' == c.(metadataId := c'.metadataId, metadataOut := c'.metadataOut)
      && c'.metadataId ==
           if payload != [] && payload[0] == HANDSHAKE_ID && ParseHandshakeId(payload).Some?
           then ParseHandshakeId(payload) else c.metadataId
  {
    hide ParseMetadataRequest, ParseHandshakeId, Respond;
  }

  lemma NextKeepsHost(w: World, l: Label)
    requires w.s.Shaped()
    ensures Next(w, l).s.host == w.s.host
  {
    hide Complete, Process, ParsePiece, TimedOut, S.PickBatch, S.AddAll, S.Answers, Meta.WellFormed;
  }

  /** The same peer, as far as it has told and been told. */
  predicate SameTerms(c: Conn, c': Conn) {
    && c'.peerChoking == c.peerChoking && c'.peerInterested == c.peerInterested
    && c'.bitfield == c.bitfield && c'.metadataId == c.metadataId
    && c'.amInterested == c.amInterested && c'.amChoking == c.amChoking
  }

  lemma {:induction false} AddAllKeepsTerms(c: Conn, batch: seq<BlockInfo>, times: seq<nat>)
    requires |times| == |batch|
    ensures SameTerms(c, S.AddAll(c, batch, times))
  {
    if batch != [] { AddAllKeepsTerms(c, batch[..|batch| - 1], times[..|batch| - 1]); }
  }

  lemma OneMoreHeard(ms: seq<Message>, m: Message, host: Host)
    requires Plain(ms) && m.kind != Piece
    ensures ProcessAll(NewConn(), ms + [m], host) == Process(ProcessAll(NewConn(), ms, host), m, host).0
  {
    assert (ms + [m])[..|ms|] == ms;
    hide Process;
  }

  lemma HandleKnows(w: World, l: Label, ms: seq<Message>)
    requires Inv(w) && l.Handle? && l.a in w.workers && w.workers[l.a].pc == Idle && Plain(ms) && Knows(w, l.a, ms)
    ensures Knows(Next(w, l), l.a, HeardAfter(w, l, l.a, ms))
  {
    InvValid(w);
    if l.m.kind != Piece {
      ProcessTells(w.s.conns[l.a], ProcessAll(NewConn(), ms, w.s.host), l.m, w.s.host);
      OneMoreHeard(ms, l.m, w.s.host);
    }
    hide Inv, Process, ProcessAll, ParsePiece, Meta.WellFormed;
  }

  lemma IdleKnows(w: World, l: Label, ms: seq<Message>)
    requires Inv(w) && !l.Handle? && l.a in w.workers && w.workers[l.a].pc == Idle && Plain(ms) && Knows(w, l.a, ms)
    ensures Knows(Next(w, l), l.a, ms)
  {
    InvValid(w);
    hide Inv, ProcessAll, TimedOut, S.PickBatch, Meta.WellFormed;
  }

  lemma BusyKnows(w: World, l: Label, ms: seq<Message>)
    requires Inv(w) && l.a in w.workers && w.workers[l.a].pc != Idle && Plain(ms) && Knows(w, l.a, ms)
    ensures Knows(Next(w, l), l.a, ms)
  {
    InvValid(w);
    var pc := w.workers[l.a].pc;
    if l.Add? && pc.Picked? && |l.times| == |pc.batch| { AddAllKeepsTerms(w.s.conns[l.a], pc.batch, l.times); }
    hide Inv, ProcessAll, Complete, S.AddAll, S.Answers, Meta.WellFormed;
  }

  lemma NextKnows(w: World, l: Label, a: Addr, ms: seq<Message>)
    requires Inv(w) && Plain(ms) && Knows(w, a, ms)
    ensures Knows(Next(w, l), a, HeardAfter(w, l, a, ms))
  {
    InvValid(w);
    NextKeepsHost(w, l);
    if l.a != a {
      OthersUntouched(w, l, a);
    } else if a !in w.workers {
      assert l.Join? && a !in w.s.conns ==> Next(w, l).s.conns[a] == NewConn();
    } else if w.workers[a].pc != Idle {
      BusyKnows(w, l, ms);
    } else if l.Handle? {
      HandleKnows(w, l, ms);
    } else {
      IdleKnows(w, l, ms);
    }
    hide Inv, Process;
  }

  lemma {:induction false} AlwaysKnows(meta: Meta, host: Host, run: seq<Label>, a: Addr)
    requires meta.WellFormed()
    ensures Plain(Heard(meta, host, run, a))
    ensures Exec(meta, host, run).s.host == host && Knows(Exec(meta, host, run), a, Heard(meta, host, run, a))
  {
    HeardIsPlain(meta, host, run, a);
    if run != [] {
      var (init, l) := (run[..|run| - 1], run[|run| - 1]);
      AlwaysKnows(meta, host, init, a);
      NextKeepsHost(Exec(meta, host, init), l);
      NextKnows(Exec(meta, host, init), l, a, Heard(meta, host, init, a));
    }
    hide Inv, Next, Knows;
  }

  /**
   * In every reachable state a live worker holds its peer to be choking it exactly
   * as the peer's last word has it, and what the peer has to be its last bitfield
   * with what it announced since.
   */
  lemma TermsAreWhatWasHeard(meta: Meta, host: Host, run: seq<Label>, a: Addr)
    requires meta.WellFormed() && a in Exec(meta, host, run).workers
    ensures var (w, ms) := (Exec(meta, host, run), Heard(meta, host, run, a));
      && a in w.s.conns && Plain(ms)
      && (!w.s.conns[a].peerChoking <==> Unchoked(ms))
      && w.s.conns[a].bitfield == ProcessAll(NewConn(), ms, host).bitfield
      && w.s.conns[a].metadataId == ProcessAll(NewConn(), ms, host).metadataId
  {
    AlwaysKnows(meta, host, run, a);
    UnchokedIffLastWord(NewConn(), Heard(meta, host, run, a), host);
    hide Exec, Heard, ProcessAll, Unchoked;
  }

  /**
   * In every run a worker in its main loop picks blocks exactly when its peer has
   * unchoked it and not choked it since, and there is room for a block wanted of
   * what it offers.
   */
  lemma PicksIffUnchoked(meta: Meta, host: Host, run: seq<Label>, a: Addr, start: nat)
    requires meta.WellFormed()
    ensures var w := Exec(meta, host, run);
      && w.s.Shaped()
      && (Next(w, Choose(a, start)) != w <==>
            && a in w.workers && w.workers[a].pc == Idle && a in w.s.conns
            && Unchoked(Heard(meta, host, run, a)) && |w.s.conns[a].pending| < 10
            && exists b :: Wanted(w.s.dl, b) && Offers(w.s.conns[a], b.piece))
  {
    var w := Exec(meta, host, run);
    NextChoosesIff(w, a, start);
    AlwaysKnows(meta, host, run, a);
    if a in w.workers {
      TermsAreWhatWasHeard(meta, host, run, a);
    }
    hide Exec, Heard, Next, Wanted, Offers, Unchoked, KeptFrom;
  }
}
