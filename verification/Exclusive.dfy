/**
 * Runs in which a failed hash does no harm: every block has at most one peer,
 * and every request is accounted for exactly.
 */
module Exclusive {
  import opened Basics
  import opened Geometry
  import opened Downloads
  import opened Wire
  import opened Pools
  import opened Connections
  import opened Protocol
  import opened Safety
  import opened Runs
  import S = Sections

  // ---- the invariant ----

  /** The block is marked, stored, or in a finished piece, so nobody will pick it. */
  predicate Assigned(d: Download, b: BlockInfo) {
    b in d.requested || d.Stored(b) || d.Finished(b.piece)
  }

  /** Every request counted as sent is exactly once answered, timed out or pending. */
  predicate Exact(k: Worker, pending: nat) {
    k.tally.sent + Credit(k.pc) == k.tally.responses + k.tally.timeouts + pending + Debt(k.pc)
  }

  ghost predicate ExclAt(c: Conn, k: Worker) { Hand(k.pc) !! c.pending.Keys && Exact(k, |c.pending|) }

  /** No block is held at two addresses. */
  ghost predicate OneHolder(w: World) {
    forall a, c, b | b in HeldAt(w, a) && b in HeldAt(w, c) :: a == c
  }

  ghost predicate AllAssigned(w: World) {
    forall a, b | b in HeldAt(w, a) :: Assigned(w.s.dl, b)
  }

  ghost predicate AllExact(w: World) {
    forall a | a in w.workers && a in w.s.conns :: ExclAt(w.s.conns[a], w.workers[a])
  }

  ghost predicate Excl(w: World) { OneHolder(w) && AllAssigned(w) && AllExact(w) }

  /** A section whose block fills an unfinished piece, which then fails its hash and is thrown away. */
  predicate Discards(w: World, l: Label)
    requires w.s.Shaped()
  {
    && l.Store? && l.a in w.workers && w.workers[l.a].pc.Received?
    && var pc := w.workers[l.a].pc;
       StoreDiscards(w.s.dl, pc.block, pc.data) && !w.s.dl.Finished(pc.block.piece)
  }

  // ---- storing ----

  /** A call leaves every assigned block assigned, unless it discards an unfinished piece. */
  lemma CompleteKeepsAssigned(d: Download, c: BlockInfo, data: bytes, b: BlockInfo)
    requires d.Valid() && d.meta.IsTile(b) && Assigned(d, b)
    requires Complete(d, c, data).1 == HashMismatch ==> d.Finished(c.piece)
    ensures Assigned(Complete(d, c, data).0, b)
  {
    CompleteTouchesOnePiece(d, c, data, b.piece);
    if c.piece == b.piece && !d.Finished(b.piece) {
      SlotsLeaveRoom(d, b.piece);
      StoringKeepsSlots(d, c, data, Index(b));
      if b in d.requested && b !in Complete(d, c, data).0.requested {
        assert b == c;
      }
    }
  }

  /** Storing without a discard: the piece is finished, or its filled slots stay filled and the block's own is. */
  lemma StoringKeepsSlots(d: Download, c: BlockInfo, data: bytes, k: nat)
    requires d.Valid() && c.piece < d.meta.totalPieces && k < d.meta.BlocksIn(c.piece)
    requires Complete(d, c, data).1 != HashMismatch
    ensures var d' := Complete(d, c, data).0;
      || d'.Finished(c.piece)
      || (c.piece in d'.blocks && k < |d'.blocks[c.piece]|
          && ((c.piece in d.blocks && d.blocks[c.piece][k].Some?) || Index(c) == k ==> d'.blocks[c.piece][k].Some?))
  {
    SlotsLeaveRoom(d, c.piece);
    hide Whole;
  }

  // ---- one section ----

  /** The facts about one section of address a, from which exclusivity follows. */
  ghost predicate ExclSound(w: World, w': World, a: Addr) {
    && (forall b | b in HeldAt(w', a) :: b in HeldAt(w, a) || !Assigned(w.s.dl, b))
    && (forall c, b | c != a && b in HeldAt(w, c) :: Assigned(w'.s.dl, b))
    && (forall b | b in HeldAt(w', a) :: Assigned(w'.s.dl, b))
    && (a in w'.workers && a in w'.s.conns ==> ExclAt(w'.s.conns[a], w'.workers[a]))
  }

  lemma ExclFacts(w: World, a: Addr)
    requires Inv(w) && Excl(w) && a in w.workers
    ensures a in w.s.conns && ExclAt(w.s.conns[a], w.workers[a])
    ensures HeldAt(w, a) == Holds(w.s.conns[a], w.workers[a].pc)
  {
    InvFacts(w, a);
  }

  /** Sections that move no block and leave the download's marks and blocks alone. */
  lemma Stays(w: World, a: Addr, s: S.Shared, k: Worker)
    requires Inv(w) && Excl(w) && a in w.workers && a in s.conns && a in w.s.conns
    requires s.dl == w.s.dl.(uploaded := s.dl.uploaded)
    requires Holds(s.conns[a], k.pc) == Holds(w.s.conns[a], w.workers[a].pc)
    requires ExclAt(s.conns[a], k)
    ensures ExclSound(w, World(s, w.workers[a := k]), a)
  {
    var w' := World(s, w.workers[a := k]);
    assert HeldAt(w', a) == HeldAt(w, a);
    assert forall b :: Assigned(s.dl, b) <==> Assigned(w.s.dl, b);
    hide HeldAt, ExclAt, Assigned, Inv;
  }

  /** The same, when the pending list is not touched. */
  lemma StaysAlike(w: World, a: Addr, s: S.Shared, k: Worker)
    requires Inv(w) && Excl(w) && a in w.workers && a in s.conns && a in w.s.conns
    requires s.dl == w.s.dl.(uploaded := s.dl.uploaded)
    requires s.conns[a].pending == w.s.conns[a].pending && Hand(k.pc) == Hand(w.workers[a].pc)
    requires k.tally.Net() + Credit(k.pc) - Debt(k.pc)
          == w.workers[a].tally.Net() + Credit(w.workers[a].pc) - Debt(w.workers[a].pc)
    ensures ExclSound(w, World(s, w.workers[a := k]), a)
  {
    ExclFacts(w, a);
    assert Holds(s.conns[a], k.pc) == Holds(w.s.conns[a], w.workers[a].pc);
    assert ExclAt(s.conns[a], k);
    hide *;
    Stays(w, a, s, k);
  }

  /** Letting go of blocks that are unmarked at the same time. */
  lemma LetsGo(w: World, w': World, a: Addr, blocks: set<BlockInfo>)
    requires Inv(w) && Excl(w) && blocks <= HeldAt(w, a)
    requires w'.s.dl == w.s.dl.(requested := w.s.dl.requested - blocks)
    requires HeldAt(w', a) == HeldAt(w, a) - blocks
    requires a in w'.workers && a in w'.s.conns ==> ExclAt(w'.s.conns[a], w'.workers[a])
    ensures ExclSound(w, w', a)
  {
    forall b | b !in blocks && Assigned(w.s.dl, b) ensures Assigned(w'.s.dl, b) {}
    hide HeldAt, ExclAt, Assigned, Inv;
  }

  lemma FreshDisjoint(w: World, a: Addr, batch: seq<BlockInfo>)
    requires Excl(w) && forall b | b in batch :: !Assigned(w.s.dl, b)
    ensures Elements(batch) !! PendingAt(w, a)
  {
    hide Assigned;
    forall b | b in Elements(batch) ensures b !in PendingAt(w, a) {
      assert b in PendingAt(w, a) ==> b in HeldAt(w, a);
    }
  }

  lemma PickedAlone(c: Conn, k: Worker, batch: seq<BlockInfo>, depth: nat)
    requires k.pc == Idle && ExclAt(c, k) && Elements(batch) !! c.pending.Keys
    ensures var pc := if batch == [] then Idle else Picked(batch, depth);
      Hand(pc) == Elements(batch) && ExclAt(c, k.(pc := pc))
  {
  }

  lemma MarkedAlso(w: World, w': World, a: Addr, batch: seq<BlockInfo>)
    requires AllAssigned(w) && HeldAt(w', a) == HeldAt(w, a) + Elements(batch)
    requires w'.s.dl == w.s.dl.(requested := w.s.dl.requested + Elements(batch))
    requires forall b | b in batch :: !Assigned(w.s.dl, b)
    requires a in w'.workers && a in w'.s.conns ==> ExclAt(w'.s.conns[a], w'.workers[a])
    ensures ExclSound(w, w', a)
  {
    hide HeldAt, ExclAt;
    forall b | Assigned(w.s.dl, b) || b in batch ensures Assigned(w'.s.dl, b) {}
    hide Assigned;
  }

  /** Blocks nobody was assigned are marked and taken in hand. */
  lemma GrowsFresh(w: World, a: Addr, s: S.Shared, batch: seq<BlockInfo>, pc: Pc)
    requires Inv(w) && Excl(w) && a in w.workers && a in w.s.conns && w.workers[a].pc == Idle
    requires s == w.s.(dl := w.s.dl.(requested := w.s.dl.requested + Elements(batch)))
    requires forall b | b in batch :: !Assigned(w.s.dl, b)
    requires Hand(pc) == Elements(batch) && ExclAt(w.s.conns[a], w.workers[a].(pc := pc))
    ensures ExclSound(w, Then(w, a, s, pc), a)
  {
    var w' := Then(w, a, s, pc);
    assert HeldAt(w', a) == HeldAt(w, a) + Elements(batch);
    hide Inv, OneHolder, AllAssigned, AllExact, HeldAt, ExclAt, ExclSound, Assigned, Elements;
    MarkedAlso(w, w', a, batch);
  }

  lemma ChoosesFresh(w: World, a: Addr, start: nat)
    requires Inv(w) && Excl(w) && a in w.workers && w.workers[a].pc == Idle
    ensures var (s, batch, depth) := S.Choose(w.s, a, start);
      ExclSound(w, Then(w, a, s, if batch == [] then Idle else Picked(batch, depth)), a)
  {
    InvFacts(w, a);
    ExclFacts(w, a);
    ChooseMarks(w.s, a, start);
    ChosenUnassigned(w.s, a, start);
    hide Inv, ExclAt, S.Choose, Download.Valid, ConnOk, WorkerOk, Elements, Assigned;
    var (s, batch, depth) := S.Choose(w.s, a, start);
    var c := w.s.conns[a];
    var pc := if batch == [] then Idle else Picked(batch, depth);
    FreshDisjoint(w, a, batch);
    PickedAlone(c, w.workers[a], batch, depth);
    GrowsFresh(w, a, s, batch, pc);
  }

  lemma ChosenUnassigned(s: S.Shared, a: Addr, start: nat)
    requires s.dl.Valid() && a in s.conns
    ensures forall b | b in S.Choose(s, a, start).1 :: !Assigned(s.dl, b)
  {
    var (c, d) := (s.conns[a], s.dl);
    assert s.Shaped();
    if c.bitfield.Some? {
      S.BatchIsFresh(d, S.PiecesOf(c.bitfield.value, d.meta.totalPieces), start, S.FreeSlots(c));
    }
    hide Download.Valid, S.PickBatch;
  }

  /** A worker that lets go of its hand, uncounted. */
  lemma EmptiesHand(w: World, a: Addr, s: S.Shared, pc: Pc)
    requires a in w.workers && a in w.s.conns && s.conns == w.s.conns
    requires w.workers[a].pc.Received? && ExclAt(w.s.conns[a], w.workers[a])
    requires pc == Idle || pc == Closing
    ensures HeldAt(Then(w, a, s, pc), a) <= HeldAt(w, a) && HeldAt(Gone(w, a, s), a) <= HeldAt(w, a)
    ensures ExclAt(s.conns[a], w.workers[a].(pc := pc))
  {
  }

  lemma StoreTakenFacts(w: World, a: Addr)
    requires Inv(w) && Excl(w) && a in w.workers && w.workers[a].pc.Received?
    ensures var pc := w.workers[a].pc;
      var w' := StoreTaken(w, a, pc.block, pc.data);
      && w'.s.conns == w.s.conns && w'.s.dl == Complete(w.s.dl, pc.block, pc.data).0
      && HeldAt(w', a) <= HeldAt(w, a)
      && (a in w'.workers ==> a in w'.s.conns && ExclAt(w'.s.conns[a], w'.workers[a]))
  {
    InvValid(w);
    ExclFacts(w, a);
    var pc := w.workers[a].pc;
    hide *;
    StoreTakenKeeps(w, a, pc.block, pc.data);
  }

  lemma StoreTakenKeeps(w: World, a: Addr, b: BlockInfo, data: bytes)
    requires w.s.Shaped() && a in w.workers && a in w.s.conns && w.workers[a].pc.Received?
    requires ExclAt(w.s.conns[a], w.workers[a])
    ensures var w' := StoreTaken(w, a, b, data);
      && w'.s.conns == w.s.conns && w'.s.dl == Complete(w.s.dl, b, data).0
      && HeldAt(w', a) <= HeldAt(w, a)
      && (a in w'.workers ==> a in w'.s.conns && ExclAt(w'.s.conns[a], w'.workers[a]))
  {
    var s := S.StoreBlock(w.s, b, data).0;
    EmptiesHand(w, a, s, Idle);
    EmptiesHand(w, a, s, Closing);
    hide Complete, ExclAt, HeldAt, Meta.WellFormed;
  }

  lemma StoresAssigned(w: World, l: Label)
    requires Inv(w) && Excl(w) && l.Store? && l.a in w.workers && w.workers[l.a].pc.Received? && !Discards(w, l)
    ensures var pc := w.workers[l.a].pc; ExclSound(w, StoreTaken(w, l.a, pc.block, pc.data), l.a)
  {
    var a := l.a;
    var pc := w.workers[a].pc;
    StoreTakenFacts(w, a);
    var w' := StoreTaken(w, a, pc.block, pc.data);
    var outcome := Complete(w.s.dl, pc.block, pc.data).1;
    StorePanicsIff(w.s.dl, pc.block, pc.data);
    assert outcome == HashMismatch ==> w.s.dl.Finished(pc.block.piece);
    hide Inv, Complete, Assigned, HeldAt, ExclAt, StoreTaken, Discards;
    forall c, b | b in HeldAt(w, c) ensures Assigned(w'.s.dl, b) {
      HeldIsTile(w, c, b);
      InvValid(w);
      CompleteKeepsAssigned(w.s.dl, pc.block, pc.data, b);
    }
  }

  lemma HeldIsTile(w: World, a: Addr, b: BlockInfo)
    requires Inv(w) && b in HeldAt(w, a)
    ensures w.s.dl.meta.IsTile(b)
  {
    assert AddrOk(w, a);
  }

  lemma JoinExcl(w: World, a: Addr)
    requires Inv(w) && Excl(w) && a !in w.s.conns && a !in w.workers
    ensures ExclSound(w, Tallied(w, a, S.Connect(w.s, a), Starting, Tally(0, 0, 0)), a)
  {
    var w' := Tallied(w, a, S.Connect(w.s, a), Starting, Tally(0, 0, 0));
    assert HeldAt(w', a) == {};
    hide Inv, Assigned;
  }

  lemma Nothing(w: World, a: Addr)
    requires Inv(w) && Excl(w)
    ensures ExclSound(w, w, a)
  {
    hide Inv, Assigned, HeldAt, ExclAt;
  }

  lemma HandlesAnyExcl(w: World, l: Label)
    requires Inv(w) && Excl(w) && l.a in w.workers && w.workers[l.a].pc == Idle && l.Handle?
    ensures ExclSound(w, NextOfIdle(w, l), l.a)
  {
    InvValid(w);
    hide Inv, Excl, ExclSound, S.HandleMessage, TakePiece, Then, Gone;
    if l.m.kind == Piece { TakesExcl(w, l.a, l.m.payload); } else { HandlesExcl(w, l.a, l.m); }
  }

  lemma IdleExcl(w: World, l: Label)
    requires Inv(w) && Excl(w) && l.a in w.workers && w.workers[l.a].pc == Idle
    ensures ExclSound(w, NextOfIdle(w, l), l.a)
  {
    InvValid(w);
    hide Inv, Excl, ExclSound, Download.Valid, S.Choose, S.Expire, S.HandleMessage, S.TakeUploads, TakePiece, Then;
    if l.Handle? {
      HandlesAnyExcl(w, l);
    } else if l.Choose? {
      Nothing(w, l.a);
      ChoosesFresh(w, l.a, l.start);
    } else if l.Expire? {
      ExpiresExcl(w, l.a, l.now);
    } else if l.TakeUploads? || l.FlushMetadata? || l.KeepAlive? || l.Break? {
      PlainExcl(w, l);
    } else {
      Nothing(w, l.a);
    }
  }

  /** Worker a goes on with the same hand and account, and the same pending list. */
  ghost predicate GoesOnAlike(w: World, w': World, a: Addr) {
    && a in w.workers && a in w'.workers && w' == World(w'.s, w.workers[a := w'.workers[a]])
    && a in w.s.conns && a in w'.s.conns && w'.s.conns[a].pending == w.s.conns[a].pending
    && w'.s.dl == w.s.dl.(uploaded := w'.s.dl.uploaded)
    && var (k, k') := (w.workers[a], w'.workers[a]);
       && Hand(k'.pc) == Hand(k.pc)
       && k'.tally.Net() + Credit(k'.pc) - Debt(k'.pc) == k.tally.Net() + Credit(k.pc) - Debt(k.pc)
  }

  lemma AlikeExcl(w: World, w': World, a: Addr)
    requires Inv(w) && Excl(w) && GoesOnAlike(w, w', a)
    ensures ExclSound(w, w', a)
  {
    hide Inv, Excl, ExclSound, Hand, Credit, Debt;
    StaysAlike(w, a, w'.s, w'.workers[a]);
  }

  /** Operations that touch neither the pending list nor the download. */
  lemma PlainIsAlike(w: World, l: Label)
    requires w.s.Shaped() && l.a in w.workers && l.a in w.s.conns && w.workers[l.a].pc == Idle
    requires l.TakeUploads? || l.FlushMetadata? || l.KeepAlive? || l.Break?
    ensures GoesOnAlike(w, NextOfIdle(w, l), l.a)
  {
  }

  lemma PlainExcl(w: World, l: Label)
    requires Inv(w) && Excl(w) && l.a in w.workers && w.workers[l.a].pc == Idle
    requires l.TakeUploads? || l.FlushMetadata? || l.KeepAlive? || l.Break?
    ensures ExclSound(w, NextOfIdle(w, l), l.a)
  {
    InvValid(w);
    ExclFacts(w, l.a);
    hide *;
    PlainIsAlike(w, l);
    AlikeExcl(w, NextOfIdle(w, l), l.a);
  }

  /** Moving pending blocks to the hand keeps the account exact. */
  lemma MovedAlone(c: Conn, k: Worker, blocks: set<BlockInfo>, pc: Pc)
    requires k.pc == Idle && ExclAt(c, k) && blocks <= c.pending.Keys
    requires Hand(pc) == blocks && Debt(pc) == |blocks| && Credit(pc) == 0
    ensures var c' := c.(pending := c.pending - blocks);
      ExclAt(c', k.(pc := pc)) && Holds(c', pc) == Holds(c, k.pc)
  {
    SizeAfterRemoving(c.pending, blocks);
    assert Exact(k, |c.pending|) && Hand(k.pc) == {} && Credit(k.pc) == Debt(k.pc) == 0;
    hide Hand, Debt, Credit;
  }

  lemma TakesExcl(w: World, a: Addr, payload: bytes)
    requires Inv(w) && Excl(w) && a in w.workers && w.workers[a].pc == Idle
    ensures ExclSound(w, TakePiece(w, a, payload), a)
  {
    hide Inv, Excl, ExclSound, ParsePiece;
    ExclFacts(w, a);
    var (c, k) := (w.s.conns[a], w.workers[a]);
    match ParsePiece(payload)
    case None => StaysAlike(w, a, w.s, k.(pc := Closing));
    case Some((b, data)) =>
      var (s, pending) := S.TakePending(w.s, a, b);
      var taken := if b in c.pending then {b} else {};
      assert c.pending - {b} == c.pending - taken;
      MovedAlone(c, k, taken, if b in c.pending then Taken(b, data) else Received(b, data, false));
      Stays(w, a, s, k.(pc := if pending then Taken(b, data) else Received(b, data, false)));
  }

  lemma GonesExcl(w: World, w': World, a: Addr)
    requires Inv(w) && Excl(w) && w'.s.dl == w.s.dl && HeldAt(w', a) == HeldAt(w, a) && w'.workers == w.workers - {a}
    ensures ExclSound(w, w', a)
  {
    hide Inv, HeldAt, Assigned, ExclAt;
  }

  lemma HandlesExcl(w: World, a: Addr, m: Message)
    requires Inv(w) && Excl(w) && a in w.workers && w.workers[a].pc == Idle && m.kind != Piece
    ensures var (s, stuck) := S.HandleMessage(w.s, a, m);
      ExclSound(w, if stuck then Gone(w, a, s) else Then(w, a, s, Idle), a)
  {
    InvFacts(w, a);
    ExclFacts(w, a);
    ProcessKeepsLimits(w.s.conns[a], m, w.s.host);
    var (s, stuck) := S.HandleMessage(w.s, a, m);
    assert s == w.s.(conns := s.conns) && a in s.conns && s.conns[a].pending == w.s.conns[a].pending;
    if stuck {
      var w' := Gone(w, a, s);
      assert HeldAt(w', a) == HeldAt(w, a) - {} && w'.s.dl.requested == w.s.dl.requested - {};
      hide *;
      GonesExcl(w, w', a);
    } else {
      hide *;
      StaysAlike(w, a, s, w.workers[a]);
    }
  }

  lemma ExpiresExcl(w: World, a: Addr, now: nat)
    requires Inv(w) && Excl(w) && a in w.workers && w.workers[a].pc == Idle
    ensures var (s, expired) := S.Expire(w.s, a, now);
      ExclSound(w, Then(w, a, s, if expired == {} then Idle else Expired(expired)), a)
  {
    InvFacts(w, a);
    ExclFacts(w, a);
    var (s, expired) := S.Expire(w.s, a, now);
    MovedAlone(w.s.conns[a], w.workers[a], expired, if expired == {} then Idle else Expired(expired));
    assert s == w.s.(conns := s.conns) && a in s.conns;
    assert s.conns[a] == w.s.conns[a].(pending := w.s.conns[a].pending - expired);
    hide *;
    Stays(w, a, s, w.workers[a].(pc := if expired == {} then Idle else Expired(expired)));
  }

  lemma ReleasesExcl(w: World, a: Addr)
    requires Inv(w) && Excl(w) && a in w.workers && w.workers[a].pc.Expired?
    ensures var blocks := w.workers[a].pc.blocks;
      ExclSound(w, Then(w, a, S.Release(w.s, blocks), Released(|blocks|)), a)
  {
    ExclFacts(w, a);
    var blocks := w.workers[a].pc.blocks;
    var w' := Then(w, a, S.Release(w.s, blocks), Released(|blocks|));
    assert HeldAt(w', a) == HeldAt(w, a) - blocks;
    assert ExclAt(w'.s.conns[a], w'.workers[a]);
    assert w'.s.dl == w.s.dl.(requested := w.s.dl.requested - blocks) && blocks <= HeldAt(w, a);
    hide *;
    LetsGo(w, w', a, blocks);
  }

  lemma LeavesExcl(w: World, a: Addr)
    requires Inv(w) && Excl(w) && a in w.workers && w.workers[a].pc == Closing
    ensures ExclSound(w, Gone(w, a, S.Disconnect(w.s, a)), a)
  {
    ExclFacts(w, a);
    var pending := w.s.conns[a].pending.Keys;
    var w' := Gone(w, a, S.Disconnect(w.s, a));
    assert HeldAt(w, a) == pending && HeldAt(w', a) == {} == pending - pending;
    assert w'.s.dl == w.s.dl.(requested := w.s.dl.requested - pending) && a !in w'.workers;
    hide *;
    LetsGo(w, w', a, pending);
  }

  /** Steps of a busy worker in which no block is moved or marked. */
  predicate Steady(l: Label, pc: Pc) {
    pc.Taken? || pc.Released? || pc.Sending? || pc.Sent? || pc.Serving? || (pc.Starting? && !l.Abandon?)
  }

  lemma SteadyIsAlike(w: World, l: Label, pc: Pc)
    requires w.s.Shaped() && l.a in w.workers && l.a in w.s.conns && w.workers[l.a].pc == pc && Steady(l, pc)
    ensures var w' := NextOfBusy(w, l, pc, w.workers[l.a].tally); w' == w || GoesOnAlike(w, w', l.a)
  {
    hide Elements, S.Answers;
  }

  lemma SteadyExcl(w: World, l: Label, pc: Pc)
    requires Inv(w) && Excl(w) && l.a in w.workers && w.workers[l.a].pc == pc && Steady(l, pc)
    ensures ExclSound(w, NextOfBusy(w, l, pc, w.workers[l.a].tally), l.a)
  {
    InvValid(w);
    ExclFacts(w, l.a);
    Nothing(w, l.a);
    hide *;
    SteadyIsAlike(w, l, pc);
    var w' := NextOfBusy(w, l, pc, w.workers[l.a].tally);
    if w' != w { AlikeExcl(w, w', l.a); }
  }

  lemma AbandonExcl(w: World, l: Label)
    requires Inv(w) && Excl(w) && l.a in w.workers && w.workers[l.a].pc == Starting && l.Abandon?
    ensures ExclSound(w, NextOfBusy(w, l, Starting, w.workers[l.a].tally), l.a)
  {
    InvValid(w);
    GonesExcl(w, Gone(w, l.a, w.s), l.a);
    hide Inv, Excl, ExclSound;
  }

  lemma BusyExcl(w: World, l: Label, pc: Pc)
    requires Inv(w) && Excl(w) && l.a in w.workers && w.workers[l.a].pc == pc && !pc.Idle? && !Discards(w, l)
    ensures ExclSound(w, NextOfBusy(w, l, pc, w.workers[l.a].tally), l.a)
  {
    InvValid(w);
    hide Inv, Excl, ExclSound, Download.Valid, StoreTaken, S.AddBatch, S.DropUnsent, S.Disconnect, S.Release,
         Then, Gone, Discards;
    var a := l.a;
    Nothing(w, a);
    if Steady(l, pc) {
      SteadyExcl(w, l, pc);
    } else if l.Abandon? {
      if pc.Starting? { AbandonExcl(w, l); }
    } else if l.Store? {
      if pc.Received? { StoresAssigned(w, l); }
    } else if l.Release? {
      if pc.Expired? { ReleasesExcl(w, a); }
    } else if l.Add? {
      if pc.Picked? && |l.times| == |pc.batch| { AddsExcl(w, a, l.times); }
    } else if l.Undo? {
      if pc.Unsent? { UndoesExcl(w, a); }
    } else if l.Leave? {
      if pc.Closing? { LeavesExcl(w, a); }
    }
  }

  lemma AddedAlone(c: Conn, k: Worker, times: seq<nat>)
    requires k.pc.Picked? && NoDup(k.pc.batch) && |times| == |k.pc.batch| && ExclAt(c, k)
    ensures var c' := S.AddAll(c, k.pc.batch, times);
      var pc := Sending(k.pc.batch, k.pc.depth);
      ExclAt(c', k.(pc := pc)) && Holds(c', pc) == Holds(c, k.pc)
  {
    S.AddedAreBatch(c, k.pc.batch, times);
    NoDupSize(k.pc.batch);
    UnionSize(c.pending.Keys, Elements(k.pc.batch));
    var c' := S.AddAll(c, k.pc.batch, times);
    assert |c'.pending| == |c'.pending.Keys| && |c.pending| == |c.pending.Keys|;
    hide S.AddAll, Elements, NoDup;
  }

  lemma AddsExcl(w: World, a: Addr, times: seq<nat>)
    requires Inv(w) && Excl(w) && a in w.workers && w.workers[a].pc.Picked? && |times| == |w.workers[a].pc.batch|
    ensures var pc := w.workers[a].pc;
      ExclSound(w, Then(w, a, S.AddBatch(w.s, a, pc.batch, times), Sending(pc.batch, pc.depth)), a)
  {
    InvFacts(w, a);
    ExclFacts(w, a);
    var (c, k) := (w.s.conns[a], w.workers[a]);
    AddedAlone(c, k, times);
    var s := S.AddBatch(w.s, a, k.pc.batch, times);
    assert s == w.s.(conns := s.conns) && a in s.conns && s.conns[a] == S.AddAll(c, k.pc.batch, times);
    hide *;
    Stays(w, a, s, k.(pc := Sending(k.pc.batch, k.pc.depth)));
  }

  lemma UndoesExcl(w: World, a: Addr)
    requires Inv(w) && Excl(w) && a in w.workers && w.workers[a].pc.Unsent?
    ensures var pc := w.workers[a].pc;
      ExclSound(w, Then(w, a, S.DropUnsent(w.s, a, pc.failed), Sent(pc.count, pc.depth)), a)
  {
    InvFacts(w, a);
    ExclFacts(w, a);
    var (c, k) := (w.s.conns[a], w.workers[a]);
    UndoneAlone(c, k);
    var s := S.DropUnsent(w.s, a, k.pc.failed);
    var w' := Then(w, a, s, Sent(k.pc.count, k.pc.depth));
    assert s.conns[a] == c.(pending := c.pending - Elements(k.pc.failed)) && w'.s == s;
    assert w'.workers[a] == k.(pc := Sent(k.pc.count, k.pc.depth));
    assert s.dl == w.s.dl.(requested := w.s.dl.requested - Elements(k.pc.failed));
    assert HeldAt(w', a) == Holds(w'.s.conns[a], w'.workers[a].pc);
    hide *;
    LetsGo(w, w', a, Elements(k.pc.failed));
  }

  lemma UndoneAlone(c: Conn, k: Worker)
    requires k.pc.Unsent? && BatchFits(c, k.pc) && ExclAt(c, k)
    ensures var c' := c.(pending := c.pending - Elements(k.pc.failed));
      var k' := k.(pc := Sent(k.pc.count, k.pc.depth));
      && Elements(k.pc.failed) <= Holds(c, k.pc) && ExclAt(c', k')
      && Holds(c', k'.pc) == Holds(c, k.pc) - Elements(k.pc.failed)
  {
    BatchPending(c, k.pc.failed);
    hide NoDup, Elements;
  }

  /** Every section but a discard keeps exclusivity. */
  lemma NextKeepsExcl(w: World, l: Label)
    requires Inv(w) && Excl(w) && !Discards(w, l)
    ensures Excl(Next(w, l))
  {
    Nothing(w, l.a);
    if l.Join? {
      if l.a !in w.s.conns && l.a !in w.workers { JoinExcl(w, l.a); }
    } else if l.a in w.workers {
      if w.workers[l.a].pc.Idle? { IdleExcl(w, l); } else { BusyExcl(w, l, w.workers[l.a].pc); }
    }
    assert ExclSound(w, Next(w, l), l.a);
    SoundKeepsExcl(w, l);
  }

  lemma SoundKeepsExcl(w: World, l: Label)
    requires Inv(w) && Excl(w) && ExclSound(w, Next(w, l), l.a)
    ensures Excl(Next(w, l))
  {
    var w' := Next(w, l);
    forall a | a != l.a ensures SameAt(w, w', a) && HeldAt(w', a) == HeldAt(w, a) { OthersUntouched(w, l, a); }
    hide Inv, Next, SameAt;
    KeepsOneHolder(w, w', l.a);
    KeepsAllAssigned(w, w', l.a);
    forall a | a in w'.workers && a in w'.s.conns ensures ExclAt(w'.s.conns[a], w'.workers[a]) {
      if a != l.a { SameAlone(w, w', a); }
    }
    hide *;
    assert AllExact(w') ==> Excl(w');
  }

  lemma SameAlone(w: World, w': World, a: Addr)
    requires AllExact(w) && SameAt(w, w', a) && a in w'.workers && a in w'.s.conns
    ensures ExclAt(w'.s.conns[a], w'.workers[a])
  {
    hide ExclAt;
  }

  lemma KeepsOneHolder(w: World, w': World, x: Addr)
    requires OneHolder(w) && AllAssigned(w) && ExclSound(w, w', x)
    requires forall a | a != x :: HeldAt(w', a) == HeldAt(w, a)
    ensures OneHolder(w')
  {
    hide HeldAt, Assigned, ExclAt;
  }

  lemma KeepsAllAssigned(w: World, w': World, x: Addr)
    requires ExclSound(w, w', x)
    requires forall a | a != x :: HeldAt(w', a) == HeldAt(w, a)
    ensures AllAssigned(w')
  {
    hide HeldAt, Assigned, ExclAt;
  }

  // ---- discards ----

  lemma DiscardUnassigns(d: Download, c: BlockInfo, data: bytes, b: BlockInfo)
    requires d.Valid() && Complete(d, c, data).1 == HashMismatch && !d.Finished(c.piece)
    ensures Assigned(Complete(d, c, data).0, b) <==>
      if b.piece == c.piece then b in d.requested && b != c else Assigned(d, b)
  {
    CompleteTouchesOnePiece(d, c, data, b.piece);
    hide Download.Valid, Whole;
  }

  /** Blocks still held at address c once worker a has stored the block in its hand. */
  function StillHeld(w: World, a: Addr, c: Addr): set<BlockInfo> {
    if c == a then PendingAt(w, a) else HeldAt(w, c)
  }

  lemma StoreEmptiesHand(w: World, a: Addr)
    requires a in w.workers && a in w.s.conns && w.workers[a].pc.Received? && w.s.Shaped()
    ensures var pc := w.workers[a].pc; HeldAt(StoreTaken(w, a, pc.block, pc.data), a) == PendingAt(w, a)
  {
    hide Complete, Meta.WellFormed;
  }

  lemma DiscardLeavesHeld(w: World, l: Label, c: Addr)
    requires Inv(w) && Discards(w, l)
    ensures HeldAt(Next(w, l), c) == StillHeld(w, l.a, c)
  {
    InvFacts(w, l.a);
    var pc := w.workers[l.a].pc;
    assert w.s.Shaped() && Next(w, l) == StoreTaken(w, l.a, pc.block, pc.data);
    if c == l.a { StoreEmptiesHand(w, l.a); } else { OthersUntouched(w, l, c); }
    hide Inv, Next, Discards, ConnOk, WorkerOk, Download.Valid, StoreTaken, HeldAt;
  }

  lemma DiscardAssigns(w: World, l: Label, b: BlockInfo)
    requires Inv(w) && Excl(w) && Discards(w, l)
    ensures var c := w.workers[l.a].pc.block;
      Assigned(Next(w, l).s.dl, b) <==>
        if b.piece == c.piece then b in w.s.dl.requested && b != c else Assigned(w.s.dl, b)
  {
    InvValid(w);
    var pc := w.workers[l.a].pc;
    StoreTakenFacts(w, l.a);
    assert Next(w, l) == StoreTaken(w, l.a, pc.block, pc.data);
    StorePanicsIff(w.s.dl, pc.block, pc.data);
    hide Inv, Excl, Next, StoreTaken, Complete, StoreDiscards, Assigned, HeldAt;
    DiscardUnassigns(w.s.dl, pc.block, pc.data, b);
  }

  lemma StillHeldAssigned(w: World, a: Addr, c: Addr, b: BlockInfo)
    requires AllAssigned(w) && b in StillHeld(w, a, c)
    ensures Assigned(w.s.dl, b)
  {
    hide Assigned;
    assert b in HeldAt(w, c);
  }

  /**
   * A discard leaves every held block assigned exactly when, beforehand, each
   * block of the discarded piece that stays held is marked and is not the one
   * being stored. The marks are what the discard spares; the stored blocks of
   * the piece are what it forgets.
   */
  lemma DiscardKeepsAssignedIff(w: World, l: Label)
    requires Inv(w) && Excl(w) && Discards(w, l)
    ensures var c := w.workers[l.a].pc.block;
      AllAssigned(Next(w, l)) <==>
        forall a, b | b in StillHeld(w, l.a, a) && b.piece == c.piece :: b in w.s.dl.requested && b != c
  {
    InvValid(w);
    var (w', c) := (Next(w, l), w.workers[l.a].pc.block);
    assert AllAssigned(w);
    hide Inv, Excl, Discards, Next, Assigned, HeldAt, StillHeld, Meta.WellFormed;
    forall b
      ensures Assigned(w'.s.dl, b) <==>
        if b.piece == c.piece then b in w.s.dl.requested && b != c else Assigned(w.s.dl, b)
    {
      DiscardAssigns(w, l, b);
    }
    forall a ensures HeldAt(w', a) == StillHeld(w, l.a, a) { DiscardLeavesHeld(w, l, a); }
    forall a, b | b in StillHeld(w, l.a, a) ensures b in HeldAt(w', a) && Assigned(w.s.dl, b) {
      StillHeldAssigned(w, l.a, a, b);
    }
  }

  /**
   * A discard that leaves some held block of its piece unassigned: one that is
   * not marked, or is the very block being stored.
   */
  ghost predicate Harmful(w: World, l: Label)
    requires w.s.Shaped()
  {
    Discards(w, l) && exists a, b | b in StillHeld(w, l.a, a) :: SpoiledBy(w, l, b)
  }

  predicate SpoiledBy(w: World, l: Label, b: BlockInfo)
    requires w.s.Shaped() && Discards(w, l)
  {
    var c := w.workers[l.a].pc.block;
    b.piece == c.piece && (b !in w.s.dl.requested || b == c)
  }

  lemma HarmfulIffUnassigned(w: World, l: Label)
    requires Inv(w) && Excl(w) && Discards(w, l)
    ensures Harmful(w, l) <==> !AllAssigned(Next(w, l))
  {
    InvValid(w);
    DiscardKeepsAssignedIff(w, l);
    hide Inv, Excl, Discards, Next, AllAssigned, StillHeld;
    assert forall a, b | b in StillHeld(w, l.a, a) ::
        SpoiledBy(w, l, b) <==>
          !(b.piece == w.workers[l.a].pc.block.piece ==> b in w.s.dl.requested && b != w.workers[l.a].pc.block);
  }

  lemma DiscardKeepsTheRest(w: World, l: Label)
    requires Inv(w) && Excl(w) && Discards(w, l)
    ensures OneHolder(Next(w, l)) && AllExact(Next(w, l))
  {
    InvValid(w);
    var w' := Next(w, l);
    StoreTakenFacts(w, l.a);
    assert w' == StoreTaken(w, l.a, w.workers[l.a].pc.block, w.workers[l.a].pc.data);
    assert OneHolder(w) && AllExact(w);
    hide Inv, Excl, Discards, Next, StoreTaken, Complete, HeldAt, ExclAt, StillHeld;
    forall a ensures HeldAt(w', a) <= HeldAt(w, a) {
      if a != l.a { OthersUntouched(w, l, a); }
    }
    forall a | a in w'.workers && a in w'.s.conns ensures ExclAt(w'.s.conns[a], w'.workers[a]) {
      if a != l.a {
        OthersUntouched(w, l, a);
        SameAlone(w, w', a);
      }
    }
  }

  /** Every section that is not a harmful discard keeps exclusivity. */
  lemma HarmlessKeepsExcl(w: World, l: Label)
    requires Inv(w) && Excl(w) && !Harmful(w, l)
    ensures Excl(Next(w, l))
  {
    if Discards(w, l) {
      HarmfulIffUnassigned(w, l);
      DiscardKeepsTheRest(w, l);
    } else {
      NextKeepsExcl(w, l);
    }
    hide Inv, Next, OneHolder, AllAssigned, AllExact, Discards, Harmful;
  }

  // ---- whole runs ----

  /** A run without harmful discards. */
  ghost predicate HarmFree(meta: Meta, host: Host, run: seq<Label>)
    requires meta.WellFormed()
  {
    forall n | 0 <= n < |run| :: !Harmful(Exec(meta, host, run[..n]), run[n])
  }

  lemma HarmFreePrefix(meta: Meta, host: Host, run: seq<Label>)
    requires meta.WellFormed() && run != [] && HarmFree(meta, host, run)
    ensures HarmFree(meta, host, run[..|run| - 1])
    ensures !Harmful(Exec(meta, host, run[..|run| - 1]), run[|run| - 1])
  {
    hide Harmful, Exec;
    var init := run[..|run| - 1];
    forall n | 0 <= n < |init| ensures !Harmful(Exec(meta, host, init[..n]), init[n]) {
      assert init[..n] == run[..n];
    }
  }

  lemma {:induction false} HarmFreeKeepsExcl(meta: Meta, host: Host, run: seq<Label>)
    requires meta.WellFormed() && HarmFree(meta, host, run)
    ensures Excl(Exec(meta, host, run))
  {
    hide Excl, Next, Harmful, HarmFree, Inv;
    if run == [] {
      InitExcl(meta, host);
    } else {
      var init := run[..|run| - 1];
      HarmFreePrefix(meta, host, run);
      HarmFreeKeepsExcl(meta, host, init);
      HarmlessKeepsExcl(Exec(meta, host, init), run[|run| - 1]);
    }
  }

  lemma InitExcl(meta: Meta, host: Host)
    ensures Excl(Init(meta, host))
  {
  }

  /** A worker between operations has counted exactly its responses, timeouts and pending requests. */
  ghost predicate Settled(w: World) {
    forall a | a in w.workers && a in w.s.conns && w.workers[a].pc == Idle ::
      var t := w.workers[a].tally; t.sent == t.responses + t.timeouts + |w.s.conns[a].pending|
  }

  lemma ExactIsSettled(w: World)
    requires AllExact(w)
    ensures Settled(w)
  {
    forall a | a in w.workers && a in w.s.conns && w.workers[a].pc == Idle
      ensures var t := w.workers[a].tally; t.sent == t.responses + t.timeouts + |w.s.conns[a].pending|
    {
      assert ExclAt(w.s.conns[a], w.workers[a]);
    }
  }

  /**
   * In every run without harmful discards: no block is held at two addresses;
   * every held block is marked, stored or finished, so nobody picks it; and the
   * counts of every worker between operations are exact.
   */
  lemma ExclusiveAssignment(meta: Meta, host: Host, run: seq<Label>)
    requires meta.WellFormed() && HarmFree(meta, host, run)
    ensures var w := Exec(meta, host, run); OneHolder(w) && AllAssigned(w) && Settled(w)
  {
    HarmFreeKeepsExcl(meta, host, run);
    ExactIsSettled(Exec(meta, host, run));
  }

  /** Every held block is assigned all through a run exactly when the run has no harmful discard. */
  lemma {:induction false} AssignedThroughoutIff(meta: Meta, host: Host, run: seq<Label>)
    requires meta.WellFormed()
    ensures HarmFree(meta, host, run)
       <==> forall n | 0 <= n <= |run| :: AllAssigned(Exec(meta, host, run[..n]))
  {
    hide Inv, Next, Harmful, AllAssigned, Exec;
    if HarmFree(meta, host, run) {
      forall n | 0 <= n <= |run| ensures AllAssigned(Exec(meta, host, run[..n])) {
        HarmFreeUpTo(meta, host, run, n);
        ExclusiveAssignment(meta, host, run[..n]);
      }
    }
    if forall n | 0 <= n <= |run| :: AllAssigned(Exec(meta, host, run[..n])) {
      AssignedIsHarmFree(meta, host, run);
    }
  }

  lemma HarmFreeUpTo(meta: Meta, host: Host, run: seq<Label>, n: nat)
    requires meta.WellFormed() && n <= |run| && HarmFree(meta, host, run)
    ensures HarmFree(meta, host, run[..n])
  {
    hide Harmful, Exec;
    forall k | 0 <= k < n ensures !Harmful(Exec(meta, host, run[..n][..k]), run[..n][k]) {
      assert run[..n][..k] == run[..k];
    }
  }

  lemma {:induction false} AssignedIsHarmFree(meta: Meta, host: Host, run: seq<Label>)
    requires meta.WellFormed() && forall n | 0 <= n <= |run| :: AllAssigned(Exec(meta, host, run[..n]))
    ensures HarmFree(meta, host, run)
  {
    hide Inv, Excl, Next, Harmful, AllAssigned;
    if run != [] {
      var (init, l) := (run[..|run| - 1], run[|run| - 1]);
      forall n | 0 <= n <= |init| ensures AllAssigned(Exec(meta, host, init[..n])) {
        assert init[..n] == run[..n];
      }
      AssignedIsHarmFree(meta, host, init);
      HarmFreeKeepsExcl(meta, host, init);
      assert run[..|run|] == run;
      InvValid(Exec(meta, host, init));
      HarmIsDiscard(Exec(meta, host, init), l);
      HarmFreeSnoc(meta, host, run);
    }
  }

  lemma HarmFreeSnoc(meta: Meta, host: Host, run: seq<Label>)
    requires meta.WellFormed() && run != [] && HarmFree(meta, host, run[..|run| - 1])
    requires !Harmful(Exec(meta, host, run[..|run| - 1]), run[|run| - 1])
    ensures HarmFree(meta, host, run)
  {
    hide Harmful, Exec;
    var init := run[..|run| - 1];
    forall n | 0 <= n < |run| ensures !Harmful(Exec(meta, host, run[..n]), run[n]) {
      if n < |init| { assert init[..n] == run[..n] && init[n] == run[n]; }
    }
  }

  lemma HarmIsDiscard(w: World, l: Label)
    requires Inv(w) && Excl(w) && AllAssigned(Next(w, l))
    ensures !Harmful(w, l)
  {
    if Discards(w, l) { HarmfulIffUnassigned(w, l); }
    hide Inv, Excl, Next, Discards, AllAssigned;
  }

  /** A run in which no unfinished piece fails its hash has no harmful discard. */
  lemma NoDiscardsNoHarm(meta: Meta, host: Host, run: seq<Label>)
    requires meta.WellFormed()
    requires forall n | 0 <= n < |run| :: !Discards(Exec(meta, host, run[..n]), run[n])
    ensures HarmFree(meta, host, run)
  {
    hide Discards, Exec, SpoiledBy, StillHeld;
  }
}
