/** What every section of every worker keeps, in any interleaving. */
module Safety {
  import opened Basics
  import opened Geometry
  import opened Downloads
  import opened Wire
  import opened Pools
  import opened Connections
  import opened Protocol
  import S = Sections

  // ---- the invariant ----

  /** Requests written but not yet counted as sent. */
  function Credit(pc: Pc): nat {
    match pc
    case Sending(batch, _) => |batch|
    case Unsent(failed, count, _) => count + |failed|
    case Sent(count, _) => count
    case _ => 0
  }

  /** Requests taken off the pending list but not yet counted as answered or timed out. */
  function Debt(pc: Pc): nat {
    match pc
    case Taken(_, _) => 1
    case Expired(blocks) => |blocks|
    case Released(n) => n
    case _ => 0
  }

  /** Every request counted as sent, or about to be, is at most once answered, timed out or pending. */
  predicate Covered(k: Worker, pending: nat) {
    k.tally.sent + Credit(k.pc) >= k.tally.responses + k.tally.timeouts + pending + Debt(k.pc)
  }

  /** The batch a worker carries, and the depth it has computed from it. */
  predicate BatchFits(c: Conn, pc: Pc) {
    match pc
    case Picked(batch, depth) => NoDup(batch) && depth == |c.pending| + |batch| <= MAX_PIPELINE_DEPTH
    case Sending(batch, depth) => NoDup(batch) && Elements(batch) <= c.pending.Keys && depth <= MAX_PIPELINE_DEPTH
    case Unsent(failed, count, depth) =>
      && NoDup(failed) && Elements(failed) <= c.pending.Keys
      && count + |failed| <= |c.pending| && depth <= MAX_PIPELINE_DEPTH
    case Sent(count, depth) => count <= |c.pending| && depth <= MAX_PIPELINE_DEPTH
    case _ => true
  }

  ghost predicate AllTiles(m: Meta, blocks: set<BlockInfo>)
    requires m.WellFormed()
  {
    forall b | b in blocks :: m.IsTile(b)
  }

  ghost predicate ConnOk(m: Meta, c: Conn)
    requires m.WellFormed()
  {
    |c.pending| <= MAX_PIPELINE_DEPTH && c.WithinLimits() && AllTiles(m, c.pending.Keys)
  }

  ghost predicate WorkerOk(m: Meta, c: Conn, k: Worker)
    requires m.WellFormed()
  {
    BatchFits(c, k.pc) && Covered(k, |c.pending|) && AllTiles(m, Hand(k.pc))
  }

  ghost predicate AddrOk(w: World, a: Addr)
    requires w.s.dl.meta.WellFormed()
  {
    && (a in w.s.conns ==> ConnOk(w.s.dl.meta, w.s.conns[a]))
    && (a in w.workers ==> a in w.s.conns && WorkerOk(w.s.dl.meta, w.s.conns[a], w.workers[a]))
  }

  function Nets(workers: map<Addr, Worker>): map<Addr, int> {
    map a | a in workers :: workers[a].tally.Net()
  }

  /** The shared counters cover what the live workers have counted. */
  ghost predicate StatsOk(w: World) {
    && w.s.stats.sent - w.s.stats.responses - w.s.stats.timeouts >= Total(Nets(w.workers))
    && w.s.stats.maxDepth <= MAX_PIPELINE_DEPTH
  }

  ghost predicate Inv(w: World) {
    && w.s.dl.Valid()
    && (forall a :: AddrOk(w, a))
    && NoOrphan(w)
    && StatsOk(w)
  }

  // ---- the counters ----

  lemma TilesWithin(m: Meta, small: set<BlockInfo>, big: set<BlockInfo>)
    requires m.WellFormed() && small <= big && AllTiles(m, big)
    ensures AllTiles(m, small)
  {
  }

  lemma NetNonNegative(m: Meta, c: Conn, k: Worker)
    requires m.WellFormed() && WorkerOk(m, c, k)
    ensures k.tally.Net() >= 0
  {
    if k.pc.Sending? { BatchPending(c, k.pc.batch); }
  }

  lemma BatchPending(c: Conn, batch: seq<BlockInfo>)
    requires NoDup(batch) && Elements(batch) <= c.pending.Keys
    ensures |batch| <= |c.pending|
    ensures (c.pending - Elements(batch)).Keys == c.pending.Keys - Elements(batch)
    ensures |c.pending - Elements(batch)| == |c.pending| - |batch|
  {
    NoDupSize(batch);
    SizeAfterRemoving(c.pending, Elements(batch));
  }

  lemma NetsAfter(workers: map<Addr, Worker>, a: Addr, k: Worker)
    ensures Total(Nets(workers[a := k])) ==
      Total(Nets(workers)) - (if a in workers then workers[a].tally.Net() else 0) + k.tally.Net()
  {
    TotalUpdate(Nets(workers), a, k.tally.Net());
    assert Nets(workers[a := k]) == Nets(workers)[a := k.tally.Net()];
  }

  lemma NetsWithout(workers: map<Addr, Worker>, a: Addr)
    requires a in workers
    ensures Total(Nets(workers - {a})) == Total(Nets(workers)) - workers[a].tally.Net()
  {
    TotalWithout(Nets(workers), a);
    assert Nets(workers - {a}) == Nets(workers) - {a};
  }

  /** In every state with the invariant, no more is answered or timed out than was sent. */
  lemma AnsweredWithinSent(w: World)
    requires Inv(w)
    ensures w.s.stats.responses + w.s.stats.timeouts <= w.s.stats.sent
  {
    forall a | a in w.workers ensures Nets(w.workers)[a] >= 0 {
      assert AddrOk(w, a);
      NetNonNegative(w.s.dl.meta, w.s.conns[a], w.workers[a]);
    }
    TotalNonNegative(Nets(w.workers));
  }

  // ---- what a section does at its own address ----

  /**
   * The facts about one section of address a, from which every invariant
   * follows: a block newly requested is held here, and a block let go of here is
   * no longer requested.
   */
  ghost predicate Sound(w: World, w': World, a: Addr)
    requires w.s.Shaped()
  {
    && w'.s.dl.meta == w.s.dl.meta && w'.s.dl.Valid()
    && AddrOk(w', a)
    && (forall b | b in w'.s.dl.requested :: b in w.s.dl.requested || b in HeldAt(w', a))
    && (forall b | b in HeldAt(w, a) && b in w'.s.dl.requested :: b in HeldAt(w', a))
    && StatsOk(w')
  }

  lemma InvValid(w: World)
    requires Inv(w)
    ensures w.s.dl.Valid() && w.s.Shaped()
  {
  }

  lemma InvFacts(w: World, a: Addr)
    requires Inv(w) && a in w.workers
    ensures w.s.dl.Valid() && w.s.stats.maxDepth <= MAX_PIPELINE_DEPTH
    ensures a in w.s.conns && ConnOk(w.s.dl.meta, w.s.conns[a])
    ensures |w.s.conns[a].pending| <= MAX_PIPELINE_DEPTH && w.s.conns[a].WithinLimits()
    ensures WorkerOk(w.s.dl.meta, w.s.conns[a], w.workers[a])
    ensures w.s.conns[a := w.s.conns[a]] == w.s.conns
  {
    assert AddrOk(w, a);
  }

  function Slack(stats: S.Stats): int { stats.sent - stats.responses - stats.timeouts }

  /** Blocks held through a connection and its worker. */
  function Holds(c: Conn, pc: Pc): set<BlockInfo> { c.pending.Keys + Hand(pc) }

  lemma Limits(m: Meta, c: Conn)
    requires m.WellFormed() && ConnOk(m, c)
    ensures c.WithinLimits()
  {
  }

  lemma SameHand(c: Conn, pc: Pc, pc': Pc)
    requires Hand(pc) == Hand(pc')
    ensures Holds(c, pc) == Holds(c, pc')
  {
  }

  lemma GoesOnStats(w: World, a: Addr, s: S.Shared, k: Worker)
    requires StatsOk(w) && a in w.workers
    requires Slack(s.stats) - Slack(w.s.stats) >= k.tally.Net() - w.workers[a].tally.Net()
    requires s.stats.maxDepth <= MAX_PIPELINE_DEPTH
    ensures StatsOk(World(s, w.workers[a := k]))
  {
    NetsAfter(w.workers, a, k);
    hide Nets;
  }

  /** A section after which the worker goes on. */
  lemma GoesOn(w: World, a: Addr, s: S.Shared, k: Worker)
    requires Inv(w) && a in w.workers && a in w.s.conns && a in s.conns
    requires s.dl.meta == w.s.dl.meta && s.dl.Valid()
    requires ConnOk(s.dl.meta, s.conns[a]) && WorkerOk(s.dl.meta, s.conns[a], k)
    requires s.dl.requested <= w.s.dl.requested + Holds(s.conns[a], k.pc)
    requires s.dl.requested * Holds(w.s.conns[a], w.workers[a].pc) <= Holds(s.conns[a], k.pc)
    requires Slack(s.stats) - Slack(w.s.stats) >= k.tally.Net() - w.workers[a].tally.Net()
    requires s.stats.maxDepth <= MAX_PIPELINE_DEPTH
    ensures Sound(w, World(s, w.workers[a := k]), a)
  {
    GoesOnStats(w, a, s, k);
    hide Inv, Download.Valid, ConnOk, WorkerOk, StatsOk, Hand;
  }

  lemma GoneStats(w: World, a: Addr, w': World)
    requires Inv(w) && a in w.workers && w'.workers == w.workers - {a} && w'.s.stats == w.s.stats
    ensures StatsOk(w')
  {
    InvFacts(w, a);
    NetsWithout(w.workers, a);
    NetNonNegative(w.s.dl.meta, w.s.conns[a], w.workers[a]);
    hide Download.Valid, ConnOk, WorkerOk, NoOrphan, Nets, AddrOk;
  }

  /** A section after which the worker is gone, its connection left behind. */
  lemma Vanishes(w: World, a: Addr, s: S.Shared)
    requires Inv(w) && a in w.workers && a in w.s.conns
    requires s.conns == w.s.conns && s.stats == w.s.stats
    requires s.dl.meta == w.s.dl.meta && s.dl.Valid()
    requires s.dl.requested <= w.s.dl.requested && s.dl.requested !! Hand(w.workers[a].pc)
    ensures Sound(w, Gone(w, a, s), a)
  {
    InvFacts(w, a);
    GoneStats(w, a, Gone(w, a, s));
    hide Inv, Download.Valid, ConnOk, WorkerOk, Hand, StatsOk;
  }

  lemma NewPeerOk(m: Meta)
    requires m.WellFormed()
    ensures ConnOk(m, NewConn()) && WorkerOk(m, NewConn(), Worker(Starting, Tally(0, 0, 0)))
  {
    hide Meta.WellFormed;
  }

  lemma JoinSound(w: World, a: Addr)
    requires Inv(w) && a !in w.s.conns && a !in w.workers
    ensures Sound(w, Tallied(w, a, S.Connect(w.s, a), Starting, Tally(0, 0, 0)), a)
  {
    NewPeerOk(w.s.dl.meta);
    NetsAfter(w.workers, a, Worker(Starting, Tally(0, 0, 0)));
    assert StatsOk(w) && w.s.dl.Valid();
    var w' := Tallied(w, a, S.Connect(w.s, a), Starting, Tally(0, 0, 0));
    hide Inv, Download.Valid, ConnOk, WorkerOk, NoOrphan, Nets, Meta.WellFormed;
    assert StatsOk(w') && HeldAt(w, a) == {};
    hide StatsOk, HeldAt;
    assert w'.s.conns[a] == NewConn() && w'.workers[a] == Worker(Starting, Tally(0, 0, 0));
  }

  /** Sections that move no block, count nothing, and leave the download alone. */
  lemma QuietSound(w: World, a: Addr, c: Conn, pc: Pc)
    requires Inv(w) && a in w.workers && a in w.s.conns
    requires c.pending == w.s.conns[a].pending && c.WithinLimits()
    requires Hand(pc) == Hand(w.workers[a].pc)
    requires Debt(pc) == Debt(w.workers[a].pc) && Credit(pc) == Credit(w.workers[a].pc) && BatchFits(c, pc)
    ensures Sound(w, Then(w, a, w.s.(conns := w.s.conns[a := c]), pc), a)
  {
    InvFacts(w, a);
    SameHand(c, pc, w.workers[a].pc);
    hide Inv, Sound, Download.Valid, ShortQueue, AllTiles, BatchFits, Holds, Hand, Debt, Credit;
    GoesOn(w, a, w.s.(conns := w.s.conns[a := c]), w.workers[a].(pc := pc));
  }

  // ---- receiving ----

  /** A connection with other pending requests. */
  lemma ConnWith(m: Meta, c: Conn, pending: map<BlockInfo, nat>)
    requires m.WellFormed() && ConnOk(m, c)
    requires |pending| <= MAX_PIPELINE_DEPTH && AllTiles(m, pending.Keys)
    ensures ConnOk(m, c.(pending := pending))
  {
  }

  /** Blocks moved from the pending list to a worker's hand. */
  lemma MovedToHand(m: Meta, c: Conn, k: Worker, blocks: set<BlockInfo>, pc: Pc)
    requires m.WellFormed() && ConnOk(m, c) && WorkerOk(m, c, k) && k.pc == Idle
    requires blocks <= c.pending.Keys && Hand(pc) == blocks && Debt(pc) == |blocks| && Credit(pc) == 0
    requires forall c' :: BatchFits(c', pc)
    ensures var c' := c.(pending := c.pending - blocks);
      ConnOk(m, c') && WorkerOk(m, c', k.(pc := pc)) && Holds(c', pc) == Holds(c, k.pc)
  {
    hide Meta.WellFormed, AllTiles, ShortQueue;
    SizeAfterRemoving(c.pending, blocks);
    TilesWithin(m, blocks, c.pending.Keys);
    TilesWithin(m, (c.pending - blocks).Keys, c.pending.Keys);
    ConnWith(m, c, c.pending - blocks);
    MovedCovered(k, pc, |c.pending|, |blocks|);
    var c' := c.(pending := c.pending - blocks);
    assert Hand(k.pc) == {} && Holds(c', pc) == Holds(c, k.pc);
    hide ConnOk, Covered, BatchFits, Hand, Holds;
  }

  lemma MovedCovered(k: Worker, pc: Pc, pending: nat, moved: nat)
    requires k.pc == Idle && Covered(k, pending) && moved <= pending && Debt(pc) == moved && Credit(pc) == 0
    ensures Covered(k.(pc := pc), pending - moved)
  {
    assert Debt(k.pc) == Credit(k.pc) == 0;
    hide Debt, Credit;
  }

  lemma TakeOk(m: Meta, c: Conn, k: Worker, b: BlockInfo, data: bytes)
    requires m.WellFormed() && ConnOk(m, c) && WorkerOk(m, c, k) && k.pc == Idle
    ensures var pc := if b in c.pending then Taken(b, data) else Received(b, data, false);
      var c' := c.(pending := c.pending - {b});
      ConnOk(m, c') && WorkerOk(m, c', k.(pc := pc)) && Holds(c', pc) == Holds(c, k.pc)
  {
    var taken := if b in c.pending then {b} else {};
    assert c.pending - {b} == c.pending - taken;
    hide ConnOk, WorkerOk, Holds;
    MovedToHand(m, c, k, taken, if b in c.pending then Taken(b, data) else Received(b, data, false));
  }

  lemma TakePieceSound(w: World, a: Addr, payload: bytes)
    requires Inv(w) && a in w.workers && w.workers[a].pc == Idle
    ensures Sound(w, TakePiece(w, a, payload), a)
  {
    InvFacts(w, a);
    hide Inv, Sound, ConnOk, WorkerOk, Holds, Download.Valid, ParsePiece;
    match ParsePiece(payload)
    case None =>
      Limits(w.s.dl.meta, w.s.conns[a]);
      QuietSound(w, a, w.s.conns[a], Closing);
    case Some((b, data)) =>
      TakeOk(w.s.dl.meta, w.s.conns[a], w.workers[a], b, data);
      var (s, pending) := S.TakePending(w.s, a, b);
      GoesOnHolding(w, a, s, if pending then Taken(b, data) else Received(b, data, false));
  }

  /** The same blocks are held before and after, and nothing else changes. */
  lemma GoesOnHolding(w: World, a: Addr, s: S.Shared, pc: Pc)
    requires Inv(w) && a in w.workers && a in w.s.conns && a in s.conns
    requires s == w.s.(conns := s.conns)
    requires ConnOk(s.dl.meta, s.conns[a]) && WorkerOk(s.dl.meta, s.conns[a], w.workers[a].(pc := pc))
    requires Holds(s.conns[a], pc) == Holds(w.s.conns[a], w.workers[a].pc)
    ensures Sound(w, Then(w, a, s, pc), a)
  {
    InvFacts(w, a);
    hide Inv, ConnOk, WorkerOk, Hand, Holds, Sound, Download.Valid;
    GoesOn(w, a, s, w.workers[a].(pc := pc));
  }

  /** Counting moves no block. */
  lemma CountSound(w: World, a: Addr, stats: S.Stats, k: Worker)
    requires Inv(w) && a in w.workers && a in w.s.conns
    requires Hand(k.pc) == Hand(w.workers[a].pc) && BatchFits(w.s.conns[a], k.pc)
    requires k.tally.Net() + Credit(k.pc) - Debt(k.pc)
          == w.workers[a].tally.Net() + Credit(w.workers[a].pc) - Debt(w.workers[a].pc)
    requires Slack(stats) - Slack(w.s.stats) == k.tally.Net() - w.workers[a].tally.Net()
    requires stats.maxDepth <= MAX_PIPELINE_DEPTH
    ensures Sound(w, World(w.s.(stats := stats), w.workers[a := k]), a)
  {
    InvFacts(w, a);
    SameHand(w.s.conns[a], k.pc, w.workers[a].pc);
    hide Inv, Sound, BatchFits, Credit, Debt, ConnOk, AllTiles, Holds, Hand, Download.Valid;
    GoesOn(w, a, w.s.(stats := stats), k);
  }

  lemma StoreKeepsRest(s: S.Shared, b: BlockInfo, data: bytes)
    requires s.Shaped()
    ensures var s' := S.StoreBlock(s, b, data).0;
      s'.conns == s.conns && s'.stats == s.stats && s'.dl == Complete(s.dl, b, data).0
  {
  }

  lemma AfterStore(m: Meta, c: Conn, k: Worker, b: BlockInfo, data: bytes, held: bool)
    requires m.WellFormed() && WorkerOk(m, c, k) && k.pc == Received(b, data, held)
    ensures WorkerOk(m, c, k.(pc := Idle)) && WorkerOk(m, c, k.(pc := Closing))
    ensures Holds(c, k.pc) <= Holds(c, Idle) + {b} && Holds(c, k.pc) <= Holds(c, Closing) + {b}
  {
    hide Meta.WellFormed, AllTiles;
    TilesWithin(m, {}, Hand(k.pc));
  }

  /** The worker goes on after a block left its hand, which is no longer marked. */
  lemma StoredGoesOn(w: World, a: Addr, s: S.Shared, pc: Pc)
    requires Inv(w) && a in w.workers && a in w.s.conns && s.conns == w.s.conns && s.stats == w.s.stats
    requires s.dl.meta == w.s.dl.meta && s.dl.Valid()
    requires s.dl.requested <= w.s.dl.requested && s.dl.requested !! Hand(w.workers[a].pc)
    requires WorkerOk(s.dl.meta, s.conns[a], w.workers[a].(pc := pc))
    ensures Sound(w, Then(w, a, s, pc), a)
  {
    InvFacts(w, a);
    hide Inv, Sound, ConnOk, WorkerOk, Hand, Download.Valid, Meta.WellFormed;
    GoesOn(w, a, s, w.workers[a].(pc := pc));
  }

  lemma StoreTakenIs(w: World, a: Addr, b: BlockInfo, data: bytes)
    requires w.s.Shaped() && a in w.workers
    ensures var (s, outcome) := S.StoreBlock(w.s, b, data);
      StoreTaken(w, a, b, data) ==
        if outcome == Panicked then Gone(w, a, s) else Then(w, a, s, if outcome == HashMismatch then Closing else Idle)
  {
    hide Complete, Meta.WellFormed;
  }

  lemma StoreSound(w: World, a: Addr, b: BlockInfo, data: bytes, held: bool)
    requires Inv(w) && a in w.workers && w.workers[a].pc == Received(b, data, held)
    ensures Sound(w, StoreTaken(w, a, b, data), a)
  {
    InvFacts(w, a);
    CompleteUnmarks(w.s.dl, b, data);
    var (s, outcome) := S.StoreBlock(w.s, b, data);
    var (c, k) := (w.s.conns[a], w.workers[a]);
    StoreKeepsRest(w.s, b, data);
    AfterStore(s.dl.meta, c, k, b, data, held);
    assert Hand(k.pc) <= {b} && s.dl.requested !! Hand(k.pc);
    StoreTakenIs(w, a, b, data);
    hide *;
    if outcome == Panicked {
      Vanishes(w, a, s);
    } else if outcome == HashMismatch {
      StoredGoesOn(w, a, s, Closing);
    } else {
      StoredGoesOn(w, a, s, Idle);
    }
  }

  // ---- timeouts ----

  lemma ExpireOk(m: Meta, c: Conn, k: Worker, now: nat)
    requires m.WellFormed() && ConnOk(m, c) && WorkerOk(m, c, k) && k.pc == Idle
    ensures var expired := TimedOut(c, now);
      var c' := c.(pending := c.pending - expired);
      var pc := if expired == {} then Idle else Expired(expired);
      ConnOk(m, c') && WorkerOk(m, c', k.(pc := pc)) && Holds(c', pc) == Holds(c, k.pc)
  {
    var expired := TimedOut(c, now);
    assert expired <= c.pending.Keys;
    hide ConnOk, WorkerOk, Holds, TimedOut, Meta.WellFormed;
    MovedToHand(m, c, k, expired, if expired == {} then Idle else Expired(expired));
  }

  lemma ExpireSound(w: World, a: Addr, now: nat)
    requires Inv(w) && a in w.workers && w.workers[a].pc == Idle
    ensures var (s, expired) := S.Expire(w.s, a, now);
      Sound(w, Then(w, a, s, if expired == {} then Idle else Expired(expired)), a)
  {
    InvFacts(w, a);
    hide Inv, Sound, ConnOk, WorkerOk, Hand, Holds, TimedOut, Download.Valid;
    ExpireOk(w.s.dl.meta, w.s.conns[a], w.workers[a], now);
    var (s, expired) := S.Expire(w.s, a, now);
    GoesOnHolding(w, a, s, if expired == {} then Idle else Expired(expired));
  }

  /** Validity of a download does not depend on what is requested or uploaded. */
  lemma OutsideValidity(d: Download, requested: set<BlockInfo>, uploaded: nat)
    requires d.Valid()
    ensures d.(requested := requested, uploaded := uploaded).Valid()
  {
  }

  /** Letting go of blocks that are unmarked at the same time. */
  lemma LetGoSound(w: World, a: Addr, c: Conn, pc: Pc, blocks: set<BlockInfo>)
    requires Inv(w) && a in w.workers && a in w.s.conns
    requires ConnOk(w.s.dl.meta, c) && WorkerOk(w.s.dl.meta, c, w.workers[a].(pc := pc))
    requires Holds(w.s.conns[a], w.workers[a].pc) <= Holds(c, pc) + blocks
    ensures var dl := w.s.dl.(requested := w.s.dl.requested - blocks);
      Sound(w, Then(w, a, w.s.(conns := w.s.conns[a := c], dl := dl), pc), a)
  {
    InvFacts(w, a);
    OutsideValidity(w.s.dl, w.s.dl.requested - blocks, w.s.dl.uploaded);
    hide Inv, Sound, ConnOk, WorkerOk, Hand, Holds, Download.Valid;
    GoesOn(w, a, w.s.(conns := w.s.conns[a := c], dl := w.s.dl.(requested := w.s.dl.requested - blocks)),
           w.workers[a].(pc := pc));
  }

  lemma ReleaseSound(w: World, a: Addr)
    requires Inv(w) && a in w.workers && w.workers[a].pc.Expired?
    ensures var blocks := w.workers[a].pc.blocks;
      Sound(w, Then(w, a, S.Release(w.s, blocks), Released(|blocks|)), a)
  {
    InvFacts(w, a);
    hide Inv, Sound, AllTiles, ShortQueue, Download.Valid;
    var blocks := w.workers[a].pc.blocks;
    LetGoSound(w, a, w.s.conns[a], Released(|blocks|), blocks);
  }

  // ---- requesting ----

  lemma ChosenAreTiles(d: Download, has: seq<bool>, batch: seq<BlockInfo>)
    requires d.Valid() && forall b | b in batch :: d.Eligible(has, b)
    ensures AllTiles(d.meta, Elements(batch))
  {
    hide Meta.IsTile, Download.Valid;
  }

  lemma PickedOk(m: Meta, c: Conn, k: Worker, batch: seq<BlockInfo>, depth: nat)
    requires m.WellFormed() && WorkerOk(m, c, k) && k.pc == Idle
    requires NoDup(batch) && AllTiles(m, Elements(batch))
    requires batch != [] ==> depth == |c.pending| + |batch| <= MAX_PIPELINE_DEPTH
    ensures var pc := if batch == [] then Idle else Picked(batch, depth);
      WorkerOk(m, c, k.(pc := pc)) && Holds(c, pc) == Holds(c, k.pc) + Elements(batch)
  {
    if batch == [] { NoDupEmpty<BlockInfo>(); }
    hide NoDup, Elements, AllTiles, Meta.WellFormed;
  }

  /** Choosing marks a batch, and changes nothing else. */
  lemma ChooseMarks(s: S.Shared, a: Addr, start: nat)
    requires s.dl.Valid() && a in s.conns && |s.conns[a].pending| <= MAX_PIPELINE_DEPTH
    ensures var (s', batch, depth) := S.Choose(s, a, start);
      && s' == s.(dl := s.dl.(requested := s.dl.requested + Elements(batch))) && s'.dl.Valid()
      && NoDup(batch) && (batch != [] ==> depth == |s.conns[a].pending| + |batch| <= MAX_PIPELINE_DEPTH)
      && AllTiles(s.dl.meta, Elements(batch))
  {
    assert s.Shaped();
    hide Download.Valid, Download.Eligible, Meta.WellFormed, S.PickBatch, S.PiecesOf, AllTiles;
    var (c, d) := (s.conns[a], s.dl);
    if c.bitfield.Some? {
      var has := S.PiecesOf(c.bitfield.value, d.meta.totalPieces);
      S.BatchIsFresh(d, has, start, S.FreeSlots(c));
      var batch := S.Choose(s, a, start).1;
      ChosenAreTiles(d, has, batch);
      OutsideValidity(d, d.requested + Elements(batch), d.uploaded);
    } else {
      assert d.requested + Elements([]) == d.requested;
      ChosenAreTiles(d, [], []);
    }
  }

  lemma ChooseSound(w: World, a: Addr, start: nat)
    requires Inv(w) && a in w.workers && w.workers[a].pc == Idle
    ensures var (s, batch, depth) := S.Choose(w.s, a, start);
      Sound(w, Then(w, a, s, if batch == [] then Idle else Picked(batch, depth)), a)
  {
    InvFacts(w, a);
    ChooseMarks(w.s, a, start);
    hide *;
    var (s, batch, depth) := S.Choose(w.s, a, start);
    PickedOk(w.s.dl.meta, w.s.conns[a], w.workers[a], batch, depth);
    GoesOnPicking(w, a, s, batch, depth);
  }

  lemma GoesOnPicking(w: World, a: Addr, s: S.Shared, batch: seq<BlockInfo>, depth: nat)
    requires Inv(w) && a in w.workers && a in w.s.conns
    requires s == w.s.(dl := w.s.dl.(requested := w.s.dl.requested + Elements(batch))) && s.dl.Valid()
    requires var (c, pc) := (w.s.conns[a], if batch == [] then Idle else Picked(batch, depth));
      WorkerOk(s.dl.meta, c, w.workers[a].(pc := pc)) && Holds(c, pc) == Holds(c, w.workers[a].pc) + Elements(batch)
    ensures Sound(w, Then(w, a, s, if batch == [] then Idle else Picked(batch, depth)), a)
  {
    InvFacts(w, a);
    hide Inv, Sound, ConnOk, WorkerOk, Holds, Download.Valid, Elements;
    GoesOn(w, a, s, w.workers[a].(pc := if batch == [] then Idle else Picked(batch, depth)));
  }

  lemma TilesUnion(m: Meta, x: set<BlockInfo>, y: set<BlockInfo>)
    requires m.WellFormed() && AllTiles(m, x) && AllTiles(m, y)
    ensures AllTiles(m, x + y)
  {
  }

  lemma AddedSizes(pending: map<BlockInfo, nat>, after: map<BlockInfo, nat>, batch: seq<BlockInfo>)
    requires NoDup(batch) && after.Keys == pending.Keys + Elements(batch)
    ensures |after| <= |pending| + |batch|
  {
    NoDupSize(batch);
    UnionSize(pending.Keys, Elements(batch));
    assert |after| == |after.Keys| && |pending| == |pending.Keys|;
  }

  lemma AddOk(m: Meta, c: Conn, k: Worker, times: seq<nat>)
    requires m.WellFormed() && ConnOk(m, c) && WorkerOk(m, c, k)
    requires k.pc.Picked? && |times| == |k.pc.batch|
    ensures var c' := S.AddAll(c, k.pc.batch, times);
      var pc := Sending(k.pc.batch, k.pc.depth);
      ConnOk(m, c') && WorkerOk(m, c', k.(pc := pc)) && Holds(c', pc) == Holds(c, k.pc)
  {
    hide Meta.WellFormed, AllTiles, ShortQueue;
    S.AddedAreBatch(c, k.pc.batch, times);
    var c' := S.AddAll(c, k.pc.batch, times);
    TilesUnion(m, c.pending.Keys, Elements(k.pc.batch));
    AddedSizes(c.pending, c'.pending, k.pc.batch);
    AddedWorkerOk(m, c, c', k);
    assert ConnOk(m, c');
    var pc := Sending(k.pc.batch, k.pc.depth);
    assert Hand(k.pc) == Elements(k.pc.batch) && Hand(pc) == {};
    assert Holds(c', pc) == Holds(c, k.pc);
    hide *;
  }

  lemma AddedWorkerOk(m: Meta, c: Conn, c': Conn, k: Worker)
    requires m.WellFormed() && WorkerOk(m, c, k) && k.pc.Picked?
    requires c'.pending.Keys == c.pending.Keys + Elements(k.pc.batch) && |c'.pending| <= |c.pending| + |k.pc.batch|
    ensures WorkerOk(m, c', k.(pc := Sending(k.pc.batch, k.pc.depth)))
  {
    hide Meta.WellFormed, Elements, NoDup;
  }

  lemma AddSound(w: World, a: Addr, times: seq<nat>)
    requires Inv(w) && a in w.workers && w.workers[a].pc.Picked? && |times| == |w.workers[a].pc.batch|
    ensures var pc := w.workers[a].pc;
      Sound(w, Then(w, a, S.AddBatch(w.s, a, pc.batch, times), Sending(pc.batch, pc.depth)), a)
  {
    InvFacts(w, a);
    hide Inv, Sound, ConnOk, WorkerOk, Hand, Holds, Download.Valid, S.AddAll;
    var pc := w.workers[a].pc;
    AddOk(w.s.dl.meta, w.s.conns[a], w.workers[a], times);
    GoesOnHolding(w, a, S.AddBatch(w.s, a, pc.batch, times), Sending(pc.batch, pc.depth));
  }

  /** Where writing out a batch leads when only the first `oks` writes succeed. */
  function AfterSend(pc: Pc, oks: nat): Pc
    requires pc.Sending?
  {
    if oks < |pc.batch| then Unsent(pc.batch[oks..], oks, pc.depth) else Sent(|pc.batch|, pc.depth)
  }

  lemma SendOk(c: Conn, pc: Pc, oks: nat)
    requires pc.Sending? && BatchFits(c, pc)
    ensures var pc' := AfterSend(pc, oks);
      BatchFits(c, pc') && Hand(pc') == Hand(pc) && Debt(pc') == Debt(pc) && Credit(pc') == Credit(pc)
  {
    BatchPending(c, pc.batch);
    if oks < |pc.batch| { assert Elements(pc.batch[oks..]) <= Elements(pc.batch); }
    hide Elements;
  }

  lemma SendSound(w: World, a: Addr, oks: nat)
    requires Inv(w) && a in w.workers && w.workers[a].pc.Sending?
    ensures Sound(w, Then(w, a, w.s, AfterSend(w.workers[a].pc, oks)), a)
  {
    InvFacts(w, a);
    var (c, pc) := (w.s.conns[a], w.workers[a].pc);
    assert BatchFits(c, pc) && c.WithinLimits();
    assert w.s.(conns := w.s.conns[a := c]) == w.s;
    hide *;
    SendOk(c, pc, oks);
    QuietSound(w, a, c, AfterSend(pc, oks));
  }

  lemma UndoOk(m: Meta, c: Conn, k: Worker)
    requires m.WellFormed() && ConnOk(m, c) && WorkerOk(m, c, k) && k.pc.Unsent?
    ensures var c' := c.(pending := c.pending - Elements(k.pc.failed));
      var pc := Sent(k.pc.count, k.pc.depth);
      && ConnOk(m, c') && WorkerOk(m, c', k.(pc := pc))
      && Holds(c, k.pc) <= Holds(c', pc) + Elements(k.pc.failed)
  {
    hide Meta.WellFormed;
    BatchPending(c, k.pc.failed);
    TilesWithin(m, (c.pending - Elements(k.pc.failed)).Keys, c.pending.Keys);
    hide Elements, NoDup, AllTiles, ShortQueue, Meta.WellFormed;
  }

  lemma UndoSound(w: World, a: Addr)
    requires Inv(w) && a in w.workers && w.workers[a].pc.Unsent?
    ensures var pc := w.workers[a].pc;
      Sound(w, Then(w, a, S.DropUnsent(w.s, a, pc.failed), Sent(pc.count, pc.depth)), a)
  {
    InvFacts(w, a);
    hide Inv, Sound, ConnOk, WorkerOk, Hand, Holds, Download.Valid, Elements;
    var (c, pc) := (w.s.conns[a], w.workers[a].pc);
    UndoOk(w.s.dl.meta, c, w.workers[a]);
    LetGoSound(w, a, c.(pending := c.pending - Elements(pc.failed)), Sent(pc.count, pc.depth), Elements(pc.failed));
  }

  // ---- the rest ----

  lemma ServedOk(m: Meta, c: Conn, k: Worker, pc: Pc)
    requires m.WellFormed() && WorkerOk(m, c, k) && k.pc.Serving? && (pc == Idle || pc == Closing)
    ensures WorkerOk(m, c, k.(pc := pc))
  {
    hide Meta.WellFormed, AllTiles;
  }

  lemma ServeSound(w: World, a: Addr, writes: nat)
    requires Inv(w) && a in w.workers && w.workers[a].pc.Serving?
    ensures var (s, ok) := S.ServeUploads(w.s, w.workers[a].pc.requests, writes);
      Sound(w, Then(w, a, s, if ok then Idle else Closing), a)
  {
    InvFacts(w, a);
    var (s, ok) := S.ServeUploads(w.s, w.workers[a].pc.requests, writes);
    var (c, k) := (w.s.conns[a], w.workers[a]);
    var pc := if ok then Idle else Closing;
    OutsideValidity(w.s.dl, w.s.dl.requested, s.dl.uploaded);
    SameHand(c, pc, k.pc);
    assert s == w.s.(dl := w.s.dl.(uploaded := s.dl.uploaded));
    ServedOk(w.s.dl.meta, c, k, pc);
    hide *;
    assert k.(pc := pc).tally == k.tally && Slack(s.stats) == Slack(w.s.stats);
    GoesOn(w, a, s, k.(pc := pc));
  }

  lemma LeaveSound(w: World, a: Addr)
    requires Inv(w) && a in w.workers && w.workers[a].pc == Closing
    ensures Sound(w, Gone(w, a, S.Disconnect(w.s, a)), a)
  {
    InvFacts(w, a);
    var pending := w.s.conns[a].pending.Keys;
    OutsideValidity(w.s.dl, w.s.dl.requested - pending, w.s.dl.uploaded);
    var w' := Gone(w, a, S.Disconnect(w.s, a));
    assert HeldAt(w, a) == pending;
    GoneStats(w, a, w');
    hide Inv, Download.Valid, ConnOk, WorkerOk, HeldAt, StatsOk;
  }

  lemma HandleSound(w: World, a: Addr, m: Message)
    requires Inv(w) && a in w.workers && w.workers[a].pc == Idle && m.kind != Piece
    ensures var (s, stuck) := S.HandleMessage(w.s, a, m);
      Sound(w, if stuck then Gone(w, a, s) else Then(w, a, s, Idle), a)
  {
    InvFacts(w, a);
    ProcessKeepsLimits(w.s.conns[a], m, w.s.host);
    var (c, stuck) := Process(w.s.conns[a], m, w.s.host);
    if stuck { PanicChangesNothing(w.s.conns[a], m, w.s.host); }
    hide Inv, Sound, Process, Download.Valid, AllTiles, ShortQueue;
    if stuck { Vanishes(w, a, w.s); } else { QuietSound(w, a, c, Idle); }
  }

  lemma PanicChangesNothing(c: Conn, m: Message, host: Host)
    requires m.kind != Piece && Process(c, m, host).1
    ensures Process(c, m, host).0 == c
  {
  }

  lemma TakeUploadsSound(w: World, a: Addr)
    requires Inv(w) && a in w.workers && w.workers[a].pc == Idle
    ensures var (s, requests) := S.TakeUploads(w.s, a);
      Sound(w, Then(w, a, s, if requests == [] then Idle else Serving(requests)), a)
  {
    InvFacts(w, a);
    hide Inv, Sound, Download.Valid, AllTiles;
    var (s, requests) := S.TakeUploads(w.s, a);
    QuietSound(w, a, s.conns[a], if requests == [] then Idle else Serving(requests));
  }

  // ---- every section ----

  lemma Unchanged(w: World, a: Addr)
    requires Inv(w)
    ensures Sound(w, w, a)
  {
    assert AddrOk(w, a);
  }

  /** Every section of every worker, whatever the environment decides, is sound. */
  lemma NextSound(w: World, l: Label)
    requires Inv(w)
    ensures Sound(w, Next(w, l), l.a)
  {
    var a := l.a;
    Unchanged(w, a);
    hide Sound, Inv, S.Choose, S.Expire, S.TakeUploads, S.ServeUploads, S.HandleMessage, StoreTaken, TakePiece,
         S.AddBatch, S.DropUnsent, S.CountSent, S.Disconnect, Hand;
    if l.Join? {
      if a !in w.s.conns && a !in w.workers { JoinSound(w, a); }
    } else if a in w.workers {
      NextOfSound(w, l, w.workers[a].pc);
    }
  }

  lemma NextOfSound(w: World, l: Label, pc: Pc)
    requires Inv(w) && !l.Join? && l.a in w.workers && w.workers[l.a].pc == pc
    ensures Sound(w, NextOf(w, l, pc, w.workers[l.a].tally), l.a)
  {
    if pc.Idle? { IdleSound(w, l); } else { BusySound(w, l, pc); }
    hide Sound, NextOfIdle, NextOfBusy;
  }

  lemma IdleSound(w: World, l: Label)
    requires Inv(w) && l.a in w.workers && w.workers[l.a].pc == Idle
    ensures Sound(w, NextOfIdle(w, l), l.a)
  {
    hide Meta.WellFormed;
    var a := l.a;
    InvFacts(w, a);
    Unchanged(w, a);
    hide Inv, Sound, ConnOk, WorkerOk, S.Choose, S.Expire, S.TakeUploads, S.HandleMessage, TakePiece, Download.Valid,
         ShortQueue;
    match l
    case Handle(_, m) => if m.kind == Piece { TakePieceSound(w, a, m.payload); } else { HandleSound(w, a, m); }
    case Expire(_, now) => ExpireSound(w, a, now);
    case Choose(_, start) => ChooseSound(w, a, start);
    case TakeUploads(_) => TakeUploadsSound(w, a);
    case FlushMetadata(_) => QuietSound(w, a, S.FlushMetadata(w.s, a).0.conns[a], Idle);
    case KeepAlive(_, checked, now) => QuietSound(w, a, S.KeepAlive(w.s, a, checked, now).0.conns[a], Idle);
    case Break(_) => QuietSound(w, a, w.s.conns[a], Closing);
    case _ =>
  }

  /** The three sections that only count. */
  lemma CountingSound(w: World, l: Label, pc: Pc)
    requires Inv(w) && l.a in w.workers && w.workers[l.a].pc == pc
    requires (l.CountResponse? && pc.Taken?) || (l.CountTimeouts? && pc.Released?) || (l.CountSent? && pc.Sent?)
    ensures Sound(w, NextOfBusy(w, l, pc, w.workers[l.a].tally), l.a)
  {
    InvFacts(w, l.a);
    var w' := NextOfBusy(w, l, pc, w.workers[l.a].tally);
    hide Inv, Sound, ConnOk, Download.Valid, AllTiles, Meta.WellFormed;
    CountSound(w, l.a, w'.s.stats, w'.workers[l.a]);
  }

  lemma BusySound(w: World, l: Label, pc: Pc)
    requires Inv(w) && l.a in w.workers && w.workers[l.a].pc == pc
    ensures Sound(w, NextOfBusy(w, l, pc, w.workers[l.a].tally), l.a)
  {
    hide Meta.WellFormed;
    var a := l.a;
    InvFacts(w, a);
    Unchanged(w, a);
    hide Inv, Sound, ConnOk, WorkerOk, StoreTaken, S.ServeUploads, S.AddBatch, S.DropUnsent, S.Disconnect,
         S.CountSent, Download.Valid, ShortQueue, Elements;
    match (l, pc)
    case (Begin(_), Starting) => QuietSound(w, a, S.Enter(w.s, a).conns[a], Idle);
    case (Abandon(_), Starting) => Vanishes(w, a, w.s);
    case (CountResponse(_), Taken(_, _)) => CountingSound(w, l, pc);
    case (Store(_), Received(b, data, held)) => StoreSound(w, a, b, data, held);
    case (Release(_), Expired(_)) => ReleaseSound(w, a);
    case (CountTimeouts(_), Released(_)) => CountingSound(w, l, pc);
    case (Add(_, times), Picked(batch, _)) => if |times| == |batch| { AddSound(w, a, times); }
    case (Send(_, oks), Sending(_, _)) => SendSound(w, a, oks);
    case (Undo(_), Unsent(_, _, _)) => UndoSound(w, a);
    case (CountSent(_), Sent(_, _)) => CountingSound(w, l, pc);
    case (Serve(_, writes), Serving(_)) => ServeSound(w, a, writes);
    case (Leave(_), Closing) => LeaveSound(w, a);
    case _ =>
  }

  /** The invariant is kept by every section. */
  lemma NextKeepsInv(w: World, l: Label)
    requires Inv(w)
    ensures Inv(Next(w, l)) && Next(w, l).s.dl.meta == w.s.dl.meta
  {
    NextSound(w, l);
    var w' := Next(w, l);
    forall a ensures AddrOk(w', a) {
      if a != l.a {
        assert AddrOk(w, a);
        OthersUntouched(w, l, a);
      }
    }
    forall b | b in w'.s.dl.requested ensures exists a :: b in HeldAt(w', a) {
      if b in w.s.dl.requested {
        var a :| b in HeldAt(w, a);
        if a != l.a { OthersUntouched(w, l, a); }
        assert b in HeldAt(w', a);
      } else {
        assert b in HeldAt(w', l.a);
      }
    }
  }
}
