/**
 * Many peer workers over one shared state. A worker's program counter says what
 * it carries from one lock-guarded section to the next; any interleaving of
 * sections is a run.
 */
module Protocol {
  import opened Basics
  import opened Geometry
  import opened Downloads
  import opened Wire
  import opened Pools
  import opened Connections
  import S = Sections

  /** Where a worker stands, with the blocks in its hand. */
  datatype Pc =
    | Starting                                             // connected, not yet in the main loop
    | Idle                                                 // between operations of the main loop
    | Picked(batch: seq<BlockInfo>, depth: nat)            // marked as requested, not yet pending
    | Sending(batch: seq<BlockInfo>, depth: nat)           // pending, being written out
    | Unsent(failed: seq<BlockInfo>, count: nat, depth: nat)
    | Sent(count: nat, depth: nat)                         // not yet counted
    | Taken(block: BlockInfo, data: bytes)                 // off the pending list, not yet counted
    | Received(block: BlockInfo, data: bytes, held: bool)  // not yet stored
    | Expired(blocks: set<BlockInfo>)                      // off the pending list, not yet released
    | Released(count: nat)                                 // not yet counted
    | Serving(requests: seq<PieceRequest>)
    | Closing

  /** What one worker has counted since it connected. */
  datatype Tally = Tally(sent: nat, responses: nat, timeouts: nat)
  {
    function Net(): int { sent - responses - timeouts }
  }

  datatype Worker = Worker(pc: Pc, tally: Tally)

  /** At most one live worker per address. */
  datatype World = World(s: S.Shared, workers: map<Addr, Worker>)

  /** One section of one worker, with whatever the environment decides. */
  datatype Label =
    | Join(a: Addr) | Begin(a: Addr) | Abandon(a: Addr)
    | Handle(a: Addr, m: Message) | CountResponse(a: Addr) | Store(a: Addr)
    | Expire(a: Addr, now: nat) | Release(a: Addr) | CountTimeouts(a: Addr)
    | Choose(a: Addr, start: nat) | Add(a: Addr, times: seq<nat>) | Send(a: Addr, oks: nat)
    | Undo(a: Addr) | CountSent(a: Addr)
    | TakeUploads(a: Addr) | Serve(a: Addr, writes: nat) | FlushMetadata(a: Addr)
    | KeepAlive(a: Addr, checked: nat, now: nat)
    | Break(a: Addr) | Leave(a: Addr)

  /** The shared state and worker a after a section. */
  function Then(w: World, a: Addr, s: S.Shared, pc: Pc): World
    requires a in w.workers
  {
    World(s, w.workers[a := w.workers[a].(pc := pc)])
  }

  function Tallied(w: World, a: Addr, s: S.Shared, pc: Pc, tally: Tally): World {
    World(s, w.workers[a := Worker(pc, tally)])
  }

  /** A worker that is gone without cleaning up. */
  function Gone(w: World, a: Addr, s: S.Shared): World { World(s, w.workers - {a}) }

  /** A piece message: a short payload is an error, anything else is taken off the pending list. */
  function TakePiece(w: World, a: Addr, payload: bytes): World
    requires a in w.workers
  {
    match ParsePiece(payload)
    case None => Then(w, a, w.s, Closing)
    case Some((b, data)) =>
      var (s, pending) := S.TakePending(w.s, a, b);
      Then(w, a, s, if pending then Taken(b, data) else Received(b, data, false))
  }

  function StoreTaken(w: World, a: Addr, b: BlockInfo, data: bytes): World
    requires a in w.workers && w.s.Shaped()
  {
    var (s, outcome) := S.StoreBlock(w.s, b, data);
    match outcome
    case HashMismatch => Then(w, a, s, Closing)
    case Panicked => Gone(w, a, s)
    case _ => Then(w, a, s, Idle)
  }

  /** The effect of one section; a label that is not enabled changes nothing. */
  function Next(w: World, l: Label): World
    requires w.s.Shaped()
  {
    if l.Join? then
      // only addresses not yet in the table are dialled
      if l.a !in w.s.conns && l.a !in w.workers
      then Tallied(w, l.a, S.Connect(w.s, l.a), Starting, Tally(0, 0, 0))
      else w
    else if l.a !in w.workers then w
    else NextOf(w, l, w.workers[l.a].pc, w.workers[l.a].tally)
  }

  function NextOf(w: World, l: Label, pc: Pc, t: Tally): World
    requires w.s.Shaped() && !l.Join? && l.a in w.workers
  {
    if pc.Idle? then NextOfIdle(w, l) else NextOfBusy(w, l, pc, t)
  }

  /** Operations of the main loop that may begin. */
  function NextOfIdle(w: World, l: Label): World
    requires w.s.Shaped() && l.a in w.workers
  {
    var a := l.a;
    match l
    case Handle(_, m) =>
      if m.kind == Piece then TakePiece(w, a, m.payload)
      else
        var (s, stuck) := S.HandleMessage(w.s, a, m);
        if stuck then Gone(w, a, s) else Then(w, a, s, Idle)
    case Expire(_, now) =>
      var (s, expired) := S.Expire(w.s, a, now);
      Then(w, a, s, if expired == {} then Idle else Expired(expired))
    case Choose(_, start) =>
      if a in w.s.conns && w.s.conns[a].CanDownload() then
        var (s, batch, depth) := S.Choose(w.s, a, start);
        Then(w, a, s, if batch == [] then Idle else Picked(batch, depth))
      else w
    case TakeUploads(_) =>
      var (s, requests) := S.TakeUploads(w.s, a);
      Then(w, a, s, if requests == [] then Idle else Serving(requests))
    case FlushMetadata(_) => Then(w, a, S.FlushMetadata(w.s, a).0, Idle)
    case KeepAlive(_, checked, now) => Then(w, a, S.KeepAlive(w.s, a, checked, now).0, Idle)
    case Break(_) => Then(w, a, w.s, Closing)
    case _ => w
  }

  /** The next section of an operation under way. */
  function NextOfBusy(w: World, l: Label, pc: Pc, t: Tally): World
    requires w.s.Shaped() && l.a in w.workers
  {
    var a := l.a;
    match (l, pc)
    case (Begin(_), Starting) => Then(w, a, S.Enter(w.s, a), Idle)
    case (Abandon(_), Starting) => Gone(w, a, w.s)
    case (CountResponse(_), Taken(b, data)) =>
      Tallied(w, a, S.CountResponse(w.s), Received(b, data, true), t.(responses := t.responses + 1))
    case (Store(_), Received(b, data, _)) => StoreTaken(w, a, b, data)
    case (Release(_), Expired(blocks)) => Then(w, a, S.Release(w.s, blocks), Released(|blocks|))
    case (CountTimeouts(_), Released(n)) =>
      Tallied(w, a, S.CountTimeouts(w.s, n), Idle, t.(timeouts := t.timeouts + n))
    case (Add(_, times), Picked(batch, depth)) =>
      if |times| == |batch| then Then(w, a, S.AddBatch(w.s, a, batch, times), Sending(batch, depth)) else w
    case (Send(_, oks), Sending(batch, depth)) =>
      Then(w, a, w.s, if oks < |batch| then Unsent(batch[oks..], oks, depth) else Sent(|batch|, depth))
    case (Undo(_), Unsent(failed, count, depth)) => Then(w, a, S.DropUnsent(w.s, a, failed), Sent(count, depth))
    case (CountSent(_), Sent(count, depth)) =>
      Tallied(w, a, S.CountSent(w.s, count, depth), Idle, t.(sent := t.sent + count))
    case (Serve(_, writes), Serving(requests)) =>
      var (s, ok) := S.ServeUploads(w.s, requests, writes);
      Then(w, a, s, if ok then Idle else Closing)
    case (Leave(_), Closing) => Gone(w, a, S.Disconnect(w.s, a))
    case _ => w
  }

  function Init(meta: Meta, host: Host): World {
    World(S.Shared(Fresh(meta), map[], S.Stats(0, 0, 0, 0), host), map[])
  }

  // ---- who holds what ----

  function Hand(pc: Pc): set<BlockInfo> {
    match pc
    case Picked(batch, _) => Elements(batch)
    case Taken(b, _) => {b}
    case Received(b, _, held) => if held then {b} else {}
    case Expired(blocks) => blocks
    case _ => {}
  }

  function HandAt(w: World, a: Addr): set<BlockInfo> {
    if a in w.workers then Hand(w.workers[a].pc) else {}
  }

  function PendingAt(w: World, a: Addr): set<BlockInfo> {
    if a in w.s.conns then w.s.conns[a].pending.Keys else {}
  }

  /** Blocks assigned to address a: pending on its connection, or in its worker's hand. */
  function HeldAt(w: World, a: Addr): set<BlockInfo> { PendingAt(w, a) + HandAt(w, a) }

  /** Every requested block is held at some address. */
  ghost predicate NoOrphan(w: World) {
    forall b | b in w.s.dl.requested :: exists a :: b in HeldAt(w, a)
  }

  /** Two worlds that agree on everything kept for address a. */
  predicate SameAt(w: World, w': World, a: Addr) {
    && (a in w'.workers <==> a in w.workers) && (a in w.workers ==> w'.workers[a] == w.workers[a])
    && (a in w'.s.conns <==> a in w.s.conns) && (a in w.s.conns ==> w'.s.conns[a] == w.s.conns[a])
  }

  lemma SameHeld(w: World, w': World, a: Addr)
    requires SameAt(w, w', a)
    ensures HeldAt(w', a) == HeldAt(w, a) && PendingAt(w', a) == PendingAt(w, a) && HandAt(w', a) == HandAt(w, a)
  {
  }

  /** The section of l touches no other address. */
  lemma OthersUntouched(w: World, l: Label, a: Addr)
    requires w.s.Shaped() && a != l.a
    ensures var w' := Next(w, l);
      SameAt(w, w', a) && HeldAt(w', a) == HeldAt(w, a) && HandAt(w', a) == HandAt(w, a)
  {
    if l.a in w.workers {
      IdleTouchesNoOther(w, l, a);
      BusyTouchesNoOther(w, l, a);
    }
    hide NextOfIdle, NextOfBusy, HeldAt, HandAt;
    SameHeld(w, Next(w, l), a);
  }

  lemma IdleTouchesNoOther(w: World, l: Label, a: Addr)
    requires w.s.Shaped() && a != l.a && l.a in w.workers
    ensures SameAt(w, NextOfIdle(w, l), a)
  {
    hide ParsePiece, Process, S.PickBatch, S.PiecesOf, TimedOut;
  }

  lemma BusyTouchesNoOther(w: World, l: Label, a: Addr)
    requires w.s.Shaped() && a != l.a && l.a in w.workers
    ensures SameAt(w, NextOfBusy(w, l, w.workers[l.a].pc, w.workers[l.a].tally), a)
  {
    hide Complete, S.AddAll, S.Answers;
  }
}
