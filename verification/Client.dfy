/**
 * The client's lock-guarded sections as methods over the shared objects. Each
 * is proved to do what the worker protocol says of it.
 */
module Clients {
  import opened Basics
  import opened Geometry
  import opened Downloads
  import opened DownloadStates
  import opened Bitfields
  import opened Wire
  import opened Pools
  import opened Connections
  import S = Sections

  ghost function ValuesOf(v: map<Addr, PeerConnection>): map<Addr, Conn>
    reads v.Values
  {
    map a | a in v :: v[a].Value()
  }

  lemma ValuesAfter(v: map<Addr, PeerConnection>, a: Addr, conn: PeerConnection)
    ensures ValuesOf(v[a := conn]) == ValuesOf(v)[a := conn.Value()]
  {
  }

  /** Connections of which at most one has changed. */
  lemma ChangedOne(v: map<Addr, PeerConnection>, conns: map<Addr, Conn>, a: Addr)
    requires a in v && conns.Keys == v.Keys && forall b | b in v && b != a :: v[b].Value() == conns[b]
    ensures ValuesOf(v) == conns[a := v[a].Value()]
  {
  }

  lemma ValuesWithout(v: map<Addr, PeerConnection>, a: Addr)
    ensures ValuesOf(v - {a}) == ValuesOf(v) - {a}
  {
  }

  class BitTorrentClient {
    const download: DownloadState
    const connections: IndexedConnections<PeerConnection>
    const host: Host
    var stats: S.Stats

    /** The objects of the connected peers. */
    ghost function Peers(): set<PeerConnection>
      reads connections
      requires connections.Valid()
    {
      connections.View().Values
    }

    /** No two addresses share a connection object. */
    ghost predicate Valid()
      reads download, connections
    {
      && download.Valid() && connections.Valid()
      && forall a, b | a in connections.View() && b in connections.View() && a != b ::
           connections.View()[a] != connections.View()[b]
    }

    ghost function Conns(): map<Addr, Conn>
      requires connections.Valid()
      reads connections, Peers()
    {
      ValuesOf(connections.View())
    }

    /** The shared state these objects stand for. */
    ghost function View(): S.Shared
      reads this, download, connections, Peers()
      requires connections.Valid()
    {
      S.Shared(download.Value(), Conns(), stats, host)
    }

    constructor (meta: Meta, host: Host)
      requires meta.WellFormed()
      ensures Valid() && fresh(download) && fresh(connections)
      ensures View() == S.Shared(Fresh(meta), map[], S.Stats(0, 0, 0, 0), host)
    {
      download := new DownloadState(meta);
      connections := new IndexedConnections<PeerConnection>();
      this.host := host;
      stats := S.Stats(0, 0, 0, 0);
    }

    // ---- choosing and sending requests ----

    /** Fill the pipeline of one peer. */
    method Choose(a: Addr, start: nat) returns (batch: seq<BlockInfo>, depth: nat)
      requires Valid()
      modifies download
      ensures Valid() && (View(), batch, depth) == S.Choose(old(View()), a, start)
    {
      hide Pool.FreeWell, Pool.EmptySlotsAreFree, Download.Valid, S.PickBatch, S.PiecesOf, S.FreeSlots, Meta.WellFormed;
      batch, depth := [], 0;
      var conn := connections.Get(a);
      if conn.Some? && conn.value.bitfield.Some? {
        assert Conns()[a] == conn.value.Value();
        batch, depth := ChooseFrom(conn.value, start);
        assert Conns() == old(Conns());
      }
    }

    method ChooseFrom(c: PeerConnection, start: nat) returns (batch: seq<BlockInfo>, depth: nat)
      requires download.Valid() && c.bitfield.Some?
      modifies download
      ensures download.Valid() && depth == |c.pendingRequests| + |batch|
      ensures var has := S.PiecesOf(c.bitfield.value, download.meta.totalPieces);
        (download.Value(), batch) == S.PickBatch(old(download.Value()), has, start, S.FreeSlots(c.Value()))
    {
      hide Download.Valid, S.PickBatch, S.PiecesOf, Meta.WellFormed;
      var field := new Bitfield(c.bitfield.value);
      var has := BitsOf(field, download.meta.totalPieces);
      var pending := |c.pendingRequests|;
      var slots := if pending < MAX_PIPELINE_DEPTH then MAX_PIPELINE_DEPTH - pending else 0;
      var n := if S.BATCH_SIZE <= slots then S.BATCH_SIZE else slots;
      batch := PickBlocks(has, start, n);
      depth := pending + |batch|;
    }

    method BitsOf(field: Bitfield, total: nat) returns (has: seq<bool>)
      ensures has == S.PiecesOf(field.bits, total)
    {
      has := [];
      for i := 0 to total
        invariant has == S.PiecesOf(field.bits, i)
      {
        has := has + [field.HasPiece(i)];
      }
    }

    /** Pick and mark up to n blocks. */
    method PickBlocks(has: seq<bool>, start: nat, n: nat) returns (batch: seq<BlockInfo>)
      requires download.Valid()
      modifies download
      ensures download.Valid()
      ensures (download.Value(), batch) == S.PickBatch(old(download.Value()), has, start, n)
    {
      ghost var d := download.Value();
      assert d.meta.WellFormed() && |d.pieces| == d.meta.totalPieces;
      hide Pick, IsFirstEligible, Download.Valid, Meta.WellFormed;
      batch := [];
      for i := 0 to n
        invariant download.Valid() && download.Value() == d.(requested := download.requestedBlocks)
        invariant S.PickBatch(d, has, start, n).0 == S.PickBatch(download.Value(), has, start, n - i).0
        invariant S.PickBatch(d, has, start, n).1 == batch + S.PickBatch(download.Value(), has, start, n - i).1
      {
        ghost var before := download.Value();
        var r := download.PickBlock(has, start);
        if r.None? {
          assert S.PickBatch(before, has, start, n - i) == (before, []);
          assert batch + [] == batch;
          return;
        }
        download.MarkBlockRequested(r.value);
        ghost var rest := S.PickBatch(download.Value(), has, start, n - i - 1).1;
        assert batch + ([r.value] + rest) == batch + [r.value] + rest;
        batch := batch + [r.value];
      }
      assert S.PickBatch(download.Value(), has, start, 0) == (download.Value(), []);
      assert batch + [] == batch;
    }

    /** Add a batch to one peer's pending requests. */
    method AddBatch(a: Addr, batch: seq<BlockInfo>, times: seq<nat>)
      requires Valid() && |times| == |batch|
      modifies Peers()
      ensures Valid() && View() == S.AddBatch(old(View()), a, batch, times)
    {
      hide Pool.FreeWell, Pool.EmptySlotsAreFree, Download.Valid, S.AddAll;
      var conn := connections.Get(a);
      if conn.Some? {
        AddEach(conn.value, batch, times);
        assert Conns() == old(Conns())[a := conn.value.Value()];
      }
    }

    static method AddEach(c: PeerConnection, batch: seq<BlockInfo>, times: seq<nat>)
      requires |times| == |batch|
      modifies c
      ensures c.Value() == S.AddAll(old(c.Value()), batch, times)
    {
      ghost var before := c.Value();
      for i := 0 to |batch|
        invariant c.Value() == S.AddAll(before, batch[..i], times[..i])
      {
        assert batch[..i + 1][..i] == batch[..i] && times[..i + 1][..i] == times[..i];
        c.AddPendingRequest(batch[i], times[i]);
      }
      assert batch[..|batch|] == batch && times[..|batch|] == times;
    }

    /** Take back the requests that could not be sent. */
    method DropUnsent(a: Addr, failed: seq<BlockInfo>)
      requires Valid()
      modifies download, Peers()
      ensures Valid() && View() == S.DropUnsent(old(View()), a, failed)
    {
      hide Pool.FreeWell, Pool.EmptySlotsAreFree, Download.Valid, Elements;
      var conn := connections.Get(a);
      if conn.Some? {
        ghost var (view, conns) := (connections.View(), Conns());
        DropEach(conn.value, failed);
        ChangedOne(view, conns, a);
        hide ValuesOf, Pool.IndexWell, Pool.View;
      }
    }

    method DropEach(c: PeerConnection, failed: seq<BlockInfo>)
      requires download.Valid()
      modifies c, download
      ensures download.Valid()
      ensures c.Value() == old(c.Value()).(pending := old(c.pendingRequests) - Elements(failed))
      ensures download.Value() == old(download.Value()).(requested := old(download.requestedBlocks) - Elements(failed))
    {
      hide Pool.FreeWell, Pool.EmptySlotsAreFree, Download.Valid;
      ghost var (pending, requested) := (c.pendingRequests, download.requestedBlocks);
      for i := 0 to |failed|
        invariant download.Valid()
        invariant c.Value() == old(c.Value()).(pending := pending - Elements(failed[..i]))
        invariant download.Value() == old(download.Value()).(requested := requested - Elements(failed[..i]))
      {
        assert Elements(failed[..i + 1]) == Elements(failed[..i]) + {failed[i]};
        var _ := c.RemovePendingRequest(failed[i]);
        download.ReleaseBlock(failed[i]);
      }
      assert failed[..|failed|] == failed;
    }

    method CountSent(count: nat, depth: nat)
      requires Valid()
      modifies this`stats
      ensures Valid() && View() == S.CountSent(old(View()), count, depth)
    {
      hide Pool.Valid, Download.Valid, Valid;
      if count > 0 {
        stats := stats.(sent := stats.sent + count);
        if depth > stats.maxDepth { stats := stats.(maxDepth := depth); }
      }
    }

    // ---- receiving blocks ----

    method TakePending(a: Addr, b: BlockInfo) returns (wasPending: bool)
      requires Valid()
      modifies Peers()
      ensures Valid() && (View(), wasPending) == S.TakePending(old(View()), a, b)
    {
      hide Pool.FreeWell, Pool.EmptySlotsAreFree, Download.Valid;
      wasPending := false;
      var conn := connections.Get(a);
      if conn.Some? {
        wasPending := conn.value.RemovePendingRequest(b);
        assert Conns() == old(Conns())[a := conn.value.Value()];
      }
    }

    method CountResponse()
      requires Valid()
      modifies this`stats
      ensures Valid() && View() == S.CountResponse(old(View()))
    {
      hide Pool.Valid, Download.Valid, Valid;
      stats := stats.(responses := stats.responses + 1);
    }

    method StoreBlock(b: BlockInfo, data: bytes) returns (outcome: Outcome)
      requires Valid()
      modifies download
      ensures Valid() && (View(), outcome) == S.StoreBlock(old(View()), b, data)
    {
      hide Pool.FreeWell, Pool.EmptySlotsAreFree, Download.Valid, Complete;
      outcome := download.CompleteBlock(b, data);
      assert Conns() == old(Conns());
    }

    // ---- timeouts ----

    /** Take the timed-out requests off one peer's pending list. */
    method Expire(a: Addr, now: nat) returns (expired: seq<BlockInfo>)
      requires Valid()
      modifies Peers()
      ensures Valid() && (View(), Elements(expired)) == S.Expire(old(View()), a, now)
      ensures |expired| == |Elements(expired)|
    {
      hide Pool.FreeWell, Pool.EmptySlotsAreFree, Download.Valid, TimedOut;
      var conn := connections.Get(a);
      if conn.Some? {
        expired := conn.value.ClearTimedOutRequests(now);
        assert Conns() == old(Conns())[a := conn.value.Value()];
      } else {
        expired := [];
      }
      NoDupSize(expired);
    }

    method Release(blocks: seq<BlockInfo>)
      requires Valid()
      modifies download
      ensures Valid() && View() == S.Release(old(View()), Elements(blocks))
    {
      hide Pool.FreeWell, Pool.EmptySlotsAreFree, Download.Valid;
      ghost var requested := download.requestedBlocks;
      for i := 0 to |blocks|
        invariant Valid()
        invariant download.Value() == old(download.Value()).(requested := requested - Elements(blocks[..i]))
      {
        assert Elements(blocks[..i + 1]) == Elements(blocks[..i]) + {blocks[i]};
        download.ReleaseBlock(blocks[i]);
      }
      assert blocks[..|blocks|] == blocks;
      assert Conns() == old(Conns());
    }

    method CountTimeouts(count: nat)
      requires Valid()
      modifies this`stats
      ensures Valid() && View() == S.CountTimeouts(old(View()), count)
    {
      hide Pool.Valid, Download.Valid, Valid;
      stats := stats.(timeouts := stats.timeouts + count);
    }

    // ---- the life of a connection ----

    method Connect(a: Addr)
      requires Valid()
      modifies connections
      ensures Valid() && View() == S.Connect(old(View()), a)
    {
      hide Pool.FreeWell, Pool.EmptySlotsAreFree, Download.Valid;
      ghost var conns := Conns();
      var conn := new PeerConnection();
      assert conn !in Peers() && Conns() == conns;
      AddConn(a, conn);
    }

    method AddConn(a: Addr, conn: PeerConnection)
      requires Valid() && conn !in Peers()
      modifies connections
      ensures Valid() && Conns() == old(Conns())[a := conn.Value()]
    {
      hide Pool.FreeWell, Pool.EmptySlotsAreFree, Download.Valid, Inserted;
      ghost var before := connections.View();
      assert forall b | b in before :: before[b] != conn;
      connections.Insert(a, conn);
      assert connections.View() == before[a := conn];
      assert ValuesOf(before) == old(Conns());
      ValuesAfter(before, a, conn);
      hide ValuesOf;
    }

    method Enter(a: Addr)
      requires Valid()
      modifies Peers()
      ensures Valid() && View() == S.Enter(old(View()), a)
    {
      hide Pool.FreeWell, Pool.EmptySlotsAreFree, Download.Valid;
      var conn := connections.Get(a);
      if conn.Some? {
        conn.value.amInterested := true;
        conn.value.amChoking := false;
        assert Conns() == old(Conns())[a := conn.value.Value()];
      }
    }

    /** React to a message other than a piece. */
    method HandleMessage(a: Addr, m: Message) returns (stuck: bool)
      requires Valid() && m.kind != Piece
      modifies Peers()
      ensures Valid() && (View(), stuck) == S.HandleMessage(old(View()), a, m)
    {
      hide Pool.FreeWell, Pool.EmptySlotsAreFree, Download.Valid, Process;
      var conn := connections.Get(a);
      if conn.Some? {
        stuck := conn.value.HandleMessage(m, host);
        assert Conns() == old(Conns())[a := conn.value.Value()];
      } else {
        // the message is still read, and then dropped
        stuck := Process(NewConn(), m, host).1;
      }
    }

    /** Send a keep-alive if nothing was sent for a while; the clock is read before and after. */
    method KeepAlive(a: Addr, checked: nat, now: nat) returns (sent: bool)
      requires Valid()
      modifies Peers()
      ensures Valid() && (View(), sent) == S.KeepAlive(old(View()), a, checked, now)
    {
      hide Pool.FreeWell, Pool.EmptySlotsAreFree, Download.Valid;
      sent := false;
      var conn := connections.Get(a);
      if conn.Some? {
        var last := conn.value.lastRequestTime;
        if last.None? || checked > last.value + KEEP_ALIVE_INTERVAL {
          conn.value.lastRequestTime := Some(now);
          sent := true;
          assert Conns() == old(Conns())[a := conn.value.Value()];
        }
      }
    }

    /** Unmark everything a peer had pending, and remove its connection. */
    method Disconnect(a: Addr)
      requires Valid()
      modifies download, connections
      ensures Valid() && View() == S.Disconnect(old(View()), a)
    {
      hide Pool.FreeWell, Pool.EmptySlotsAreFree, Download.Valid, Removed;
      ghost var (conns, requested) := (Conns(), download.requestedBlocks);
      UnmarkPending(a);
      RemoveConn(a);
      if a !in conns { WithoutAbsent(conns, a); }
      assert requested - {} == requested;
    }

    method UnmarkPending(a: Addr)
      requires Valid()
      modifies download
      ensures Valid() && Conns() == old(Conns())
      ensures download.Value() == old(download.Value()).(
        requested := old(download.requestedBlocks) - (if a in Conns() then Conns()[a].pending.Keys else {}))
    {
      hide Pool.FreeWell, Pool.EmptySlotsAreFree, Download.Valid;
      var conn := connections.Get(a);
      if conn.Some? {
        UnmarkAll(conn.value.pendingRequests.Keys);
      }
      assert Conns() == old(Conns());
    }

    method RemoveConn(a: Addr)
      requires Valid()
      modifies connections
      ensures Valid() && Conns() == old(Conns()) - {a}
    {
      hide Pool.FreeWell, Pool.EmptySlotsAreFree, Download.Valid, Removed;
      ghost var before := connections.View();
      var _ := connections.Remove(a);
      assert ValuesOf(before) == old(Conns()) && connections.View() == before - {a};
      ValuesWithout(before, a);
      hide ValuesOf;
    }

    /** Unmark a set of blocks, in any order. */
    method UnmarkAll(blocks: set<BlockInfo>)
      requires download.Valid()
      modifies download
      ensures download.Valid()
      ensures download.Value() == old(download.Value()).(requested := old(download.requestedBlocks) - blocks)
    {
      hide Pool.FreeWell, Pool.EmptySlotsAreFree, Download.Valid;
      var rest := blocks;
      while rest != {}
        invariant rest <= blocks && download.Valid()
        invariant download.Value() ==
          old(download.Value()).(requested := old(download.requestedBlocks) - (blocks - rest))
        decreases |rest|
      {
        var b :| b in rest;
        download.ReleaseBlock(b);
        rest := rest - {b};
      }
    }

    // ---- uploads ----

    method TakeUploads(a: Addr) returns (requests: seq<PieceRequest>)
      requires Valid()
      modifies Peers()
      ensures Valid() && (View(), requests) == S.TakeUploads(old(View()), a)
    {
      hide Pool.FreeWell, Pool.EmptySlotsAreFree, Download.Valid;
      requests := [];
      var conn := connections.Get(a);
      if conn.Some? {
        ghost var queue := conn.value.pendingUploads;
        requests := conn.value.TakeUploads(S.UPLOADS_PER_FLUSH);
        assert requests == queue[..|requests|] && conn.value.pendingUploads == queue[|requests|..];
        assert Conns() == old(Conns())[a := conn.value.Value()];
      }
    }

    /** Serve requests until one of the writes fails; only finished pieces are served. */
    method ServeUploads(requests: seq<PieceRequest>, writes: nat) returns (sent: seq<Message>, ok: bool)
      requires Valid()
      modifies download
      ensures Valid() && (View(), ok) == S.ServeUploads(old(View()), requests, writes)
      ensures sent == S.Answers(old(download.Value()), requests, writes).0
    {
      hide Pool.FreeWell, Pool.EmptySlotsAreFree, Download.Valid, S.Answers;
      sent, ok := ServeEach(requests, writes);
      assert Conns() == old(Conns());
    }

    method ServeEach(requests: seq<PieceRequest>, writes: nat) returns (sent: seq<Message>, ok: bool)
      requires download.Valid()
      modifies download
      ensures download.Valid() && download.uploaded >= old(download.uploaded)
      ensures download.Value() == old(download.Value()).(uploaded := download.uploaded)
      ensures (sent, download.uploaded - old(download.uploaded), ok)
           == S.Answers(old(download.Value()), requests, writes)
    {
      hide Download.Valid, Served;
      ghost var d := download.Value();
      sent, ok := [], true;
      var i := 0;
      while i < |requests| && ok
        invariant 0 <= i <= |requests| && download.Valid()
        invariant download.uploaded >= d.uploaded
        invariant (sent, download.uploaded - d.uploaded, ok) == S.Answers(d, requests[..i], writes)
        invariant download.Value() == d.(uploaded := download.uploaded)
      {
        S.AnswersStep(d, requests, writes, i);
        var request := requests[i];
        var block := download.GetPieceBlock(request.piece, request.begin, request.length);
        ServedAlike(d, download.Value(), request);
        if block.Some? {
          if |sent| < writes {
            sent := sent + [PieceMessage(request.piece, request.begin, block.value)];
            download.RecordUpload(request.length);
          } else {
            ok := false;
          }
        }
        i := i + 1;
      }
      StoppedEarly(d, requests, writes, i);
    }

    /** Take the queued metadata responses. */
    method FlushMetadata(a: Addr) returns (responses: seq<Message>)
      requires Valid()
      modifies Peers()
      ensures Valid() && (View(), responses) == S.FlushMetadata(old(View()), a)
    {
      hide Pool.FreeWell, Pool.EmptySlotsAreFree, Download.Valid;
      responses := [];
      var conn := connections.Get(a);
      if conn.Some? {
        responses := conn.value.pendingMetadataResponses;
        conn.value.pendingMetadataResponses := [];
        assert Conns() == old(Conns())[a := conn.value.Value()];
      }
    }
  }

  /** What is served does not depend on what has been uploaded. */
  lemma ServedAlike(d: Download, d': Download, r: PieceRequest)
    requires d' == d.(uploaded := d'.uploaded)
    ensures Served(d', r.piece, r.begin, r.length) == Served(d, r.piece, r.begin, r.length)
  {
  }

  /** Once a write has failed nothing more is served. */
  lemma {:induction false} StoppedEarly(d: Download, requests: seq<PieceRequest>, writes: nat, i: nat)
    requires i <= |requests| && (i < |requests| ==> !S.Answers(d, requests[..i], writes).2)
    ensures S.Answers(d, requests, writes) == S.Answers(d, requests[..i], writes)
  {
    if i == |requests| {
      assert requests[..i] == requests;
    } else {
      var init := requests[..|requests| - 1];
      assert init[..i] == requests[..i];
      StoppedEarly(d, init, writes, i);
    }
  }
}
