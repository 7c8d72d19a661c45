/** Short runs spelled out, for the lemmas that show a reachable state. */
module Scripts {
  import opened Basics
  import opened Geometry
  import opened Downloads
  import opened Bitfields
  import opened Wire
  import opened Pools
  import opened Connections
  import opened Protocol
  import opened Safety
  import opened Runs
  import S = Sections

  /** A torrent of one piece of one byte, whatever SHA-1 and its hash are. */
  predicate Tiny(m: Meta) { m.totalPieces == 1 && m.pieceLength == 1 && m.totalSize == 1 && |m.hashes| == 1 }

  const BLOCK := BlockInfo(0, 0, 1)

  lemma TinyShape(m: Meta)
    requires Tiny(m)
    ensures m.WellFormed() && m.BlocksIn(0) == 1 && m.Tile(0, 0) == BLOCK
  {
  }

  function EnterRun(a: Addr): seq<Label> { [Join(a), Begin(a)] }

  /** Be unchoked, and learn that the peer has the piece. */
  function LearnRun(a: Addr): seq<Label> {
    [Handle(a, Message(Unchoke, [])), Handle(a, Message(Bitfield, [128]))]
  }

  /** Pick the block and mark it as pending. */
  function PickRun(a: Addr): seq<Label> { [Label.Choose(a, 0), Label.Add(a, [0])] }

  function FetchRun(a: Addr): seq<Label> { EnterRun(a) + (LearnRun(a) + PickRun(a)) }

  ghost function After(w: World, run: seq<Label>): (w': World)
    requires Inv(w)
    ensures Inv(w') && w'.s.dl.meta == w.s.dl.meta
    decreases |run|
  {
    if run == [] then w
    else
      NextKeepsInv(w, run[0]);
      After(Next(w, run[0]), run[1..])
  }

  lemma {:induction false} ExecThenAfter(meta: Meta, host: Host, before: seq<Label>, run: seq<Label>)
    requires meta.WellFormed()
    ensures Exec(meta, host, before + run) == After(Exec(meta, host, before), run)
    decreases |run|
  {
    hide Next, Inv;
    if run == [] {
      assert before + run == before;
    } else {
      var one := before + [run[0]];
      assert one[..|one| - 1] == before;
      ExecThenAfter(meta, host, one, run[1..]);
      assert one + run[1..] == before + run;
    }
  }

  lemma OneMore(meta: Meta, host: Host, run: seq<Label>, l: Label)
    requires meta.WellFormed()
    ensures Exec(meta, host, run + [l]) == Next(Exec(meta, host, run), l)
  {
    assert (run + [l])[..|run|] == run;
    hide Next, Inv;
  }

  lemma {:induction false} AfterTwice(w: World, one: seq<Label>, two: seq<Label>)
    requires Inv(w)
    ensures After(w, one + two) == After(After(w, one), two)
    decreases |one|
  {
    InvValid(w);
    hide Next, Inv;
    if one == [] {
      assert one + two == two;
    } else {
      NextKeepsInv(w, one[0]);
      AfterTwice(Next(w, one[0]), one[1..], two);
      assert (one + two)[1..] == one[1..] + two;
    }
  }

  lemma {:induction false} OthersKept(w: World, a: Addr, run: seq<Label>, c: Addr)
    requires Inv(w) && (forall i | 0 <= i < |run| :: run[i].a == a) && c != a
    ensures SameAt(w, After(w, run), c)
    decreases |run|
  {
    if run != [] {
      NextKeepsInv(w, run[0]);
      OthersUntouched(w, run[0], c);
      hide Next, Inv;
      OthersKept(Next(w, run[0]), a, run[1..], c);
    }
  }

  /** Nothing marked, nothing tracked, nothing finished. */
  ghost predicate Blank(w: World) {
    Tiny(w.s.dl.meta) && w.s.dl.requested == {} && w.s.dl.blocks == map[] && w.s.dl.pieces == [None]
  }

  lemma TopBit()
    ensures HasPieceIn([128], 0)
  {
    assert HasBit(1, 0) && HasBit(2, 1) && HasBit(4, 2) && HasBit(8, 3);
    assert HasBit(16, 4) && HasBit(32, 5) && HasBit(64, 6) && HasBit(128, 7);
  }

  lemma OnlyChoice(d: Download, c: Conn)
    requires d.Valid() && Tiny(d.meta) && d.requested == {} && d.blocks == map[] && d.pieces == [None]
    requires c.pending == map[]
    ensures S.PickBatch(d, S.PiecesOf([128], 1), 0, S.FreeSlots(c)).1 == [BLOCK]
  {
    TinyShape(d.meta);
    TopBit();
    var has := S.PiecesOf([128], 1);
    assert has == [true];
    var n := S.FreeSlots(c);
    assert n == 10;
    assert FindNext(d, 0, 0) == Some(BLOCK);
    assert Pick(d, has, 0) == Some(BLOCK);
    var d1 := d.(requested := d.requested + {BLOCK});
    assert FindNext(d1, 0, 1) == None;
    assert FindNext(d1, 0, 0) == None;
    assert PickFrom(d1, has, 0, 1) == None;
    assert Pick(d1, has, 0) == None;
    assert S.PickBatch(d1, has, 0, n - 1).1 == [];
  }

  lemma Two(w: World, run: seq<Label>) returns (w1: World, w2: World)
    requires Inv(w) && |run| == 2
    ensures w1 == Next(w, run[0]) && Inv(w1) && w2 == Next(w1, run[1]) && Inv(w2) && After(w, run) == w2
  {
    NextKeepsInv(w, run[0]);
    w1 := Next(w, run[0]);
    NextKeepsInv(w1, run[1]);
    w2 := Next(w1, run[1]);
    hide Next;
    assert run[1..][1..] == [] && After(w2, []) == w2 && After(w1, run[1..]) == w2;
  }

  lemma Enters(w: World, a: Addr)
    requires Inv(w) && a !in w.s.conns && a !in w.workers
    ensures var w' := After(w, EnterRun(a));
      && w'.s.dl == w.s.dl && a in w'.workers && w'.workers[a].pc == Idle
      && a in w'.s.conns && w'.s.conns[a] == NewConn().(amInterested := true, amChoking := false)
  {
    var w1, w2 := Two(w, EnterRun(a));
    hide Inv, After;
  }

  lemma Learns(w: World, a: Addr)
    requires Inv(w) && a in w.s.conns && a in w.workers && w.workers[a].pc == Idle
    requires w.s.conns[a] == NewConn().(amInterested := true, amChoking := false)
    ensures var w' := After(w, LearnRun(a));
      && w'.s.dl == w.s.dl && a in w'.workers && w'.workers[a].pc == Idle && a in w'.s.conns
      && w'.s.conns[a].CanDownload() && w'.s.conns[a].bitfield == Some([128]) && w'.s.conns[a].pending == map[]
  {
    var w1, w2 := Two(w, LearnRun(a));
    hide Inv, After, ProcessExtended;
    assert w1.workers[a].pc == Idle && w1.s.conns[a] == w.s.conns[a].(peerChoking := false);
  }

  lemma ChoosesBlock(w: World, a: Addr)
    requires Inv(w) && Blank(w) && a in w.s.conns && a in w.workers && w.workers[a].pc == Idle
    requires w.s.conns[a].CanDownload() && w.s.conns[a].bitfield == Some([128]) && w.s.conns[a].pending == map[]
    ensures var w' := Next(w, Label.Choose(a, 0));
      && w'.s.dl == w.s.dl.(requested := {BLOCK}) && w'.s.conns == w.s.conns
      && a in w'.workers && w'.workers[a].pc == Picked([BLOCK], 1)
  {
    InvValid(w);
    ChoiceMade(w.s, a);
    hide Inv, S.Choose, Meta.WellFormed;
  }

  lemma ChoiceMade(s: S.Shared, a: Addr)
    requires s.dl.Valid() && Tiny(s.dl.meta) && s.dl.requested == {} && s.dl.blocks == map[] && s.dl.pieces == [None]
    requires a in s.conns && s.conns[a].bitfield == Some([128]) && s.conns[a].pending == map[]
    ensures s.Shaped()
    ensures S.Choose(s, a, 0) == (s.(dl := s.dl.(requested := {BLOCK})), [BLOCK], 1)
  {
    OnlyChoice(s.dl, s.conns[a]);
    ChooseMarks(s, a, 0);
    assert s.dl.meta.totalPieces == 1 && s.dl.requested + Elements([BLOCK]) == {BLOCK};
    hide S.PickBatch, S.PiecesOf, Download.Valid, S.FreeSlots, Elements, Meta.WellFormed, AllTiles, NoDup;
  }

  /** The block is pending at a, whose request is being written. */
  predicate Asking(w: World, a: Addr) {
    && a in w.s.conns && BLOCK in w.s.conns[a].pending
    && a in w.workers && w.workers[a].pc == Sending([BLOCK], 1)
  }

  lemma AddsBlock(w: World, a: Addr)
    requires Inv(w) && a in w.s.conns && a in w.workers && w.workers[a].pc == Picked([BLOCK], 1)
    ensures var w' := Next(w, Label.Add(a, [0]));
      && w'.s.dl == w.s.dl && a in w'.s.conns && BLOCK in w'.s.conns[a].pending
      && a in w'.workers && w'.workers[a].pc == Sending([BLOCK], 1)
  {
    InvValid(w);
    S.AddedAreBatch(w.s.conns[a], [BLOCK], [0]);
    assert BLOCK in Elements([BLOCK]);
    var w' := Next(w, Label.Add(a, [0]));
    hide Inv, S.AddAll, Elements, Download.Valid;
  }

  /** A worker asking an unchoked peer takes the block. */
  lemma Picks(w: World, a: Addr)
    requires Inv(w) && Blank(w) && a in w.s.conns && a in w.workers && w.workers[a].pc == Idle
    requires w.s.conns[a].CanDownload() && w.s.conns[a].bitfield == Some([128]) && w.s.conns[a].pending == map[]
    ensures var w' := After(w, PickRun(a));
      w'.s.dl == w.s.dl.(requested := {BLOCK}) && Asking(w', a)
  {
    var w1, w2 := Two(w, PickRun(a));
    ChoosesBlock(w, a);
    AddsBlock(w1, a);
    hide Inv, Next, After;
  }

  /** A newcomer ends up holding the block, and nobody else notices. */
  lemma Fetches(w: World, a: Addr, c: Addr)
    requires Inv(w) && Blank(w) && a !in w.s.conns && a !in w.workers && c != a
    ensures var w' := After(w, FetchRun(a));
      && w'.s.dl == w.s.dl.(requested := {BLOCK}) && Asking(w', a) && BLOCK in HeldAt(w', a) && SameAt(w, w', c)
  {
    hide Inv, Next;
    var run := FetchRun(a);
    Enters(w, a);
    var w1 := After(w, EnterRun(a));
    Learns(w1, a);
    var w2 := After(w1, LearnRun(a));
    Picks(w2, a);
    AfterTwice(w, EnterRun(a), LearnRun(a) + PickRun(a));
    AfterTwice(w1, LearnRun(a), PickRun(a));
    OthersKept(w, a, run, c);
  }
}
