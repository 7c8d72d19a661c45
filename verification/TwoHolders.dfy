/** A run in which a discarded piece leaves one block with two peers. */
module TwoHolders {
  import opened Basics
  import opened Geometry
  import opened Downloads
  import opened Wire
  import opened Pools
  import opened Connections
  import opened Protocol
  import opened Safety
  import opened Runs
  import opened Exclusive
  import opened Scripts
  import S = Sections

  /** The byte is not the piece: its hash differs from the listed one. */
  predicate Wrong(m: Meta, bad: byte) { Tiny(m) && m.sha1([bad]) != m.hashes[0] }

  function Junk(bad: byte): Message { PieceMessage(0, 0, [bad]) }

  function StoreRun(a: Addr, bad: byte): seq<Label> { [Handle(a, Junk(bad)), Label.Store(a)] }

  /** Connect and send one wrong byte for the piece, unasked. */
  function JunkRun(a: Addr, bad: byte): seq<Label> { EnterRun(a) + StoreRun(a, bad) }

  /** Junk of the right length: the block is unmarked, the piece fails, and nothing is left of either. */
  lemma Junks(w: World, a: Addr, c: Addr, bad: byte)
    requires Inv(w) && Wrong(w.s.dl.meta, bad) && w.s.dl.blocks == map[] && w.s.dl.pieces == [None]
    requires w.s.dl.requested == {BLOCK} && a !in w.s.conns && a !in w.workers && c != a
    ensures var w' := After(w, JunkRun(a, bad)); Blank(w') && SameAt(w, w', c)
  {
    hide Inv, Next;
    Enters(w, a);
    var w1 := After(w, EnterRun(a));
    Spoils(w1, a, bad);
    AfterTwice(w, EnterRun(a), StoreRun(a, bad));
    OthersKept(w, a, JunkRun(a, bad), c);
  }

  /** Junk arrives for a block that was never asked of this peer. */
  lemma Receives(w: World, a: Addr, bad: byte)
    requires Inv(w) && a in w.s.conns && a in w.workers && w.workers[a].pc == Idle && w.s.conns[a].pending == map[]
    ensures var w' := Next(w, Handle(a, Junk(bad)));
      w'.s.dl == w.s.dl && a in w'.workers && w'.workers[a].pc == Received(BLOCK, [bad], false)
  {
    PieceRoundTrip(0, 0, [bad]);
    hide Inv, ParsePiece, PieceMessage;
  }

  lemma Spoils(w: World, a: Addr, bad: byte)
    requires Inv(w) && Wrong(w.s.dl.meta, bad) && w.s.dl.blocks == map[] && w.s.dl.pieces == [None]
    requires w.s.dl.requested == {BLOCK} && a in w.s.conns && a in w.workers && w.workers[a].pc == Idle
    requires w.s.conns[a].pending == map[]
    ensures After(w, StoreRun(a, bad)).s.dl == w.s.dl.(requested := {})
  {
    var w1, w2 := Two(w, StoreRun(a, bad));
    Receives(w, a, bad);
    InvValid(w1);
    StoresBad(w1, a, bad);
    hide Inv, After, Next;
  }

  lemma StoresBad(w: World, a: Addr, bad: byte)
    requires w.s.Shaped() && Wrong(w.s.dl.meta, bad) && w.s.dl.blocks == map[] && w.s.dl.pieces == [None]
    requires w.s.dl.requested == {BLOCK} && a in w.workers && w.workers[a].pc == Received(BLOCK, [bad], false)
    ensures Next(w, Label.Store(a)).s.dl == w.s.dl.(requested := {})
  {
    Fails(w.s.dl, bad);
    hide Complete, Meta.WellFormed;
  }

  lemma Fails(d: Download, bad: byte)
    requires Wrong(d.meta, bad) && d.blocks == map[] && d.pieces == [None] && d.requested == {BLOCK}
    ensures Complete(d, BLOCK, [bad]) == (d.(requested := {}), HashMismatch)
  {
    TinyShape(d.meta);
    hide Meta.BlocksIn;
    assert SlotsOf(d, 0) == [None];
    var filled: Slots := [Some([bad])];
    assert SlotsOf(d, 0)[0 := Some([bad])] == filled && Index(BLOCK) == 0;
    assert AllSome(filled) && Whole(filled) == [bad] by { assert Whole([]) == []; }
    assert d.requested - {BLOCK} == {} && d.blocks - {0} == d.blocks;
  }

  /** After a discard two peers hold the same block, whatever SHA-1 is, as long as a wrong byte can be sent. */
  lemma DiscardBreaksExclusivity(m: Meta, host: Host, bad: byte) returns (run: seq<Label>)
    requires Wrong(m, bad)
    ensures m.WellFormed() && !OneHolder(Exec(m, host, run))
  {
    TinyShape(m);
    var (x, y, z) := (Addr(1, 1), Addr(2, 2), Addr(3, 3));
    var w0 := Exec(m, host, []);
    Fetches(w0, x, y);
    Fetches(w0, x, z);
    ExecThenAfter(m, host, [], FetchRun(x));
    assert [] + FetchRun(x) == FetchRun(x);
    var w1 := Exec(m, host, FetchRun(x));
    Junks(w1, y, x, bad);
    Junks(w1, y, z, bad);
    ExecThenAfter(m, host, FetchRun(x), JunkRun(y, bad));
    var w2 := Exec(m, host, FetchRun(x) + JunkRun(y, bad));
    SameHeld(w1, w2, x);
    Fetches(w2, z, x);
    run := FetchRun(x) + JunkRun(y, bad) + FetchRun(z);
    ExecThenAfter(m, host, FetchRun(x) + JunkRun(y, bad), FetchRun(z));
    var w3 := Exec(m, host, run);
    SameHeld(w2, w3, x);
    assert BLOCK in HeldAt(w3, x) && BLOCK in HeldAt(w3, z);
  }

  /** One peer holds the block while the junk of another is about to be stored. */
  ghost predicate Poised(w: World, x: Addr, y: Addr, bad: byte) {
    && x != y && Wrong(w.s.dl.meta, bad) && w.s.dl.requested == {BLOCK}
    && w.s.dl.blocks == map[] && w.s.dl.pieces == [None] && BLOCK in HeldAt(w, x)
    && y in w.workers && w.workers[y].pc == Received(BLOCK, [bad], false)
  }

  function Approach(x: Addr, y: Addr): seq<Label> { FetchRun(x) + EnterRun(y) }

  lemma ApproachStoresNothing(x: Addr, y: Addr, l: Label)
    requires !l.Store?
    ensures var run := Approach(x, y) + [l]; forall n | 0 <= n < |run| :: !run[n].Store?
  {
  }

  /** x has taken the block, and y has just connected. */
  lemma ApproachedFrom(w: World, x: Addr, y: Addr)
    requires Inv(w) && Blank(w) && x != y && forall c :: c !in w.workers && c !in w.s.conns
    ensures var w' := After(After(w, FetchRun(x)), EnterRun(y));
      && w'.s.dl == w.s.dl.(requested := {BLOCK}) && BLOCK in HeldAt(w', x)
      && y in w'.workers && w'.workers[y].pc == Idle && y in w'.s.conns && w'.s.conns[y].pending == map[]
  {
    hide Inv, Next, Blank;
    Fetches(w, x, y);
    var w1 := After(w, FetchRun(x));
    Enters(w1, y);
    OthersKept(w1, y, EnterRun(y), x);
    SameHeld(w1, After(w1, EnterRun(y)), x);
    hide FetchRun, EnterRun, After, HeldAt;
  }

  lemma Approached(m: Meta, host: Host, x: Addr, y: Addr)
    requires Tiny(m) && x != y
    ensures m.WellFormed()
    ensures var w := Exec(m, host, Approach(x, y));
      && w.s.dl == Fresh(m).(requested := {BLOCK}) && BLOCK in HeldAt(w, x)
      && y in w.workers && w.workers[y].pc == Idle && y in w.s.conns && w.s.conns[y].pending == map[]
  {
    TinyShape(m);
    var w := Exec(m, host, []);
    assert w == Init(m, host) && Blank(w) && w.s.dl == Fresh(m);
    hide Inv, Blank, Fresh, After, HeldAt, Meta.WellFormed, FetchRun, EnterRun;
    ApproachedFrom(w, x, y);
    ExecThenAfter(m, host, [], FetchRun(x));
    assert [] + FetchRun(x) == FetchRun(x);
    ExecThenAfter(m, host, FetchRun(x), EnterRun(y));
  }

  lemma StoringNothingIsHarmless(m: Meta, host: Host, run: seq<Label>)
    requires m.WellFormed() && forall n | 0 <= n < |run| :: !run[n].Store?
    ensures HarmFree(m, host, run)
  {
    hide Exec, StillHeld, SpoiledBy;
  }

  lemma JunkWaits(m: Meta, host: Host, x: Addr, y: Addr, bad: byte) returns (w: World)
    requires Wrong(m, bad) && x != y
    ensures Inv(w) && w.s.dl.meta == m && Excl(w) && Poised(w, x, y, bad)
  {
    TinyShape(m);
    Approached(m, host, x, y);
    var before, l := Approach(x, y), Handle(y, Junk(bad));
    ApproachStoresNothing(x, y, l);
    var w2 := Exec(m, host, before);
    InvValid(w2);
    OthersUntouched(w2, l, x);
    assert l.a == y && Fresh(m).pieces == [None];
    hide Approach, Next, Inv, Excl, Exec, HeldAt, Harmful, HarmFree, Meta.WellFormed;
    Receives(w2, y, bad);
    OneMore(m, host, before, l);
    StoringNothingIsHarmless(m, host, before + [l]);
    HarmFreeKeepsExcl(m, host, before + [l]);
    w := Exec(m, host, before + [l]);
  }

  lemma JunkDiscards(w: World, x: Addr, y: Addr, bad: byte)
    requires Inv(w) && Poised(w, x, y, bad)
    ensures Discards(w, Label.Store(y)) && !AllAssigned(Next(w, Label.Store(y)))
  {
    InvValid(w);
    Fails(w.s.dl, bad);
    StorePanicsIff(w.s.dl, BLOCK, [bad]);
    OthersUntouched(w, Label.Store(y), x);
    var w' := Next(w, Label.Store(y));
    hide Inv, Complete, HeldAt;
    assert BLOCK in HeldAt(w', x) && w'.s.dl == w.s.dl.(requested := {}) && !Assigned(w'.s.dl, BLOCK);
  }

  /** Until its first discard assignment is exclusive in that run, and the discard is harmful. */
  lemma FirstDiscardBreaksIt(m: Meta, host: Host, bad: byte) returns (w: World, l: Label)
    requires Wrong(m, bad)
    ensures Inv(w) && w.s.dl.meta == m && Excl(w) && Harmful(w, l) && !AllAssigned(Next(w, l))
  {
    var (x, y) := (Addr(1, 1), Addr(2, 2));
    w := JunkWaits(m, host, x, y, bad);
    l := Label.Store(y);
    hide *;
    assert x != y;
    JunkDiscards(w, x, y, bad);
    HarmfulIffUnassigned(w, l);
  }
}
