/** Fetching an info dictionary piece by piece from one peer (BEP 9). */
module MetadataFetch {
  import opened Basics
  import opened Bencode
  import opened Downloads
  import opened Wire
  import opened Encoding
  import opened MetadataMessages
  import opened MessageTrees

  const MAX_RETRIES: nat := 3

  /** What one wait for a message comes to; keep-alives are already skipped. */
  datatype Incoming = Received(m: Message) | Failed

  // ---- the peer's handshake ----

  /** What one wait for the handshake comes to: anything but a handshake is passed over. */
  function AnnouncementIn(incoming: Incoming): Reply<(byte, nat)> {
    match incoming
    case Failed => Refused
    case Received(m) => if m.kind == Extended then ParseAnnouncement(m.payload) else Ignored
  }

  /** Wait for the peer's handshake: the first message that is not passed over decides. */
  method ReceiveHandshake(waits: seq<Incoming>) returns (r: Reply<(byte, nat)>, read: nat)
    ensures read <= |waits|
    ensures forall i | 0 <= i < read :: AnnouncementIn(waits[i]) == if i == read - 1 then r else Ignored
    ensures r.Ignored? ==> read == |waits|
  {
    hide ParseAnnouncement;
    read := 0;
    while read < |waits|
      invariant read <= |waits| && forall i | 0 <= i < read :: AnnouncementIn(waits[i]).Ignored?
    {
      var wait := waits[read];
      read := read + 1;
      match wait {
        case Failed => return Refused, read;
        case Received(m) =>
          if m.kind == Extended {
            r := ParseAnnouncement(m.payload);
            if !r.Ignored? { return r, read; }
          }
      }
    }
    return Ignored, read;
  }

  /** A printed handshake announces our id and its size, exactly when it carries one that fits 64 bits. */
  lemma PrintedHandshakeAnnounces(size: Option<nat>)
    ensures AnnouncementIn(Received(CreateHandshake(size))) ==
      if size.Some? && size.value <= I64_MAX then Found((OUR_UT_METADATA_ID, size.value)) else Refused
  {
    HandshakeIsEntries(size);
    var payload := CreateHandshake(size).payload;
    assert payload == [HANDSHAKE_ID] + HandshakeText(size);
    if size.Some? {
      var t := Dict(HandshakeEntries(size));
      assert payload == [HANDSHAKE_ID] + Encode(t);
      HandshakeInRange(size.value);
      AnnouncementRead(HANDSHAKE_ID, t);
      HandshakeHolds(size.value);
      hide Encode, InRange, ParseAnnouncement, HandshakeEntries, HandshakeText, IntUnder, IdIn;
    } else {
      UnclosedUnread(payload);
    }
  }

  lemma HandshakeHolds(size: nat)
    ensures var t := Dict(HandshakeEntries(Some(size)));
      IdIn(t) == Some(OUR_UT_METADATA_ID) && IntUnder(t.entries, "metadata_size") == Some(size)
  {
    var (m, ut, ms) := (Ascii("m"), Ascii("ut_metadata"), Ascii("metadata_size"));
    assert |m| == 1 && |ut| == 11 && |ms| == 13;
    var (id, tail) := (Int(OUR_UT_METADATA_ID), IntEntry("metadata_size", size, Done));
    LastUnderHead(ut, id, Done, ut);
    LastUnderHead(ms, Int(size), Done, m);
    LastUnderHead(ms, Int(size), Done, ms);
    LastUnderHead(m, InnerDict(), tail, m);
    LastUnderHead(m, InnerDict(), tail, ms);
    assert InnerDict() == Dict(Entry(ut, id, Done)) && tail == Entry(ms, Int(size), Done);
    hide Ascii, LastUnder, IntEntry;
  }

  lemma UnclosedUnread(payload: bytes)
    requires payload == [HANDSHAKE_ID] + HandshakeText(None)
    requires HandshakeText(None) == [LETTER_D] + EncodePairs(HandshakeEntries(None)) + []
    ensures ParseAnnouncement(payload) == Refused
  {
    UnclosedPairs(HandshakeEntries(None));
    var pairs := EncodePairs(HandshakeEntries(None));
    assert payload != [] && payload[0] == HANDSHAKE_ID && payload[1..] == [LETTER_D] + pairs;
    hide *;
    UnclosedDictionary(payload[1..], pairs);
    UnreadAnnouncement(payload);
  }

  lemma UnreadAnnouncement(payload: bytes)
    requires payload != [] && payload[0] == HANDSHAKE_ID && Parse(payload[1..]).None?
    ensures ParseAnnouncement(payload) == Refused
  {
    hide Parse;
  }

  // ---- the loop ----

  /** One round: whether a request, if one is due, can be written, and what arrives. */
  datatype Round = Round(writes: bool, incoming: Incoming)

  datatype Fetch = Fetch(build: Build, size: nat, slots: Slots, asked: seq<bool>, received: nat, retries: nat,
                         waiting: bool, requests: seq<nat>)
  {
    ghost predicate Valid() {
      && |slots| == |asked| == PieceCount(size)
      && received == CountSome(slots)
      && retries <= MAX_RETRIES
      && (received == |slots| ==> retries == 0)
    }

    predicate Over() { received >= |slots| || retries >= MAX_RETRIES }
  }

  datatype Verdict =
    | Running | Fetched(dict: bytes) | GaveUp | WriteFailed | Aborted | Crashed | Hung | MissingPiece | NotBencode

  function Start(build: Build, size: nat): Fetch {
    var n := PieceCount(size);
    Fetch(build, size, Repeat(n, None), Repeat(n, false), 0, 0, false, [])
  }

  /** The first piece neither held nor asked for, from the i-th on. */
  function NextToAsk(f: Fetch, i: nat): (r: nat)
    requires |f.slots| == |f.asked| && i <= |f.slots|
    ensures i <= r <= |f.slots|
    ensures r < |f.slots| ==> f.slots[r].None? && !f.asked[r]
    ensures forall j | i <= j < r :: f.slots[j].Some? || f.asked[j]
    decreases |f.slots| - i
  {
    if i < |f.slots| && !(f.slots[i].None? && !f.asked[i]) then NextToAsk(f, i + 1) else i
  }

  /** Ask for one piece, unless an answer is still awaited. */
  function Ask(f: Fetch): Fetch
    requires |f.slots| == |f.asked|
  {
    var i := NextToAsk(f, 0);
    if f.waiting || i == |f.slots| then f
    else f.(asked := f.asked[i := true], waiting := true, requests := f.requests + [i])
  }

  function Asks(f: Fetch): bool
    requires |f.slots| == |f.asked|
  {
    !f.waiting && NextToAsk(f, 0) < |f.slots|
  }

  /** After an error everything not yet held may be asked for again. */
  function Forget(f: Fetch): Fetch
    requires |f.slots| == |f.asked|
  {
    f.(retries := f.retries + 1, waiting := false,
       asked := seq(|f.asked|, i requires 0 <= i < |f.asked| => f.asked[i] && f.slots[i].Some?))
  }

  function Store(f: Fetch, i: nat, data: bytes): Fetch
    requires i < |f.slots|
  {
    f.(slots := f.slots[i := Some(data)], received := f.received + 1, waiting := false, retries := 0)
  }

  /** The reply a message amounts to; only extended messages are looked at. */
  function ReplyIn(build: Build, incoming: Incoming): Reply<(nat, bytes)> {
    if incoming.Received? && incoming.m.kind == Extended
    then ParseMetadataPiece(build, incoming.m.payload, OUR_UT_METADATA_ID)
    else Ignored
  }

  function Accepts(f: Fetch, incoming: Incoming): bool {
    && ReplyIn(f.build, incoming).Found?
    && ReplyIn(f.build, incoming).value.0 < |f.slots|
    && f.slots[ReplyIn(f.build, incoming).value.0].None?
  }

  /** What arrives, once any request is out. */
  function Absorb(g: Fetch, incoming: Incoming): (Fetch, Verdict)
    requires |g.slots| == |g.asked|
  {
    if incoming.Failed? then (Forget(g), Running)
    else
      match ReplyIn(g.build, incoming)
      case Panics => (g, Crashed)
      case Hangs => (g, Hung)
      case Refused => (g, Aborted)
      case Ignored => (g, Running)
      case Found((i, data)) =>
        if i < |g.slots| && g.slots[i].None? then (Store(g, i, data), Running) else (g, Running)
  }

  /** One round of the loop. */
  function Step(f: Fetch, r: Round): (Fetch, Verdict)
    requires |f.slots| == |f.asked|
  {
    if Asks(f) && !r.writes then (f, WriteFailed) else Absorb(Ask(f), r.incoming)
  }

  /** Joining the pieces once the loop has ended. */
  function Conclude(f: Fetch): Verdict {
    if f.received != |f.slots| then GaveUp
    else if !AllSome(f.slots) then MissingPiece
    else
      var joined := Whole(f.slots);
      var dict := if f.size < |joined| then joined[..f.size] else joined;
      if Parse(dict).None? then NotBencode else Fetched(dict)
  }

  function Run(f: Fetch, rounds: seq<Round>): (Fetch, Verdict)
    requires |f.slots| == |f.asked|
    decreases |rounds|
  {
    if f.Over() then (f, Conclude(f))
    else if rounds == [] then (f, Running)
    else
      var (g, verdict) := Step(f, rounds[0]);
      if verdict != Running then (g, verdict) else Run(g, rounds[1..])
  }

  /** The fetching loop over whatever the peer sends. */
  method FetchMetadata(build: Build, size: nat, rounds: seq<Round>) returns (verdict: Verdict, requests: seq<nat>)
    ensures verdict == Run(Start(build, size), rounds).1
    ensures requests == Run(Start(build, size), rounds).0.requests
  {
    RunFrom(Start(build, size), rounds);
    hide ParseMetadataPiece, Conclude, NextToAsk, Run;
    var n := DivCeil(size, METADATA_PIECE_SIZE);
    var slots: Slots, asked := Repeat(n, None), Repeat(n, false);
    var received: nat, retries: nat, waiting := 0, 0, false;
    requests := [];
    var turn := 0;
    while received < n && retries < MAX_RETRIES
      invariant |slots| == |asked| == n && turn <= |rounds|
      invariant Run(Start(build, size), rounds)
             == Run(Fetch(build, size, slots, asked, received, retries, waiting, requests), rounds[turn..])
      decreases |rounds| - turn
    {
      ghost var f := Fetch(build, size, slots, asked, received, retries, waiting, requests);
      RunEnds(f, rounds, turn);
      if turn == |rounds| { return Running, requests; }
      var round := rounds[turn];
      RunOneRound(f, rounds, turn);
      turn := turn + 1;
      if !waiting {
        var i := FindUnasked(f, slots, asked);
        if i < n {
          if !round.writes { return WriteFailed, requests; }
          asked, waiting, requests := asked[i := true], true, requests + [i];
        }
      }
      ghost var g := Fetch(build, size, slots, asked, received, retries, waiting, requests);
      assert g == Ask(f) && (Asks(f) ==> round.writes);
      hide Step, Ask, Absorb;
      slots, asked, received, retries, waiting, verdict :=
        TakeIn(g, build, slots, asked, received, retries, waiting, round.incoming);
      if verdict != Running { return verdict, requests; }
    }
    RunEnds(Fetch(build, size, slots, asked, received, retries, waiting, requests), rounds, turn);
    verdict := JoinPieces(Fetch(build, size, slots, asked, received, retries, waiting, requests));
  }

  /** What arrives fills a slot, ends the fetch, or, if nothing does, calls for another attempt. */
  method TakeIn(ghost g: Fetch, build: Build, slots: Slots, asked: seq<bool>, received: nat, retries: nat,
                waiting: bool, incoming: Incoming)
    returns (slots': Slots, asked': seq<bool>, received': nat, retries': nat, waiting': bool, verdict: Verdict)
    requires |slots| == |asked| && g == Fetch(build, g.size, slots, asked, received, retries, waiting, g.requests)
    ensures |slots'| == |asked'| == |slots|
    ensures Absorb(g, incoming)
         == (Fetch(build, g.size, slots', asked', received', retries', waiting', g.requests), verdict)
  {
    hide ParseMetadataPiece;
    slots', asked', received', retries', waiting', verdict := slots, asked, received, retries, waiting, Running;
    match incoming {
      case Failed =>
        retries', waiting' := retries + 1, false;
        asked' := Unask(g, slots, asked);
      case Received(m) =>
        if m.kind == Extended {
          match ParseMetadataPiece(build, m.payload, OUR_UT_METADATA_ID) {
            case Panics => verdict := Crashed;
            case Hangs => verdict := Hung;
            case Refused => verdict := Aborted;
            case Ignored =>
            case Found((i, data)) =>
              if i < |slots| && slots[i].None? {
                slots' := slots[i := Some(data)];
                received', waiting', retries' := received + 1, false, 0;
              }
          }
        }
    }
  }

  lemma RunFrom(f: Fetch, rounds: seq<Round>)
    requires |f.slots| == |f.asked|
    ensures Run(f, rounds[0..]) == Run(f, rounds)
  {
    assert rounds[0..] == rounds;
  }

  /** The loop as it ends, or as it runs out of rounds. */
  lemma RunEnds(f: Fetch, rounds: seq<Round>, turn: nat)
    requires |f.slots| == |f.asked| && turn <= |rounds|
    ensures f.Over() ==> Run(f, rounds[turn..]) == (f, Conclude(f))
    ensures !f.Over() && turn == |rounds| ==> Run(f, rounds[turn..]) == (f, Running)
  {
    hide Conclude;
  }

  lemma RunOneRound(f: Fetch, rounds: seq<Round>, turn: nat)
    requires |f.slots| == |f.asked| && turn < |rounds| && !f.Over()
    ensures var (g, verdict) := Step(f, rounds[turn]);
      && |g.slots| == |g.asked| == |f.slots|
      && Run(f, rounds[turn..]) == if verdict != Running then (g, verdict) else Run(g, rounds[turn + 1..])
  {
    StepSizes(f, rounds[turn]);
    hide Step, Conclude;
    assert rounds[turn..][0] == rounds[turn] && rounds[turn..][1..] == rounds[turn + 1..];
  }

  /** Assemble the dictionary, cut to its announced size. */
  method JoinPieces(f: Fetch) returns (verdict: Verdict)
    ensures verdict == Conclude(f)
  {
    if f.received != |f.slots| { return GaveUp; }
    var joined := [];
    for i := 0 to |f.slots|
      invariant joined == Whole(f.slots[..i]) && AllSome(f.slots[..i])
    {
      if f.slots[i].None? { return MissingPiece; }
      assert f.slots[..i + 1][..i] == f.slots[..i];
      joined := joined + f.slots[i].value;
    }
    assert f.slots[..|f.slots|] == f.slots;
    if f.size < |joined| { joined := joined[..f.size]; }
    if Parse(joined).None? { return NotBencode; }
    return Fetched(joined);
  }

  method FindUnasked(ghost f: Fetch, slots: Slots, asked: seq<bool>) returns (i: nat)
    requires |slots| == |asked| && f.slots == slots && f.asked == asked
    ensures i == NextToAsk(f, 0)
  {
    i := 0;
    while i < |slots| && !(slots[i].None? && !asked[i])
      invariant i <= |slots| && NextToAsk(f, 0) == NextToAsk(f, i)
    {
      i := i + 1;
    }
  }

  method Unask(ghost f: Fetch, slots: Slots, before: seq<bool>) returns (asked: seq<bool>)
    requires |slots| == |before| && f.slots == slots && f.asked == before
    ensures asked == Forget(f).asked
  {
    asked := before;
    for i := 0 to |slots|
      invariant |asked| == |slots|
      invariant forall j | 0 <= j < i :: asked[j] == (before[j] && slots[j].Some?)
      invariant forall j | i <= j < |slots| :: asked[j] == before[j]
    {
      if slots[i].None? { asked := asked[i := false]; }
    }
  }

  // ---- the count of filled slots ----

  lemma StartIsValid(build: Build, size: nat)
    ensures Start(build, size).Valid()
  {
    CountSomeEmpty(PieceCount(size));
  }

  lemma StepSizes(f: Fetch, r: Round)
    requires |f.slots| == |f.asked|
    ensures |Step(f, r).0.slots| == |Step(f, r).0.asked| == |f.slots|
  {
    hide ParseMetadataPiece;
  }

  lemma StepKeepsValid(f: Fetch, r: Round)
    requires f.Valid() && !f.Over()
    ensures Step(f, r).0.Valid() && Step(f, r).0.size == f.size && Step(f, r).0.build == f.build
  {
    hide ParseMetadataPiece;
    if Accepts(f, r.incoming) {
      var (i, data) := ReplyIn(f.build, r.incoming).value;
      CountSomeUpdate(f.slots, i, data);
    }
  }

  lemma {:induction false} RunKeepsValid(f: Fetch, rounds: seq<Round>)
    requires f.Valid()
    ensures Run(f, rounds).0.Valid() && Run(f, rounds).0.size == f.size && Run(f, rounds).0.build == f.build
    decreases |rounds|
  {
    hide Step;
    if !f.Over() && rounds != [] {
      StepKeepsValid(f, rounds[0]);
      RunKeepsValid(Step(f, rounds[0]).0, rounds[1..]);
    }
  }

  /** The number of pieces received is the number of filled slots, so none is ever missing at the end. */
  lemma PieceNeverMissing(f: Fetch, rounds: seq<Round>)
    requires f.Valid()
    ensures Run(f, rounds).1 != MissingPiece
    decreases |rounds|
  {
    hide Step;
    if f.Over() {
      CountSomeFull(f.slots);
    } else if rounds != [] {
      StepKeepsValid(f, rounds[0]);
      StepNeverMissing(f, rounds[0]);
      PieceNeverMissing(Step(f, rounds[0]).0, rounds[1..]);
    }
  }

  lemma StepNeverMissing(f: Fetch, r: Round)
    requires f.Valid()
    ensures !Step(f, r).1.MissingPiece? && !Step(f, r).1.Fetched? && !Step(f, r).1.GaveUp?
  {
  }

  /** Messages of any other kind change nothing but what is asked for. */
  lemma OtherKindsPassed(f: Fetch, r: Round)
    requires |f.slots| == |f.asked| && r.writes && r.incoming.Received? && r.incoming.m.kind != Extended
    ensures Step(f, r) == (Ask(f), Running)
  {
    hide ParseMetadataPiece, Ask;
  }

  /** What ends a round: a request that cannot be written, or else what the reader makes of the message. */
  lemma RoundEnds(f: Fetch, r: Round)
    requires |f.slots| == |f.asked|
    ensures var (verdict, reply) := (Step(f, r).1, ReplyIn(f.build, r.incoming));
      if Asks(f) && !r.writes then Step(f, r) == (f, WriteFailed)
      else
        && (verdict == Crashed <==> reply.Panics?) && (verdict == Hung <==> reply.Hangs?)
        && (verdict == Aborted <==> reply.Refused?) && (verdict == Running <==> reply.Found? || reply.Ignored?)
  {
    hide ParseMetadataPiece, NextToAsk;
  }

  /** A reject from the peer ends the fetch. */
  lemma RejectAborts(f: Fetch, r: Round, piece: nat)
    requires |f.slots| == |f.asked| && r.writes && piece < U32_LIMIT
    requires r.incoming == Received(CreateReject(OUR_UT_METADATA_ID, piece))
    ensures Step(f, r).1 == Aborted
  {
    RejectIsRefused(f.build, OUR_UT_METADATA_ID, piece, []);
    assert r.incoming.m.payload + [] == r.incoming.m.payload;
    hide ParseMetadataPiece, RejectText;
  }

  /**
   * The fetch gives up only after three failed waits since the last new piece. What
   * it returns is bencode, and no longer than the size announced.
   */
  lemma {:induction false} HowItEnds(f: Fetch, rounds: seq<Round>)
    requires f.Valid()
    ensures var (g, verdict) := Run(f, rounds);
      && (verdict == GaveUp ==> g.retries == 3 && g.received < |g.slots|)
      && (verdict.Fetched? ==> |verdict.dict| <= f.size && Parse(verdict.dict).Some? && g.received == |g.slots|)
    decreases |rounds|
  {
    hide Step, Parse;
    if !f.Over() && rounds != [] {
      StepKeepsValid(f, rounds[0]);
      StepNeverMissing(f, rounds[0]);
      HowItEnds(Step(f, rounds[0]).0, rounds[1..]);
    }
  }

  // ---- the fetched dictionary ----

  /** Every usable data message carries a piece of this dictionary. */
  ghost predicate Genuine(build: Build, rounds: seq<Round>, dict: bytes) {
    forall k | 0 <= k < |rounds| :: GenuineRound(build, rounds[k], dict)
  }

  predicate GenuineRound(build: Build, r: Round, dict: bytes) {
    var reply := ReplyIn(build, r.incoming);
    reply.Found? && reply.value.0 < PieceCount(|dict|) ==> reply.value.1 == DictSlice(dict, reply.value.0)
  }

  ghost predicate HoldsOnly(f: Fetch, dict: bytes)
    requires |f.slots| == PieceCount(|dict|)
  {
    forall i | 0 <= i < |f.slots| && f.slots[i].Some? :: f.slots[i].value == DictSlice(dict, i)
  }

  lemma StepHoldsOnly(f: Fetch, r: Round, dict: bytes)
    requires f.Valid() && f.size == |dict| && HoldsOnly(f, dict) && GenuineRound(f.build, r, dict)
    ensures |Step(f, r).0.slots| == |f.slots| && HoldsOnly(Step(f, r).0, dict)
  {
    hide ParseMetadataPiece;
  }

  /** The slices of a dictionary, joined, are the dictionary. */
  lemma {:induction false} SlicesJoin(dict: bytes, slots: Slots, n: nat)
    requires n <= |slots| == PieceCount(|dict|)
    requires forall i | 0 <= i < |slots| :: slots[i] == Some(DictSlice(dict, i))
    ensures Whole(slots[..n]) == dict[..Min(n * METADATA_PIECE_SIZE, |dict|)]
  {
    if n > 0 {
      SlicesJoin(dict, slots, n - 1);
      assert slots[..n][..n - 1] == slots[..n - 1];
    }
  }

  lemma ConcludeGenuine(f: Fetch, dict: bytes)
    requires f.Valid() && f.size == |dict| && HoldsOnly(f, dict)
    ensures f.received == |f.slots| ==> Conclude(f) == if Parse(dict).Some? then Fetched(dict) else NotBencode
  {
    if f.received == |f.slots| {
      CountSomeFull(f.slots);
      SlicesJoin(dict, f.slots, |f.slots|);
      assert f.slots[..|f.slots|] == f.slots;
      assert dict[..|dict|] == dict;
    }
  }

  /**
   * Whatever arrives, in any order, with duplicates, other messages and errors:
   * if the usable data messages carry pieces of the responder's dictionary, a
   * successful fetch returns exactly that dictionary.
   */
  lemma {:induction false} FetchReturnsDictionary(f: Fetch, rounds: seq<Round>, dict: bytes)
    requires f.Valid() && f.size == |dict| && HoldsOnly(f, dict) && Genuine(f.build, rounds, dict)
    ensures Run(f, rounds).1.Fetched? ==> Run(f, rounds).1.dict == dict
    decreases |rounds|
  {
    hide Step, GenuineRound;
    if f.Over() {
      ConcludeGenuine(f, dict);
    } else if rounds != [] {
      StepKeepsValid(f, rounds[0]);
      StepHoldsOnly(f, rounds[0], dict);
      StepNeverMissing(f, rounds[0]);
      FetchReturnsDictionary(Step(f, rounds[0]).0, rounds[1..], dict);
    }
  }

  /** No errors, refusals or panics. */
  predicate Smooth(build: Build, r: Round) {
    && r.writes && r.incoming.Received?
    && !ReplyIn(build, r.incoming).Refused? && !ReplyIn(build, r.incoming).Panics? && !ReplyIn(build, r.incoming).Hangs?
  }

  predicate Brings(build: Build, r: Round, i: nat) {
    ReplyIn(build, r.incoming).Found? && ReplyIn(build, r.incoming).value.0 == i
  }

  lemma SmoothStep(f: Fetch, r: Round)
    requires f.Valid() && Smooth(f.build, r)
    ensures Step(f, r).1 == Running
    ensures forall i: nat | i < |f.slots| :: Step(f, r).0.slots[i].Some? <==> f.slots[i].Some? || Brings(f.build, r, i)
  {
    hide ParseMetadataPiece;
  }

  /** With no errors, the fetch succeeds as soon as every piece has arrived once. */
  lemma {:induction false} FetchCompletes(f: Fetch, rounds: seq<Round>, dict: bytes)
    requires f.Valid() && f.size == |dict| && HoldsOnly(f, dict) && Genuine(f.build, rounds, dict)
    requires f.retries == 0
    requires forall k | 0 <= k < |rounds| :: Smooth(f.build, rounds[k])
    requires forall i: nat | i < |f.slots| ::
      f.slots[i].Some? || exists k :: 0 <= k < |rounds| && Brings(f.build, rounds[k], i)
    ensures Run(f, rounds).1 == if Parse(dict).Some? then Fetched(dict) else NotBencode
    decreases |rounds|
  {
    hide Step, GenuineRound, Smooth, Brings;
    if f.Over() {
      ConcludeGenuine(f, dict);
    } else if rounds == [] {
      CountSomeFull(f.slots);
    } else {
      var g := Step(f, rounds[0]).0;
      StepKeepsValid(f, rounds[0]);
      StepHoldsOnly(f, rounds[0], dict);
      SmoothStep(f, rounds[0]);
      SmoothKeepsRetries(f, rounds[0]);
      forall i: nat | i < |g.slots|
        ensures g.slots[i].Some? || exists k :: 0 <= k < |rounds[1..]| && Brings(f.build, rounds[1..][k], i)
      {
        if g.slots[i].None? {
          var k :| 0 <= k < |rounds| && Brings(f.build, rounds[k], i);
          assert rounds[1..][k - 1] == rounds[k];
        }
      }
      FetchCompletes(g, rounds[1..], dict);
    }
  }

  lemma SmoothKeepsRetries(f: Fetch, r: Round)
    requires f.Valid() && Smooth(f.build, r) && f.retries == 0
    ensures Step(f, r).0.retries == 0
  {
  }

  // ---- the retry budget ----

  /** Rounds handled that were errors or brought a new piece. */
  function Busy(f: Fetch, rounds: seq<Round>): nat
    requires |f.slots| == |f.asked|
    decreases |rounds|
  {
    if f.Over() || rounds == [] then 0
    else
      var (g, verdict) := Step(f, rounds[0]);
      (if rounds[0].incoming.Failed? || Accepts(f, rounds[0].incoming) then 1 else 0)
      + (if verdict == Running then Busy(g, rounds[1..]) else 0)
  }

  lemma BudgetFalls(f: Fetch, r: Round)
    requires f.Valid() && !f.Over() && Step(f, r).1 == Running
    ensures var g := Step(f, r).0;
      3 * (|g.slots| - g.received) - g.retries
        <= 3 * (|f.slots| - f.received) - f.retries - (if r.incoming.Failed? || Accepts(f, r.incoming) then 1 else 0)
  {
    hide ParseMetadataPiece;
  }

  /**
   * Retries are refilled on progress, yet the loop handles at most three times
   * as many errors and new pieces as there are pieces.
   */
  lemma {:induction false} RetryBudget(f: Fetch, rounds: seq<Round>)
    requires f.Valid()
    ensures Busy(f, rounds) <= 3 * (|f.slots| - f.received) - f.retries
    decreases |rounds|
  {
    hide Step;
    BudgetIsLeft(f);
    if !f.Over() && rounds != [] {
      StepKeepsValid(f, rounds[0]);
      if Step(f, rounds[0]).1 == Running {
        BudgetFalls(f, rounds[0]);
        RetryBudget(Step(f, rounds[0]).0, rounds[1..]);
      }
    }
  }

  /** Some budget is left while the loop runs. */
  lemma BudgetIsLeft(f: Fetch)
    requires f.Valid()
    ensures 3 * (|f.slots| - f.received) - f.retries >= if f.Over() then 0 else 1
  {
  }

  // ---- requests ----

  predicate Increasing(s: seq<nat>) { forall i, j | 0 <= i < j < |s| :: s[i] < s[j] }

  /** Everything up to the last request is held or asked for. */
  ghost predicate InOrder(f: Fetch) {
    && |f.slots| == |f.asked|
    && Increasing(f.requests)
    && forall k | 0 <= k < |f.requests| ::
         f.requests[k] < |f.slots| && forall i | 0 <= i <= f.requests[k] :: f.asked[i] || f.slots[i].Some?
  }

  lemma StepInOrder(f: Fetch, r: Round)
    requires InOrder(f) && !r.incoming.Failed?
    ensures InOrder(Step(f, r).0)
  {
    hide ParseMetadataPiece;
    var i := NextToAsk(f, 0);
    assert forall k | 0 <= k < |f.requests| && i < |f.slots| :: f.requests[k] < i;
  }

  /** Without errors every piece is asked for at most once, in increasing order. */
  lemma {:induction false} RequestsInOrder(f: Fetch, rounds: seq<Round>)
    requires InOrder(f) && forall k | 0 <= k < |rounds| :: !rounds[k].incoming.Failed?
    ensures Increasing(Run(f, rounds).0.requests)
    decreases |rounds|
  {
    hide Step;
    if !f.Over() && rounds != [] {
      StepInOrder(f, rounds[0]);
      RequestsInOrder(Step(f, rounds[0]).0, rounds[1..]);
    }
  }

  /** From the start: every guarantee of a fetch at once. */
  lemma FetchGuarantees(build: Build, size: nat, rounds: seq<Round>, dict: bytes)
    requires size == |dict| && Genuine(build, rounds, dict)
    ensures var (f, verdict) := Run(Start(build, size), rounds);
      && f.received == CountSome(f.slots)
      && verdict != MissingPiece
      && (verdict.Fetched? ==> verdict.dict == dict)
    ensures Busy(Start(build, size), rounds) <= 3 * PieceCount(size)
  {
    StartIsValid(build, size);
    RunKeepsValid(Start(build, size), rounds);
    PieceNeverMissing(Start(build, size), rounds);
    FetchReturnsDictionary(Start(build, size), rounds, dict);
    RetryBudget(Start(build, size), rounds);
  }
}
