/** What is kept for each connected peer, and how its messages change it. */
module Connections {
  import opened Basics
  import opened Numbers
  import opened Geometry
  import opened Bitfields
  import opened Wire
  import opened Encoding
  import opened MetadataMessages
  import opened MessageTrees

  const MAX_PIPELINE_DEPTH: nat := 10
  const MAX_UPLOAD_QUEUE_DEPTH: nat := 16
  const MAX_UPLOAD_LENGTH: nat := 16384

  /** Clock readings are in nanoseconds. */
  const REQUEST_TIMEOUT: nat := 15_000_000_000
  const KEEP_ALIVE_INTERVAL: nat := 120_000_000_000

  /** This side of every connection: the info dictionary it can serve, if any, and how it was built. */
  datatype Host = Host(infoDict: Option<bytes>, build: Build)

  datatype Conn = Conn(
    amChoking: bool, amInterested: bool, peerChoking: bool, peerInterested: bool,
    bitfield: Option<bytes>, pending: map<BlockInfo, nat>, lastRequest: Option<nat>,
    uploads: seq<PieceRequest>, metadataId: Option<byte>, metadataOut: seq<Message>)
  {
    predicate CanDownload() { !peerChoking && amInterested }

    /** Nothing was sent for longer than the interval, or ever. */
    predicate KeepAliveDue(now: nat) { lastRequest.Some? ==> now > lastRequest.value + KEEP_ALIVE_INTERVAL }

    /** Queued uploads are few and short. */
    predicate WithinLimits() { ShortQueue(uploads) }
  }

  predicate ShortQueue(uploads: seq<PieceRequest>) {
    && |uploads| <= MAX_UPLOAD_QUEUE_DEPTH
    && forall i | 0 <= i < |uploads| :: uploads[i].length <= MAX_UPLOAD_LENGTH
  }

  function NewConn(): Conn { Conn(true, false, true, false, None, map[], None, [], None, []) }

  function AddPending(c: Conn, b: BlockInfo, now: nat): Conn {
    c.(pending := c.pending[b := now], lastRequest := Some(now))
  }

  /** Requests that have waited longer than the timeout. */
  function TimedOut(c: Conn, now: nat): set<BlockInfo> {
    set b | b in c.pending && now > c.pending[b] + REQUEST_TIMEOUT
  }

  function Retained(uploads: seq<PieceRequest>, cancel: PieceRequest): seq<PieceRequest> {
    if uploads == [] then []
    else
      var kept := Retained(uploads[..|uploads| - 1], cancel);
      var last := uploads[|uploads| - 1];
      if last == cancel then kept else kept + [last]
  }

  /** What an extended message does, and whether its reader never comes back from it. */
  function ProcessExtended(c: Conn, payload: bytes, host: Host): (Conn, bool) {
    if payload == [] then (c, false)
    else if payload[0] == HANDSHAKE_ID then
      match ParseHandshakeId(payload)
      case Some(id) => (c.(metadataId := Some(id)), false)
      case None => (c, false)
    else if payload[0] == OUR_UT_METADATA_ID then
      match ParseMetadataRequest(host.build, payload, OUR_UT_METADATA_ID)
      case Panics => (c, true)
      case Hangs => (c, true)
      case Found(piece) =>
        if c.metadataId.Some?
        then (c.(metadataOut := c.metadataOut + [Respond(host.infoDict, c.metadataId.value, piece)]), false)
        else (c, false)
      case _ => (c, false)
    else (c, false)
  }

  /** What a message other than a piece does to the connection, and whether its reader never comes back. */
  function Process(c: Conn, m: Message, host: Host): (Conn, bool)
    requires m.kind != Piece
  {
    match m.kind
    case Choke => (c.(peerChoking := true), false)
    case Unchoke => (c.(peerChoking := false), false)
    case Interested => (c.(peerInterested := true), false)
    case NotInterested => (c.(peerInterested := false), false)
    case Have =>
      if |m.payload| == 4 && c.bitfield.Some?
      then (c.(bitfield := Some(WithPiece(c.bitfield.value, U32At(m.payload, 0)))), false)
      else (c, false)
    case Bitfield => (c.(bitfield := Some(m.payload)), false)
    case Request =>
      var r := ParseRequest(m);
      if r.Some? && r.value.length <= MAX_UPLOAD_LENGTH && !c.amChoking && |c.uploads| < MAX_UPLOAD_QUEUE_DEPTH
      then (c.(uploads := c.uploads + [r.value]), false)
      else (c, false)
    case Cancel =>
      var r := ParseRequest(m);
      if r.Some? then (c.(uploads := Retained(c.uploads, r.value)), false) else (c, false)
    case Extended => ProcessExtended(c, m.payload, host)
  }

  lemma {:induction false} RetainedIsFiltered(uploads: seq<PieceRequest>, cancel: PieceRequest)
    ensures |Retained(uploads, cancel)| <= |uploads|
    ensures forall r :: r in Retained(uploads, cancel) <==> r in uploads && r != cancel
  {
    if uploads != [] {
      RetainedIsFiltered(uploads[..|uploads| - 1], cancel);
      assert uploads == uploads[..|uploads| - 1] + [uploads[|uploads| - 1]];
    }
  }

  /** A cancel takes single requests out of the queue and leaves the order of the others. */
  lemma {:induction false} RetainedJoins(before: seq<PieceRequest>, after: seq<PieceRequest>, cancel: PieceRequest)
    ensures Retained(before + after, cancel) == Retained(before, cancel) + Retained(after, cancel)
    decreases |after|
  {
    if after == [] {
      assert before + after == before && Retained(before, cancel) + [] == Retained(before, cancel);
    } else {
      var last := |after| - 1;
      RetainedJoins(before, after[..last], cancel);
      assert (before + after)[..|before| + last] == before + after[..last];
    }
  }

  lemma RetainedOne(r: PieceRequest, cancel: PieceRequest)
    ensures Retained([r], cancel) == if r == cancel then [] else [r]
  {
    assert [r][..0] == [];
  }

  /** The message that takes a request back. */
  function CancelMessage(b: BlockInfo): Message { Message(Cancel, RequestMessage(b).payload) }

  /**
   * A request joins the end of the queue exactly when the peer is not choked, it
   * asks for at most 16384 bytes and fewer than 16 are queued.
   */
  lemma RequestQueued(c: Conn, b: BlockInfo, host: Host)
    requires FitsWire(b)
    ensures var r := PieceRequest(b.piece, b.offset, b.length);
      Process(c, RequestMessage(b), host) ==
        (if !c.amChoking && b.length <= 16384 && |c.uploads| < 16 then c.(uploads := c.uploads + [r]) else c, false)
  {
    RequestRoundTripIff(b);
    hide ParseRequest, FitsWire;
  }

  /** A cancel leaves what was queued before and after the request it names, and nothing else changes. */
  lemma CancelWithdraws(c: Conn, b: BlockInfo, before: seq<PieceRequest>, after: seq<PieceRequest>, host: Host)
    requires FitsWire(b)
    requires var r := PieceRequest(b.piece, b.offset, b.length); r !in before && r !in after
    ensures var r := PieceRequest(b.piece, b.offset, b.length);
      && Process(c.(uploads := before + [r] + after), CancelMessage(b), host) == (c.(uploads := before + after), false)
      && Process(c.(uploads := before), CancelMessage(b), host) == (c.(uploads := before), false)
  {
    var r := PieceRequest(b.piece, b.offset, b.length);
    RequestRoundTripIff(b);
    CancelsAlike(b);
    RetainedJoins(before + [r], after, r);
    RetainedJoins(before, [r], r);
    RetainedOne(r, r);
    OthersRetained(before, r);
    OthersRetained(after, r);
    assert before + [] == before;
    hide ParseRequest, Retained, FitsWire;
  }

  lemma CancelsAlike(b: BlockInfo)
    ensures ParseRequest(CancelMessage(b)) == ParseRequest(RequestMessage(b))
  {
  }

  lemma {:induction false} OthersRetained(uploads: seq<PieceRequest>, cancel: PieceRequest)
    requires cancel !in uploads
    ensures Retained(uploads, cancel) == uploads
  {
    if uploads != [] { OthersRetained(uploads[..|uploads| - 1], cancel); }
  }

  /** No message touches the pending requests, and uploads stay within their limits. */
  lemma ProcessKeepsLimits(c: Conn, m: Message, host: Host)
    requires m.kind != Piece
    ensures Process(c, m, host).0.pending == c.pending
    ensures c.WithinLimits() ==> Process(c, m, host).0.WithinLimits()
  {
    hide ParseMetadataRequest, ParseHandshakeId, Respond, WithPiece;
    if m.kind == Cancel && ParseRequest(m).Some? {
      var kept := Retained(c.uploads, ParseRequest(m).value);
      RetainedIsFiltered(c.uploads, ParseRequest(m).value);
      assert forall i | 0 <= i < |kept| :: kept[i] in c.uploads;
    }
  }

  // ---- histories of messages ----

  /** The connection after a list of messages. */
  function ProcessAll(c: Conn, ms: seq<Message>, host: Host): Conn
    requires forall i | 0 <= i < |ms| :: ms[i].kind != Piece
  {
    if ms == [] then c
    else Process(ProcessAll(c, ms[..|ms| - 1], host), ms[|ms| - 1], host).0
  }

  /** The flags and pieces a message decides. */
  lemma ProcessDecides(c: Conn, m: Message, host: Host)
    requires m.kind != Piece
    ensures var c' := Process(c, m, host).0;
      && c'.peerChoking == (if m.kind == Choke then true else if m.kind == Unchoke then false else c.peerChoking)
      && (m.kind != Bitfield && m.kind != Have ==> c'.bitfield == c.bitfield)
      && (m.kind != Bitfield && c.bitfield.None? ==> c'.bitfield.None?)
      && (m.kind == Have && c.bitfield.Some? && |m.payload| != 4 ==> c'.bitfield == c.bitfield)
      && (m.kind == Have && c.bitfield.Some? && |m.payload| == 4 ==>
            c'.bitfield == Some(WithPiece(c.bitfield.value, U32At(m.payload, 0))))
  {
    hide ParseMetadataRequest, ParseHandshakeId, Respond, WithPiece, ParseRequest, U32At;
  }

  /** We may request exactly while the last word on choking was an unchoke. */
  ghost predicate Unchoked(ms: seq<Message>) {
    exists i :: 0 <= i < |ms| && ms[i].kind == Unchoke && forall j | i < j < |ms| :: ms[j].kind != Choke
  }

  lemma {:induction false} UnchokedIffLastWord(c: Conn, ms: seq<Message>, host: Host)
    requires c.peerChoking && forall i | 0 <= i < |ms| :: ms[i].kind != Piece
    ensures !ProcessAll(c, ms, host).peerChoking <==> Unchoked(ms)
  {
    if ms != [] {
      var (init, n) := (ms[..|ms| - 1], |ms| - 1);
      UnchokedIffLastWord(c, init, host);
      ProcessDecides(ProcessAll(c, init, host), ms[n], host);
      LastWord(ms);
      hide Process, Unchoked;
    }
  }

  lemma LastWord(ms: seq<Message>)
    requires ms != []
    ensures var (init, last) := (ms[..|ms| - 1], ms[|ms| - 1].kind);
      Unchoked(ms) <==> last == Unchoke || (Unchoked(init) && last != Choke)
  {
    var (init, n) := (ms[..|ms| - 1], |ms| - 1);
    assert forall i | 0 <= i < n :: init[i] == ms[i];
    if Unchoked(init) && ms[n].kind != Choke {
      var i :| 0 <= i < n && init[i].kind == Unchoke && forall j | i < j < n :: init[j].kind != Choke;
      assert ms[i].kind == Unchoke;
    }
    if Unchoked(ms) && ms[n].kind != Unchoke {
      var i :| 0 <= i < |ms| && ms[i].kind == Unchoke && forall j | i < j < |ms| :: ms[j].kind != Choke;
      assert init[i].kind == Unchoke;
    }
  }

  /** A piece announced on its own. */
  ghost predicate Announces(ms: seq<Message>, p: nat) {
    exists i :: 0 <= i < |ms| && ms[i].kind == Have && |ms[i].payload| == 4 && U32At(ms[i].payload, 0) == p
  }

  /** After a bitfield, a peer is known to have its pieces and those announced since, within its length. */
  lemma {:induction false} KnownPieces(c: Conn, bits: bytes, ms: seq<Message>, host: Host, p: nat)
    requires c.bitfield == Some(bits)
    requires forall i | 0 <= i < |ms| :: ms[i].kind != Piece && ms[i].kind != Bitfield
    ensures var known := ProcessAll(c, ms, host).bitfield;
      && known.Some? && |known.value| == |bits|
      && (HasPieceIn(known.value, p) <==> HasPieceIn(bits, p) || (p / 8 < |bits| && Announces(ms, p)))
  {
    if ms != [] {
      var (init, n) := (ms[..|ms| - 1], |ms| - 1);
      KnownPieces(c, bits, init, host, p);
      var before := ProcessAll(c, init, host);
      ProcessDecides(before, ms[n], host);
      AnnouncedSoFar(ms, p);
      if ms[n].kind == Have && |ms[n].payload| == 4 {
        WithPieceChangesOne(before.bitfield.value, U32At(ms[n].payload, 0), p);
      }
      hide Process, HasPieceIn, WithPiece, Announces, U32At;
    }
  }

  lemma AnnouncedSoFar(ms: seq<Message>, p: nat)
    requires ms != []
    ensures var m := ms[|ms| - 1];
      Announces(ms, p) <==>
        Announces(ms[..|ms| - 1], p) || (m.kind == Have && |m.payload| == 4 && U32At(m.payload, 0) == p)
  {
    hide U32At;
    var init := ms[..|ms| - 1];
    if Announces(init, p) {
      var i :| 0 <= i < |init| && init[i].kind == Have && |init[i].payload| == 4 && U32At(init[i].payload, 0) == p;
      assert ms[i] == init[i];
    }
    if Announces(ms, p) {
      var i :| 0 <= i < |ms| && ms[i].kind == Have && |ms[i].payload| == 4 && U32At(ms[i].payload, 0) == p;
      if i < |init| { assert init[i] == ms[i]; }
    }
  }

  /** Pieces announced by a peer that never sends a bitfield are not noted. */
  lemma {:induction false} NoBitfieldNothingKnown(c: Conn, ms: seq<Message>, host: Host)
    requires c.bitfield == None
    requires forall i | 0 <= i < |ms| :: ms[i].kind != Piece && ms[i].kind != Bitfield
    ensures ProcessAll(c, ms, host).bitfield == None
  {
    if ms != [] {
      NoBitfieldNothingKnown(c, ms[..|ms| - 1], host);
      ProcessDecides(ProcessAll(c, ms[..|ms| - 1], host), ms[|ms| - 1], host);
      hide Process;
    }
  }

  /** A peer that announces a size is answered: its request queues the matching response. */
  lemma AnnouncedPeerIsAnswered(c: Conn, size: nat, piece: nat, host: Host)
    requires size <= I64_MAX && piece < U32_LIMIT
    ensures var known := Process(c, CreateHandshake(Some(size)), host).0;
      && known == c.(metadataId := Some(OUR_UT_METADATA_ID))
      && Process(known, CreateRequest(OUR_UT_METADATA_ID, piece), host)
         == (known.(metadataOut := c.metadataOut + [Respond(host.infoDict, OUR_UT_METADATA_ID, piece)]), false)
  {
    HandshakeYieldsIdIff(Some(size));
    assert CreateHandshake(Some(size)).payload[0] == HANDSHAKE_ID;
    HandshakeNoted(c, CreateHandshake(Some(size)), OUR_UT_METADATA_ID, host);
    KnownIsAnswered(c.(metadataId := Some(OUR_UT_METADATA_ID)), OUR_UT_METADATA_ID, piece, host);
    hide Process, ParseHandshakeId, CreateRequest, Respond, HandshakeText;
  }

  /** A response that carries this id, as its peer reads it: the slice asked for, or a refusal. */
  predicate AnswersAt(build: Build, m: Message, id: byte, infoDict: Option<bytes>, piece: nat) {
    && m.kind == Extended && m.payload != [] && m.payload[0] == id
    && ParseMetadataPiece(build, m.payload, id) ==
         if infoDict.Some? && piece < PieceCount(|infoDict.value|)
         then Found((piece, DictSlice(infoDict.value, piece))) else Refused
  }

  lemma RespondAnswers(build: Build, infoDict: Option<bytes>, id: byte, piece: nat)
    requires piece < U32_LIMIT && (infoDict.Some? ==> |infoDict.value| <= I64_MAX)
    ensures AnswersAt(build, Respond(infoDict, id, piece), id, infoDict, piece)
  {
    ResponseRoundTrip(build, if infoDict.Some? then infoDict.value else [], id, piece);
    hide ParseMetadataPiece, RejectText, DataText;
  }

  /**
   * Whatever id a peer's handshake names, and whatever else the handshake holds,
   * a later request is answered with a response that carries that id.
   */
  lemma PeerIsAnsweredAtItsId(c: Conn, t: Tree, piece: nat, host: Host, build: Build)
    requires InRange(t) && IdIn(t).Some? && piece < U32_LIMIT
    requires host.infoDict.Some? ==> |host.infoDict.value| <= I64_MAX
    ensures var known := Process(c, Message(Extended, [HANDSHAKE_ID] + Encode(t)), host).0;
      var (answered, stuck) := Process(known, CreateRequest(OUR_UT_METADATA_ID, piece), host);
      && !stuck && |answered.metadataOut| == |c.metadataOut| + 1
      && answered.metadataOut[..|c.metadataOut|] == c.metadataOut
      && AnswersAt(build, answered.metadataOut[|c.metadataOut|], IdIn(t).value % 256, host.infoDict, piece)
  {
    var (id, m) := (IdIn(t).value % 256, Message(Extended, [HANDSHAKE_ID] + Encode(t)));
    HandshakeIdRead(HANDSHAKE_ID, t);
    HandshakeNoted(c, m, id, host);
    KnownIsAnswered(c.(metadataId := Some(id)), id, piece, host);
    RespondAnswers(build, host.infoDict, id, piece);
    hide Process, ParseHandshakeId, CreateRequest, Respond, AnswersAt, InRange, IdIn, Encode;
  }

  lemma HandshakeNoted(c: Conn, m: Message, id: byte, host: Host)
    requires m.kind == Extended && m.payload != [] && m.payload[0] == HANDSHAKE_ID
    requires ParseHandshakeId(m.payload) == Some(id)
    ensures Process(c, m, host) == (c.(metadataId := Some(id)), false)
  {
    hide ParseHandshakeId, ParseMetadataRequest;
  }

  lemma KnownIsAnswered(c: Conn, id: byte, piece: nat, host: Host)
    requires c.metadataId == Some(id) && piece < U32_LIMIT
    ensures Process(c, CreateRequest(OUR_UT_METADATA_ID, piece), host)
         == (c.(metadataOut := c.metadataOut + [Respond(host.infoDict, id, piece)]), false)
  {
    RequestRoundTrip(host.build, OUR_UT_METADATA_ID, piece, []);
    var request := CreateRequest(OUR_UT_METADATA_ID, piece).payload;
    assert request + [] == request && request[0] == OUR_UT_METADATA_ID;
    hide ParseMetadataRequest, Respond, RequestText;
  }

  lemma UnreadableHandshake(c: Conn, m: Message, host: Host)
    requires m.kind == Extended && m.payload != [] && m.payload[0] == HANDSHAKE_ID
    requires ParseHandshakeId(m.payload) == None
    ensures Process(c, m, host) == (c, false)
  {
    hide ParseHandshakeId, ParseMetadataRequest;
  }

  lemma UnclosedHandshakeIgnored(c: Conn, host: Host)
    ensures Process(c, CreateHandshake(None), host) == (c, false)
  {
    HandshakeYieldsIdIff(None);
    var m := CreateHandshake(None);
    assert m == Message(Extended, [HANDSHAKE_ID] + HandshakeText(None));
    hide *;
    Prepended(HANDSHAKE_ID, HandshakeText(None), [], [HANDSHAKE_ID] + HandshakeText(None) + []);
    assert m.payload == [HANDSHAKE_ID] + HandshakeText(None) + [];
    UnreadableHandshake(c, m, host);
  }

  lemma UnknownRequestIgnored(c: Conn, piece: nat, host: Host)
    requires c.metadataId == None && piece < U32_LIMIT
    ensures Process(c, CreateRequest(OUR_UT_METADATA_ID, piece), host) == (c, false)
  {
    RequestRoundTrip(host.build, OUR_UT_METADATA_ID, piece, []);
    var request := CreateRequest(OUR_UT_METADATA_ID, piece).payload;
    assert request + [] == request && request[0] == OUR_UT_METADATA_ID;
    hide ParseMetadataRequest, RequestText;
  }

  /**
   * The fetching side of this client announces no size, and its handshake is the
   * unclosed text: a peer running this client never learns its id and ignores
   * every request it makes.
   */
  lemma {:induction false} FetcherIsNeverAnswered(c: Conn, pieces: seq<nat>, host: Host)
    requires c.metadataId == None && forall i | 0 <= i < |pieces| :: pieces[i] < U32_LIMIT
    ensures AfterRequests(Process(c, CreateHandshake(None), host).0, pieces, host) == c
  {
    hide Process, CreateHandshake, CreateRequest;
    UnclosedHandshakeIgnored(c, host);
    if pieces != [] {
      FetcherIsNeverAnswered(c, pieces[..|pieces| - 1], host);
      UnknownRequestIgnored(c, pieces[|pieces| - 1], host);
    }
  }

  /** The connection after a list of metadata requests. */
  function AfterRequests(c: Conn, pieces: seq<nat>, host: Host): Conn {
    if pieces == [] then c
    else Process(AfterRequests(c, pieces[..|pieces| - 1], host),
                 CreateRequest(OUR_UT_METADATA_ID, pieces[|pieces| - 1]), host).0
  }

  // ---- the class ----

  class PeerConnection {
    var amChoking: bool
    var amInterested: bool
    var peerChoking: bool
    var peerInterested: bool
    var bitfield: Option<bytes>
    var pendingRequests: map<BlockInfo, nat>
    var lastRequestTime: Option<nat>
    var pendingUploads: seq<PieceRequest>
    var peerUtMetadataId: Option<byte>
    var pendingMetadataResponses: seq<Message>

    function Value(): Conn
      reads this
    {
      Conn(amChoking, amInterested, peerChoking, peerInterested, bitfield, pendingRequests, lastRequestTime,
           pendingUploads, peerUtMetadataId, pendingMetadataResponses)
    }

    constructor ()
      ensures Value() == NewConn()
    {
      amChoking, amInterested, peerChoking, peerInterested := true, false, true, false;
      bitfield, pendingRequests, lastRequestTime := None, map[], None;
      pendingUploads, peerUtMetadataId, pendingMetadataResponses := [], None, [];
    }

    method AddPendingRequest(b: BlockInfo, now: nat)
      modifies this`pendingRequests, this`lastRequestTime
      ensures Value() == AddPending(old(Value()), b, now)
    {
      pendingRequests := pendingRequests[b := now];
      lastRequestTime := Some(now);
    }

    method RemovePendingRequest(b: BlockInfo) returns (wasPending: bool)
      modifies this`pendingRequests
      ensures wasPending == (b in old(pendingRequests))
      ensures Value() == old(Value()).(pending := old(pendingRequests) - {b})
    {
      wasPending := b in pendingRequests;
      pendingRequests := pendingRequests - {b};
    }

    /** The timed-out requests, each once, in any order. */
    method GetTimedOutRequests(now: nat) returns (expired: seq<BlockInfo>)
      ensures NoDup(expired) && Elements(expired) == TimedOut(Value(), now)
      ensures forall b :: b in expired <==> b in pendingRequests && now > pendingRequests[b] + 15_000_000_000
    {
      assert forall s: seq<BlockInfo>, b :: b in Elements(s) <==> b in s;
      hide NoDup, Elements;
      expired := [];
      NoDupEmpty<BlockInfo>();
      var rest := pendingRequests.Keys;
      while rest != {}
        invariant rest <= pendingRequests.Keys
        invariant NoDup(expired) && Elements(expired) == TimedOut(Value(), now) - rest
        decreases |rest|
      {
        var b :| b in rest;
        rest := rest - {b};
        if now > pendingRequests[b] + REQUEST_TIMEOUT {
          NoDupSnoc(expired, b);
          expired := expired + [b];
        }
      }
    }

    method ClearTimedOutRequests(now: nat) returns (expired: seq<BlockInfo>)
      modifies this`pendingRequests
      ensures NoDup(expired) && Elements(expired) == old(TimedOut(Value(), now))
      ensures Value() == old(Value()).(pending := old(pendingRequests) - Elements(expired))
    {
      expired := GetTimedOutRequests(now);
      ghost var before := pendingRequests;
      for i := 0 to |expired|
        invariant pendingRequests == before - Elements(expired[..i])
        invariant Value() == old(Value()).(pending := pendingRequests)
      {
        assert Elements(expired[..i + 1]) == Elements(expired[..i]) + {expired[i]};
        pendingRequests := pendingRequests - {expired[i]};
      }
      assert expired[..|expired|] == expired;
    }

    /** React to a message other than a piece. */
    method HandleMessage(m: Message, host: Host) returns (stuck: bool)
      requires m.kind != Piece
      modifies this
      ensures (Value(), stuck) == Process(old(Value()), m, host)
    {
      stuck := false;
      match m.kind
      case Choke => peerChoking := true;
      case Unchoke => peerChoking := false;
      case Interested => peerInterested := true;
      case NotInterested => peerInterested := false;
      case Have =>
        if |m.payload| == 4 && bitfield.Some? {
          var field := new Bitfield(bitfield.value);
          field.SetPiece(U32At(m.payload, 0));
          bitfield := Some(field.bits);
        }
      case Bitfield => bitfield := Some(m.payload);
      case Request =>
        var r := ParseRequest(m);
        if r.Some? && r.value.length <= MAX_UPLOAD_LENGTH {
          if !amChoking && |pendingUploads| < MAX_UPLOAD_QUEUE_DEPTH {
            pendingUploads := pendingUploads + [r.value];
          }
        }
      case Cancel =>
        var r := ParseRequest(m);
        if r.Some? { pendingUploads := Retained(pendingUploads, r.value); }
      case Extended =>
        stuck := HandleExtended(m.payload, host);
    }

    method HandleExtended(payload: bytes, host: Host) returns (stuck: bool)
      modifies this`peerUtMetadataId, this`pendingMetadataResponses
      ensures (Value(), stuck) == ProcessExtended(old(Value()), payload, host)
    {
      stuck := false;
      if payload != [] && payload[0] == HANDSHAKE_ID {
        var id := ParseHandshakeId(payload);
        if id.Some? { peerUtMetadataId := id; }
      } else if payload != [] && payload[0] == OUR_UT_METADATA_ID {
        match ParseMetadataRequest(host.build, payload, OUR_UT_METADATA_ID) {
          case Panics => stuck := true;
          case Hangs => stuck := true;
          case Found(piece) =>
            if peerUtMetadataId.Some? {
              var response := Respond(host.infoDict, peerUtMetadataId.value, piece);
              pendingMetadataResponses := pendingMetadataResponses + [response];
            }
          case Refused =>
          case Ignored =>
        }
      }
    }

    /** Take up to `most` queued uploads, oldest first. */
    method TakeUploads(most: nat) returns (taken: seq<PieceRequest>)
      modifies this`pendingUploads
      ensures |taken| == Min(most, |old(pendingUploads)|)
      ensures old(pendingUploads) == taken + pendingUploads
    {
      taken := [];
      while |taken| < most && pendingUploads != []
        invariant |taken| <= most && old(pendingUploads) == taken + pendingUploads
      {
        assert taken + [pendingUploads[0]] + pendingUploads[1..] == taken + pendingUploads;
        taken := taken + [pendingUploads[0]];
        pendingUploads := pendingUploads[1..];
      }
    }
  }
}
