/**
 * Fetching from a peer that answers, over a connection that loses answers: what
 * is asked for again, and when the fetch succeeds all the same.
 */
module Retries {
  import opened Basics
  import opened Bencode
  import opened Wire
  import opened MetadataMessages
  import opened Torrents
  import F = MetadataFetch

  // ---- one lost answer ----

  /** Nothing is awaited, and only what is held counts as asked for. */
  ghost predicate Afresh(f: F.Fetch) {
    && |f.slots| == |f.asked| && !f.waiting
    && forall i | 0 <= i < |f.slots| && f.asked[i] :: f.slots[i].Some?
  }

  /** A failed wait costs one attempt, keeps every piece held, and forgets every other request. */
  lemma LostIsForgotten(f: F.Fetch, r: F.Round)
    requires |f.slots| == |f.asked| && r.incoming == F.Failed && (F.Asks(f) ==> r.writes)
    ensures var (g, verdict) := F.Step(f, r);
      && verdict == F.Running && Afresh(g)
      && g.slots == f.slots && g.received == f.received && g.retries == f.retries + 1
  {
  }

  /** The next round then asks for the first piece that is missing. */
  lemma FirstMissingIsAsked(f: F.Fetch, r: F.Round, i: nat)
    requires Afresh(f) && r.writes
    requires i < |f.slots| && f.slots[i].None? && forall j | 0 <= j < i :: f.slots[j].Some?
    ensures F.Step(f, r).0.requests == f.requests + [i]
  {
    assert F.NextToAsk(f, 0) == i;
    hide F.ReplyIn, F.NextToAsk;
  }

  /** A piece whose answer was lost is asked for again, first of all that are missing. */
  lemma LostIsAskedAgain(f: F.Fetch, lost: F.Round, again: F.Round, i: nat)
    requires |f.slots| == |f.asked| && !f.Over() && f.retries + 1 < F.MAX_RETRIES
    requires lost.incoming == F.Failed && (F.Asks(f) ==> lost.writes) && again.writes
    requires i < |f.slots| && f.slots[i].None? && forall j | 0 <= j < i :: f.slots[j].Some?
    ensures F.Run(f, [lost, again]).0.requests == F.Step(f, lost).0.requests + [i]
  {
    LostIsForgotten(f, lost);
    var g := F.Step(f, lost).0;
    FirstMissingIsAsked(g, again, i);
    assert !g.Over() && [lost, again][1..] == [again];
    hide F.Step;
    F.StepSizes(g, again);
    RunOne(g, again);
  }

  lemma RunOne(f: F.Fetch, r: F.Round)
    requires |f.slots| == |f.asked| && !f.Over()
    ensures F.Run(f, [r]).0 == F.Step(f, r).0
  {
    F.StepSizes(f, r);
    assert [r][1..] == [];
    hide F.Step;
  }

  // ---- any losses ----

  /** What one wait brings: the answer awaited, nothing, or some message that is no metadata. */
  datatype Event = Answer | Lost | Other(m: Message)

  predicate Harmless(build: Build, e: Event) { e.Other? ==> F.ReplyIn(build, F.Received(e.m)).Ignored? }

  /** The rounds of a fetch whose next missing piece is the k-th. */
  function Rounds(dict: bytes, events: seq<Event>, k: nat): seq<F.Round> {
    if events == [] then []
    else
      match events[0]
      case Answer => [AnswerRound(dict, k)] + Rounds(dict, events[1..], k + 1)
      case Lost => [F.Round(true, F.Failed)] + Rounds(dict, events[1..], k)
      case Other(m) => [F.Round(true, F.Received(m))] + Rounds(dict, events[1..], k)
  }

  /** `left` answers come before three waits fail with no answer between them; `lost` have failed already. */
  predicate Patient(events: seq<Event>, lost: nat, left: nat) {
    if left == 0 then true
    else if events == [] then false
    else
      match events[0]
      case Answer => Patient(events[1..], 0, left - 1)
      case Lost => lost < 2 && Patient(events[1..], lost + 1, left)
      case Other(_) => Patient(events[1..], lost, left)
  }

  /** The next missing piece, unless an answer to it is awaited. */
  function Due(awaited: bool, k: nat): seq<nat> { if awaited then [] else [k] }

  /** What is asked for: the next missing piece, whenever no answer to it is still awaited. */
  function Wishes(events: seq<Event>, k: nat, awaited: bool, lost: nat, left: nat): seq<nat> {
    if left == 0 || lost >= 3 || events == [] then []
    else
      Due(awaited, k)
      + (match events[0]
         case Answer => Wishes(events[1..], k + 1, false, 0, left - 1)
         case Lost => Wishes(events[1..], k, false, lost + 1, left)
         case Other(_) => Wishes(events[1..], k, true, lost, left))
  }

  /** The first k pieces are held; the next is asked for exactly when its answer is awaited. */
  ghost predicate Upto(f: F.Fetch, dict: bytes, k: nat, lost: nat) {
    && f.size == |dict| && |f.slots| == |f.asked| == PieceCount(|dict|) && k <= |f.slots|
    && (forall i | 0 <= i < |f.slots| :: if i < k then f.slots[i] == Some(DictSlice(dict, i)) else f.slots[i].None?)
    && (forall i | 0 <= i < |f.slots| :: f.asked[i] <==> i < k || (i == k && f.waiting))
    && f.received == k && f.retries == lost && (k == |f.slots| ==> lost == 0 && !f.waiting)
  }

  function After(k: nat, lost: nat, e: Event): (nat, nat) {
    match e
    case Answer => (k + 1, 0)
    case Lost => (k, lost + 1)
    case Other(_) => (k, lost)
  }

  lemma AnswerStep(f: F.Fetch, dict: bytes, k: nat, lost: nat)
    requires Upto(f, dict, k, lost) && k < |f.slots| && k < U32_LIMIT && |dict| <= I64_MAX
    ensures var (g, verdict) := F.Step(f, AnswerRound(dict, k));
      verdict == F.Running && g.build == f.build && Upto(g, dict, k + 1, 0) && !g.waiting
      && g.requests == f.requests + Due(f.waiting, k)
  {
    AnswerIsRead(f.build, dict, k);
    AnswersAreWritten(dict, k);
    AsksNext(f, dict, k, lost);
    hide F.NextToAsk, F.ReplyIn, AnswerRound, PieceCount, DictSlice;
  }

  lemma AnswersAreWritten(dict: bytes, k: nat)
    ensures AnswerRound(dict, k).writes && AnswerRound(dict, k).incoming.Received?
  {
  }

  lemma AsksNext(f: F.Fetch, dict: bytes, k: nat, lost: nat)
    requires Upto(f, dict, k, lost) && k < |f.slots|
    ensures f.waiting || F.NextToAsk(f, 0) == k
    ensures F.Asks(f) <==> !f.waiting
  {
    assert f.slots[k].None? && (!f.waiting ==> !f.asked[k]);
    assert f.waiting || F.NextToAsk(f, 0) == k;
  }

  lemma OtherStep(f: F.Fetch, dict: bytes, k: nat, lost: nat, r: F.Round)
    requires Upto(f, dict, k, lost) && k < |f.slots| && r.writes
    requires r.incoming == F.Failed || F.ReplyIn(f.build, r.incoming).Ignored?
    ensures var (g, verdict) := F.Step(f, r);
      verdict == F.Running && g.build == f.build
      && Upto(g, dict, k, if r.incoming.Failed? then lost + 1 else lost) && g.waiting == r.incoming.Received?
      && g.requests == f.requests + Due(f.waiting, k)
  {
    AsksNext(f, dict, k, lost);
    hide F.NextToAsk, F.ReplyIn;
  }

  lemma EventStep(f: F.Fetch, dict: bytes, k: nat, lost: nat, e: Event, r: F.Round)
    requires Upto(f, dict, k, lost) && k < |f.slots| && k < U32_LIMIT && |dict| <= I64_MAX && Harmless(f.build, e)
    requires r == Rounds(dict, [e], k)[0]
    ensures var (g, verdict) := F.Step(f, r);
      && verdict == F.Running && g.build == f.build && Upto(g, dict, After(k, lost, e).0, After(k, lost, e).1)
      && g.waiting == e.Other?
      && g.requests == f.requests + Due(f.waiting, k)
  {
    if e.Answer? { AnswerStep(f, dict, k, lost); } else { OtherStep(f, dict, k, lost, r); }
    hide F.Step, F.ReplyIn, Upto, AnswerRound;
  }

  lemma DoneIsFetched(f: F.Fetch, dict: bytes, rounds: seq<F.Round>)
    requires Upto(f, dict, PieceCount(|dict|), 0) && Parse(dict).Some?
    ensures F.Run(f, rounds) == (f, F.Fetched(dict))
  {
    F.SlicesJoin(dict, f.slots, |f.slots|);
    assert f.slots[..|f.slots|] == f.slots && dict[..|dict|] == dict;
    hide Parse;
  }

  lemma RoundsHead(dict: bytes, events: seq<Event>, k: nat)
    requires events != []
    ensures var rounds := Rounds(dict, events, k);
      && rounds != [] && rounds[0] == Rounds(dict, [events[0]], k)[0]
      && rounds[1..] == Rounds(dict, events[1..], After(k, 0, events[0]).0)
  {
    assert [events[0]][1..] == [];
  }

  /** The fetch succeeds exactly when it should. */
  ghost predicate EndsWell(f: F.Fetch, dict: bytes, k: nat, lost: nat, events: seq<Event>) {
    && |f.slots| == |f.asked| && k <= PieceCount(|dict|)
    && (F.Run(f, Rounds(dict, events, k)).1 == F.Fetched(dict) <==>
          lost < 3 && Patient(events, lost, PieceCount(|dict|) - k))
  }

  /** The fetch asks for what it should. */
  ghost predicate AsksWell(f: F.Fetch, dict: bytes, k: nat, lost: nat, events: seq<Event>) {
    && |f.slots| == |f.asked| && k <= PieceCount(|dict|)
    && F.Run(f, Rounds(dict, events, k)).0.requests
       == f.requests + Wishes(events, k, f.waiting, lost, PieceCount(|dict|) - k)
  }

  ghost predicate Foretold(f: F.Fetch, dict: bytes, k: nat, lost: nat, events: seq<Event>) {
    EndsWell(f, dict, k, lost, events) && AsksWell(f, dict, k, lost, events)
  }

  lemma EndsWellFrom(f: F.Fetch, g: F.Fetch, dict: bytes, k: nat, k': nat, lost: nat, lost': nat,
                     events: seq<Event>, tail: seq<Event>)
    requires |f.slots| == |f.asked| && k <= k' <= PieceCount(|dict|) && EndsWell(g, dict, k', lost', tail)
    requires F.Run(f, Rounds(dict, events, k)) == F.Run(g, Rounds(dict, tail, k'))
    requires lost < 3 && Patient(events, lost, PieceCount(|dict|) - k)
        <==> lost' < 3 && Patient(tail, lost', PieceCount(|dict|) - k')
    ensures EndsWell(f, dict, k, lost, events)
  {
    hide F.Run, Rounds, Patient, PieceCount;
  }

  lemma AsksWellFrom(f: F.Fetch, g: F.Fetch, dict: bytes, k: nat, k': nat, lost: nat, lost': nat,
                     events: seq<Event>, tail: seq<Event>, asked: seq<nat>)
    requires |f.slots| == |f.asked| && k <= k' <= PieceCount(|dict|) && AsksWell(g, dict, k', lost', tail)
    requires F.Run(f, Rounds(dict, events, k)) == F.Run(g, Rounds(dict, tail, k'))
    requires g.requests == f.requests + asked
    requires Wishes(events, k, f.waiting, lost, PieceCount(|dict|) - k)
          == asked + Wishes(tail, k', g.waiting, lost', PieceCount(|dict|) - k')
    ensures AsksWell(f, dict, k, lost, events)
  {
    Associates(f.requests, asked, Wishes(tail, k', g.waiting, lost', PieceCount(|dict|) - k'));
    hide F.Run, Rounds, Wishes, PieceCount;
  }

  lemma ForetoldStep(f: F.Fetch, g: F.Fetch, dict: bytes, k: nat, lost: nat, events: seq<Event>)
    requires |f.slots| == |f.asked| && !f.Over() && k < PieceCount(|dict|) && lost < 3 && events != []
    requires var (k', lost') := After(k, lost, events[0]);
      k <= k' <= PieceCount(|dict|) && Foretold(g, dict, k', lost', events[1..])
    requires g.requests == f.requests + Due(f.waiting, k) && g.waiting == events[0].Other?
    requires F.Run(f, Rounds(dict, events, k)) == F.Run(g, Rounds(dict, events[1..], After(k, lost, events[0]).0))
    ensures Foretold(f, dict, k, lost, events)
  {
    hide *;
    Unfolded(events, k, f.waiting, lost, PieceCount(|dict|) - k);
    var (k', lost') := After(k, lost, events[0]);
    BothWell(g, dict, k', lost', events[1..]);
    EndsWellFrom(f, g, dict, k, k', lost, lost', events, events[1..]);
    AsksWellFrom(f, g, dict, k, k', lost, lost', events, events[1..], Due(f.waiting, k));
    BothWell(f, dict, k, lost, events);
  }

  lemma BothWell(f: F.Fetch, dict: bytes, k: nat, lost: nat, events: seq<Event>)
    ensures Foretold(f, dict, k, lost, events) <==>
      EndsWell(f, dict, k, lost, events) && AsksWell(f, dict, k, lost, events)
  {
  }

  lemma RunChains(f: F.Fetch, dict: bytes, k: nat, lost: nat, events: seq<Event>)
    requires |f.slots| == |f.asked| && !f.Over() && events != []
    ensures Rounds(dict, events, k) != []
    ensures var (g, verdict) := F.Step(f, Rounds(dict, events, k)[0]);
      && |g.slots| == |g.asked|
      && (verdict == F.Running ==>
            F.Run(f, Rounds(dict, events, k)) == F.Run(g, Rounds(dict, events[1..], After(k, lost, events[0]).0)))
  {
    RoundsHead(dict, events, k);
    AfterFits(k, lost, events[0]);
    hide *;
    RunMore(f, Rounds(dict, events, k));
  }

  lemma {:induction false} AlwaysForetold(f: F.Fetch, dict: bytes, k: nat, lost: nat, events: seq<Event>)
    requires Upto(f, dict, k, lost) && lost <= 3 && |dict| <= I64_MAX && PieceCount(|dict|) <= U32_LIMIT
    requires Parse(dict).Some? && forall i | 0 <= i < |events| :: Harmless(f.build, events[i])
    ensures Foretold(f, dict, k, lost, events)
    decreases |events|
  {
    DoneHere(f, dict, k, lost);
    hide *;
    if k == PieceCount(|dict|) || lost == 3 || events == [] {
      NothingMore(f, dict, k, lost, events);
    } else {
      StuckHere(f, dict, k, lost);
      RoundsHead(dict, events, k);
      AfterFits(k, lost, events[0]);
      var (k', lost') := After(k, lost, events[0]);
      var r := Rounds(dict, events, k)[0];
      EventStep(f, dict, k, lost, events[0], r);
      var g := F.Step(f, r).0;
      DoneHere(g, dict, k', lost');
      AlwaysForetold(g, dict, k', lost', events[1..]);
      RunChains(f, dict, k, lost, events);
      ForetoldStep(f, g, dict, k, lost, events);
    }
  }

  /**
   * Whatever answers are lost and whatever else arrives: a fetch whose requests are
   * otherwise answered succeeds exactly when each piece is answered before three
   * waits fail with no answer between them, and it asks for the next missing piece
   * whenever no answer to it is awaited.
   */
  lemma SucceedsIffPatient(build: Build, dict: bytes, events: seq<Event>)
    requires |dict| <= I64_MAX && PieceCount(|dict|) <= U32_LIMIT && Parse(dict).Some?
    requires forall i | 0 <= i < |events| :: Harmless(build, events[i])
    ensures var (f, verdict) := F.Run(F.Start(build, |dict|), Rounds(dict, events, 0));
      && (verdict == F.Fetched(dict) <==> Patient(events, 0, PieceCount(|dict|)))
      && f.requests == Wishes(events, 0, false, 0, PieceCount(|dict|))
  {
    var f := F.Start(build, |dict|);
    assert Upto(f, dict, 0, 0);
    AlwaysForetold(f, dict, 0, 0, events);
    assert [] + Wishes(events, 0, false, 0, PieceCount(|dict|)) == Wishes(events, 0, false, 0, PieceCount(|dict|));
    hide F.Run, Rounds, Patient, Wishes, Upto, Parse;
  }

  /** Never three failed waits in a row. */
  predicate NoThreeLost(events: seq<Event>) {
    forall i | 0 <= i < |events| - 2 :: !(events[i].Lost? && events[i + 1].Lost? && events[i + 2].Lost?)
  }

  function Answers(events: seq<Event>): nat {
    if events == [] then 0 else Answers(events[1..]) + (if events[0].Answer? then 1 else 0)
  }

  lemma {:induction false} FewLostIsPatient(events: seq<Event>, lost: nat, left: nat)
    requires (forall e | e in events :: !e.Other?) && Answers(events) >= left
    requires lost <= 2 && NoThreeLost(Repeat(lost, Lost) + events)
    ensures Patient(events, lost, left)
    decreases |events|
  {
    if left > 0 && events != [] {
      var (tail, before) := (events[1..], Repeat(lost, Lost) + events);
      var lost' := if events[0].Lost? then lost + 1 else 0;
      assert lost == 2 ==> before[2] == events[0] && !(before[0].Lost? && before[1].Lost? && before[2].Lost?);
      var after := Repeat(lost', Lost) + tail;
      var skip := |before| - |after|;
      assert forall i | 0 <= i < |after| :: after[i] == before[skip + i];
      forall i | 0 <= i < |after| - 2 ensures !(after[i].Lost? && after[i + 1].Lost? && after[i + 2].Lost?) {
        assert !(before[skip + i].Lost? && before[skip + i + 1].Lost? && before[skip + i + 2].Lost?);
      }
      FewLostIsPatient(tail, lost', if events[0].Answer? then left - 1 else left);
    }
  }

  /** So a fetch that is answered once for each piece succeeds if fewer than three waits fail in a row. */
  lemma FewLostSucceeds(build: Build, dict: bytes, events: seq<Event>)
    requires |dict| <= I64_MAX && PieceCount(|dict|) <= U32_LIMIT && Parse(dict).Some?
    requires (forall e | e in events :: !e.Other?) && NoThreeLost(events) && Answers(events) >= PieceCount(|dict|)
    ensures F.Run(F.Start(build, |dict|), Rounds(dict, events, 0)).1 == F.Fetched(dict)
  {
    assert Repeat(0, Lost) + events == events;
    FewLostIsPatient(events, 0, PieceCount(|dict|));
    forall i | 0 <= i < |events| ensures Harmless(build, events[i]) { assert events[i] in events; }
    SucceedsIffPatient(build, dict, events);
    hide *;
  }

  lemma NothingMore(f: F.Fetch, dict: bytes, k: nat, lost: nat, events: seq<Event>)
    requires Upto(f, dict, k, lost) && lost <= 3 && Parse(dict).Some?
    requires k == PieceCount(|dict|) || lost == 3 || events == []
    ensures Foretold(f, dict, k, lost, events)
  {
    assert f.requests + [] == f.requests;
    if k == PieceCount(|dict|) {
      DoneIsFetched(f, dict, Rounds(dict, events, k));
    } else {
      StuckHere(f, dict, k, lost);
    }
    hide Parse, Upto, F.Step;
  }

  lemma AfterFits(k: nat, lost: nat, e: Event)
    ensures k <= After(k, lost, e).0 == After(k, 0, e).0 && (lost < 3 ==> After(k, lost, e).1 <= 3)
  {
  }

  lemma RunMore(f: F.Fetch, rounds: seq<F.Round>)
    requires |f.slots| == |f.asked| && !f.Over() && rounds != []
    ensures var (g, verdict) := F.Step(f, rounds[0]);
      |g.slots| == |g.asked| && (verdict == F.Running ==> F.Run(f, rounds) == F.Run(g, rounds[1..]))
  {
    F.StepSizes(f, rounds[0]);
    hide F.Step;
  }

  lemma Unfolded(events: seq<Event>, k: nat, awaited: bool, lost: nat, left: nat)
    requires left > 0 && lost < 3 && events != []
    ensures var (k', lost') := After(k, lost, events[0]);
      && k <= k' <= k + left
      && (Patient(events, lost, left) <==> lost' < 3 && Patient(events[1..], lost', left - (k' - k)))
      && Wishes(events, k, awaited, lost, left)
         == Due(awaited, k) + Wishes(events[1..], k', events[0].Other?, lost', left - (k' - k))
  {
  }

  lemma DoneHere(f: F.Fetch, dict: bytes, k: nat, lost: nat)
    requires Upto(f, dict, k, lost)
    ensures |f.slots| == |f.asked| == PieceCount(|dict|) && k <= |f.slots| && (k == |f.slots| ==> lost == 0)
  {
  }

  /** With pieces missing the loop goes on exactly until three waits in a row have failed. */
  lemma StuckHere(f: F.Fetch, dict: bytes, k: nat, lost: nat)
    requires Upto(f, dict, k, lost) && k < PieceCount(|dict|) && lost <= 3
    ensures |f.slots| == |f.asked| == PieceCount(|dict|)
    ensures f.Over() <==> lost == 3
    ensures f.Over() ==> F.Conclude(f) == F.GaveUp
  {
  }

  lemma Associates<T>(a: seq<T>, b: seq<T>, c: seq<T>)
    ensures a + b + c == a + (b + c)
  {
  }
}
