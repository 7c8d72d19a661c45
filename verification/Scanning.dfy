/**
 * The scanner's loop, step by step, in the two ways the client can be built: one
 * that traps when an integer overflows, and one that wraps it around.
 */
module Scanning {
  import opened Basics
  import opened Numbers
  import opened Bencode
  import opened Scanner

  /** Where the loop stands: the next byte, and the number of open containers. */
  datatype At = At(pos: nat, depth: int)

  const START := At(0, 0)

  /** What one turn of the loop comes to. */
  datatype Move = Go(at: At) | Stop(end: Option<nat>) | Trap

  predicate Fits32(depth: int) { -I32_MAX - 1 <= depth <= I32_MAX }

  /** A 32-bit counter after wrapping by one. */
  function Wrapped(depth: int): int {
    if depth > I32_MAX then depth - U32_LIMIT else if depth < -I32_MAX - 1 then depth + U32_LIMIT else depth
  }

  /** The loop after a token: at depth 0 a token that is not an opening ends the scan. */
  function Arrive(build: Build, at: At, ends: bool): Move {
    if (at.pos >= U64_LIMIT || !Fits32(at.depth)) && build.Trapping? then Trap
    else
      var there := At(at.pos % U64_LIMIT, Wrapped(at.depth));
      if ends && there.depth == 0 then Stop(Some(there.pos)) else Go(there)
  }

  /** One turn of the loop. */
  function Step(build: Build, data: bytes, at: At): Move {
    if at.pos >= |data| then Stop(None)
    else
      var s := data[at.pos..];
      var n := TokenSize(s);
      if n == 0 then Stop(None)
      else Arrive(build, At(at.pos + n, at.depth + Change(s[0])), !Opens(s[0]))
  }

  /** The loop after up to n turns. */
  function Walk(build: Build, data: bytes, at: At, n: nat): Move
    decreases n
  {
    if n == 0 then Go(at)
    else
      match Step(build, data, at)
      case Go(next) => Walk(build, data, next, n - 1)
      case stopped => stopped
  }

  /** What the scan comes to. `Forever`: it never returns. */
  datatype Outcome = Ended(end: Option<nat>) | Trapped | Forever

  /** More turns than the loop has distinct places to be in. */
  function Bound(data: bytes): nat { |data| * U32_LIMIT + 1 }

  function Find(build: Build, data: bytes): Outcome {
    match Walk(build, data, START, Bound(data))
    case Stop(end) => Ended(end)
    case Trap => Trapped
    case Go(_) => Forever
  }

  /** The loop itself. A scan that outlasts the bound never returns (FindForeverIff). */
  method FindBencodeEnd(build: Build, data: bytes) returns (r: Outcome)
    ensures r == Find(build, data)
  {
    hide FindByte, Numeral, Bound, Walk, Step, Find;
    FindIs(build, data);
    var pos: nat := 0;
    var depth: int := 0;
    var left := Bound(data);
    while left > 0
      invariant Fits32(depth)
      invariant Walk(build, data, START, Bound(data)) == Walk(build, data, At(pos, depth), left)
      decreases left
    {
      ghost var at := At(pos, depth);
      WalkOnce(build, data, at, left);
      StepIs(build, data, at);
      left := left - 1;
      if pos >= |data| { return Ended(None); }
      var b := data[pos];
      ghost var s := data[pos..];
      var ends := true;
      if b == LETTER_D || b == LETTER_L {
        depth := depth + 1;
        pos := pos + 1;
        ends := false;
      } else if b == LETTER_I {
        var e := SkipTo(data, pos, LETTER_E);
        if e >= |data| { return Ended(None); }
        pos := e + 1;
      } else if b == LETTER_E {
        depth := depth - 1;
        pos := pos + 1;
      } else if IsDigit(b) {
        var c := SkipTo(data, pos, COLON);
        if c >= |data| { return Ended(None); }
        assert s[..c - pos] == data[pos..c];
        if !AllDigits(data[pos..c]) { return Ended(None); }
        var len := Numeral(data[pos..c]);
        if len >= U64_LIMIT { return Ended(None); }
        pos := c + 1 + len;
      } else {
        return Ended(None);
      }
      assert pos == at.pos + TokenSize(s) && depth == at.depth + Change(s[0]) && ends == !Opens(s[0]);
      hide TokenSize, Change, Opens, Declared;
      if pos >= U64_LIMIT || depth > I32_MAX || depth < -I32_MAX - 1 {
        if build.Trapping? { return Trapped; }
        pos, depth := pos % U64_LIMIT, Wrapped(depth);
      }
      if ends && depth == 0 { return Ended(Some(pos)); }
    }
    WalkDone(build, data, At(pos, depth));
    return Forever;
  }

  lemma FindIs(build: Build, data: bytes)
    ensures Find(build, data) ==
      match Walk(build, data, START, Bound(data))
      case Stop(end) => Ended(end)
      case Trap => Trapped
      case Go(_) => Forever
  {
  }

  lemma WalkDone(build: Build, data: bytes, at: At)
    ensures Walk(build, data, at, 0) == Go(at)
  {
  }

  lemma WalkOnce(build: Build, data: bytes, at: At, n: nat)
    requires n > 0
    ensures Walk(build, data, at, n) ==
      match Step(build, data, at)
      case Go(next) => Walk(build, data, next, n - 1)
      case stopped => stopped
  {
  }

  lemma StepIs(build: Build, data: bytes, at: At)
    ensures at.pos >= |data| ==> Step(build, data, at) == Stop(None)
    ensures at.pos < |data| ==>
      var s := data[at.pos..];
      Step(build, data, at) ==
        if TokenSize(s) == 0 then Stop(None)
        else Arrive(build, At(at.pos + TokenSize(s), at.depth + Change(s[0])), !Opens(s[0]))
  {
  }

  method SkipTo(data: bytes, from: nat, b: byte) returns (pos: nat)
    requires from <= |data|
    ensures pos == from + FindByte(data[from..], b)
  {
    pos := from;
    while pos < |data| && data[pos] != b
      invariant from <= pos <= |data|
      invariant from + FindByte(data[from..], b) == pos + FindByte(data[pos..], b)
    {
      assert data[pos..][1..] == data[pos + 1..];
      pos := pos + 1;
    }
  }

  // ---- when it never returns ----

  lemma {:induction false} WalkOn(build: Build, data: bytes, at: At, i: nat, n: nat)
    ensures Walk(build, data, at, i + n) ==
      match Walk(build, data, at, i)
      case Go(there) => Walk(build, data, there, n)
      case stopped => stopped
    decreases i
  {
    hide Step;
    if i > 0 {
      match Step(build, data, at)
      case Go(next) => WalkOn(build, data, next, i - 1, n);
      case _ =>
    }
  }

  /** The loop is at this place after n turns. */
  predicate Visits(build: Build, data: bytes, n: nat, at: At) { Walk(build, data, START, n) == Go(at) }

  /** Some place comes back. */
  ghost predicate ComesBack(build: Build, data: bytes) {
    exists i: nat, j: nat, at: At :: i < j && Visits(build, data, i, at) && Visits(build, data, j, at)
  }

  lemma {:induction false} BackForever(build: Build, data: bytes, i: nat, j: nat, at: At, n: nat)
    requires i < j && Visits(build, data, i, at) && Visits(build, data, j, at)
    ensures Walk(build, data, START, n).Go?
    decreases n
  {
    hide Walk;
    if n < j {
      WalkOn(build, data, START, n, j - n);
    } else {
      BackForever(build, data, i, j, at, i + (n - j));
      WalkOn(build, data, START, i, n - j);
      WalkOn(build, data, START, j, n - j);
    }
  }

  /** Places numbered. */
  function Number(at: At): int { at.pos * U32_LIMIT + at.depth + I32_MAX + 1 }

  lemma NumberIsInjective(a: At, b: At)
    requires Fits32(a.depth) && Fits32(b.depth) && Number(a) == Number(b)
    ensures a == b
  {
    assert Number(a) / U32_LIMIT == a.pos && Number(b) / U32_LIMIT == b.pos;
  }

  lemma {:induction false} PlacesFits32(build: Build, data: bytes, n: nat)
    ensures var m := Walk(build, data, START, n); m.Go? ==> Fits32(m.at.depth)
  {
    if n > 0 {
      PlacesFits32(build, data, n - 1);
      WalkOn(build, data, START, n - 1, 1);
      var m := Walk(build, data, START, n - 1);
      if m.Go? {
        WalkOnce(build, data, m.at, 1);
        StepStaysFits32(build, data, m.at);
      }
      hide Step;
    }
  }

  lemma StepStaysFits32(build: Build, data: bytes, at: At)
    requires Fits32(at.depth)
    ensures var m := Step(build, data, at); m.Go? ==> Fits32(m.at.depth)
  {
    StepIs(build, data, at);
    hide Step, TokenSize;
  }

  lemma PlaceNumber(build: Build, data: bytes, n: nat)
    requires Walk(build, data, START, n + 1).Go?
    ensures var m := Walk(build, data, START, n);
      m.Go? && m.at.pos < |data| && Fits32(m.at.depth) && 0 <= Number(m.at) < |data| * U32_LIMIT
  {
    WalkOn(build, data, START, n, 1);
    PlacesFits32(build, data, n);
    var m := Walk(build, data, START, n);
    assert m.at.pos < |data|;
    assert (m.at.pos + 1) * U32_LIMIT <= |data| * U32_LIMIT;
  }

  /** A loop that outlasts the number of places has come back to one. */
  lemma OutlastingComesBack(build: Build, data: bytes)
    requires Walk(build, data, START, Bound(data)).Go?
    ensures ComesBack(build, data)
  {
    var m := |data| * U32_LIMIT;
    forall i: nat | i <= m ensures 0 <= NumberAt(build, data, i) < m { EarlierNumber(build, data, i); }
    var i, j := Pigeonhole(seq(m + 1, i requires 0 <= i => NumberAt(build, data, i)), m);
    hide Walk, Number, Visits;
    EarlierNumber(build, data, i);
    EarlierNumber(build, data, j);
    SameNumberSamePlace(build, data, i, j);
  }

  lemma EarlierNumber(build: Build, data: bytes, i: nat)
    requires Walk(build, data, START, Bound(data)).Go? && i <= |data| * U32_LIMIT
    ensures Walk(build, data, START, i + 1).Go?
    ensures 0 <= NumberAt(build, data, i) < |data| * U32_LIMIT
  {
    WalkOn(build, data, START, i + 1, |data| * U32_LIMIT - i);
    hide Walk, Number;
    PlaceNumber(build, data, i);
  }

  lemma SameNumberSamePlace(build: Build, data: bytes, i: nat, j: nat)
    requires i < j && NumberAt(build, data, i) == NumberAt(build, data, j)
    requires Walk(build, data, START, i + 1).Go? && Walk(build, data, START, j + 1).Go?
    ensures ComesBack(build, data)
  {
    PlaceNumber(build, data, i);
    PlaceNumber(build, data, j);
    hide Walk, Number;
    var at := Walk(build, data, START, i).at;
    NumberIsInjective(at, Walk(build, data, START, j).at);
    assert Visits(build, data, i, at) && Visits(build, data, j, at);
  }

  function NumberAt(build: Build, data: bytes, n: nat): int {
    var m := Walk(build, data, START, n);
    if m.Go? then Number(m.at) else 0
  }

  lemma Pigeonhole(numbers: seq<int>, m: nat) returns (i: nat, j: nat)
    requires |numbers| > m && forall k | 0 <= k < |numbers| :: 0 <= numbers[k] < m
    ensures i < j < |numbers| && numbers[i] == numbers[j]
  {
    if NoDup(numbers) {
      NoDupSize(numbers);
      HolesSize(m);
      SubsetSize(Elements(numbers), Holes(m));
      assert false;
    }
    i, j :| 0 <= i < j < |numbers| && numbers[i] == numbers[j];
  }

  function Holes(m: nat): set<int> { if m == 0 then {} else Holes(m - 1) + {m - 1} }

  lemma {:induction false} HolesSize(m: nat)
    ensures |Holes(m)| == m && forall k: int :: k in Holes(m) <==> 0 <= k < m
  {
    if m > 0 { HolesSize(m - 1); }
  }

  ghost predicate NeverStops(build: Build, data: bytes) { forall n: nat :: Walk(build, data, START, n).Go? }

  lemma ComingBackNeverStops(build: Build, data: bytes)
    requires ComesBack(build, data)
    ensures NeverStops(build, data)
  {
    hide Walk, Visits;
    var i: nat, j: nat, at: At :| i < j && Visits(build, data, i, at) && Visits(build, data, j, at);
    forall n: nat ensures Walk(build, data, START, n).Go? { BackForever(build, data, i, j, at, n); }
  }

  /** The scan never returns exactly when the loop comes back to some place. */
  lemma FindForeverIff(build: Build, data: bytes)
    ensures Find(build, data) == Forever <==> NeverStops(build, data)
    ensures Find(build, data) == Forever <==> ComesBack(build, data)
  {
    assert NeverStops(build, data) ==> Walk(build, data, START, Bound(data)).Go?;
    hide Walk, Bound, NeverStops, ComesBack;
    if Walk(build, data, START, Bound(data)).Go? { OutlastingComesBack(build, data); }
    if ComesBack(build, data) { ComingBackNeverStops(build, data); }
  }

  /** Whenever the loop stops, that is what the scan comes to. */
  lemma FindIsTheLoop(build: Build, data: bytes, n: nat)
    ensures match Walk(build, data, START, n)
            case Go(_) => true
            case Stop(end) => Find(build, data) == Ended(end)
            case Trap => Find(build, data) == Trapped
  {
    hide Walk;
    if n <= Bound(data) {
      WalkOn(build, data, START, n, Bound(data) - n);
    } else {
      WalkOn(build, data, START, Bound(data), n - Bound(data));
      FindForeverIff(build, data);
    }
  }

  // ---- while the counters hold ----

  /** The scan, token by token. */
  lemma ScanToken(s: bytes, base: nat, depth: int)
    ensures Scan(s, base, depth) ==
      var n := TokenSize(s);
      if n == 0 then NoEnd
      else if Exceeds(s, base, depth) then Overflows
      else if !Opens(s[0]) && depth + Change(s[0]) == 0 then End(base + n)
      else if n > |s| then NoEnd
      else Scan(s[n..], base + n, depth + Change(s[0]))
  {
    hide FindByte, Numeral;
  }

  /** A token exceeds a counter exactly when it would arrive out of range. */
  lemma ExceedsIff(s: bytes, base: nat, depth: int)
    requires base + |s| < U64_LIMIT && Fits32(depth) && TokenSize(s) > 0
    ensures Exceeds(s, base, depth) <==> base + TokenSize(s) >= U64_LIMIT || !Fits32(depth + Change(s[0]))
  {
    hide Numeral;
  }

  /** The loop, from a place inside the data, does what the scan of the rest says. */
  lemma {:induction false} WalkScans(build: Build, data: bytes, at: At, n: nat)
    requires |data| < U64_LIMIT && at.pos <= |data| && Fits32(at.depth) && n > |data| - at.pos
    ensures match Scan(data[at.pos..], at.pos, at.depth)
            case End(end) => Walk(build, data, at, n) == Stop(Some(end))
            case NoEnd => Walk(build, data, at, n) == Stop(None)
            case Overflows => build.Trapping? ==> Walk(build, data, at, n) == Trap
    decreases |data| - at.pos
  {
    hide Scan, Walk, Step, Exceeds, Opens, Change, TokenSize;
    var s := data[at.pos..];
    WalkOnce(build, data, at, n);
    ScanToken(s, at.pos, at.depth);
    StepByToken(build, data, at);
    if at.pos == |data| { EmptyHasNoToken(s); }
    if at.pos < |data| && TokenSize(s) > 0 && !Exceeds(s, at.pos, at.depth) {
      var next := At(at.pos + TokenSize(s), at.depth + Change(s[0]));
      PastTheData(build, data, next, n - 1);
      if Step(build, data, at) == Go(next) && next.pos <= |data| {
        assert s[TokenSize(s)..] == data[next.pos..];
        WalkScans(build, data, next, n - 1);
      }
    }
  }

  /** One turn inside the data, by what its token does. */
  lemma StepByToken(build: Build, data: bytes, at: At)
    requires |data| < U64_LIMIT && at.pos <= |data| && Fits32(at.depth)
    ensures var s := data[at.pos..];
      var n := TokenSize(s);
      if n == 0 then Step(build, data, at) == Stop(None)
      else
        var next := At(at.pos + n, at.depth + Change(s[0]));
        if Exceeds(s, at.pos, at.depth) then
          && Step(build, data, at) == Arrive(build, next, !Opens(s[0]))
          && (build.Trapping? ==> Step(build, data, at) == Trap)
        else
          && Fits32(next.depth)
          && Step(build, data, at) == if !Opens(s[0]) && next.depth == 0 then Stop(Some(next.pos)) else Go(next)
  {
    var s := data[at.pos..];
    StepIs(build, data, at);
    if at.pos < |data| && TokenSize(s) > 0 { ExceedsIff(s, at.pos, at.depth); }
    hide Exceeds, Opens, Change, TokenSize, Step;
    if at.pos == |data| { EmptyHasNoToken(s); }
  }

  /** Past the data the loop stops at once. */
  lemma PastTheData(build: Build, data: bytes, at: At, n: nat)
    ensures n > 0 && at.pos > |data| ==> Walk(build, data, at, n) == Stop(None)
  {
  }

  lemma EmptyHasNoToken(s: bytes)
    requires s == []
    ensures TokenSize(s) == 0
  {
  }

  /** While no counter gives out, both builds come to what the scan says. */
  lemma BuildsAgree(build: Build, data: bytes)
    requires |data| < U64_LIMIT && Scan(data, 0, 0) != Overflows
    ensures Find(build, data) ==
      if Scan(data, 0, 0).End? then Ended(Some(Scan(data, 0, 0).pos)) else Ended(None)
  {
    assert data[0..] == data;
    WalkScans(build, data, START, |data| + 1);
    hide Walk, Scan;
    FindIsTheLoop(build, data, |data| + 1);
  }

  /** A trapping build always stops, and traps exactly when a token that exhausts a counter is reached. */
  lemma TrapsIffReached(data: bytes)
    requires |data| < U64_LIMIT
    ensures Find(Trapping, data) == Trapped <==> Reaches(Counter, data, 0, 0)
    ensures Find(Trapping, data) != Forever
  {
    OverflowsIffReached(data, 0, 0);
    hide Scan, Reaches, Find;
    if Scan(data, 0, 0) == Overflows {
      assert data[0..] == data;
      WalkScans(Trapping, data, START, |data| + 1);
      hide Walk;
      FindIsTheLoop(Trapping, data, |data| + 1);
    } else {
      BuildsAgree(Trapping, data);
    }
  }

  lemma {:induction false} WrappingNeverTraps(data: bytes, at: At, n: nat)
    ensures Walk(Wrapping, data, at, n) != Trap
    decreases n
  {
    if n > 0 && Step(Wrapping, data, at).Go? { WrappingNeverTraps(data, Step(Wrapping, data, at).at, n - 1); }
  }

  // ---- when a counter gives out ----

  /** Both builds reach the first token that exhausts a counter, after the same turns. */
  ghost predicate Exhausted(data: bytes, n: nat, at: At) {
    && at.pos < |data| && Exceeds(data[at.pos..], at.pos, at.depth)
    && Visits(Trapping, data, n, at) && Visits(Wrapping, data, n, at)
  }

  /** A scan that overflows does so at this token, or after it, where both builds go next. */
  lemma OverflowsNowOrLater(data: bytes, at: At)
    requires |data| < U64_LIMIT && at.pos <= |data| && Fits32(at.depth)
    requires Scan(data[at.pos..], at.pos, at.depth) == Overflows
    ensures at.pos < |data|
    ensures var s := data[at.pos..];
      !Exceeds(s, at.pos, at.depth) ==>
        var next := At(at.pos + TokenSize(s), at.depth + Change(s[0]));
        && at.pos < next.pos <= |data| && Fits32(next.depth)
        && Scan(data[next.pos..], next.pos, next.depth) == Overflows
        && Step(Trapping, data, at) == Go(next) == Step(Wrapping, data, at)
  {
    var s := data[at.pos..];
    ScanToken(s, at.pos, at.depth);
    if at.pos == |data| { EmptyHasNoToken(s); }
    hide Scan, Walk, Step, Exceeds, Opens, Change, TokenSize;
    StepByToken(Trapping, data, at);
    StepByToken(Wrapping, data, at);
    if !Exceeds(s, at.pos, at.depth) {
      assert s[TokenSize(s)..] == data[at.pos + TokenSize(s)..];
    }
  }

  lemma {:induction false} WalkReaches(data: bytes, at: At) returns (n: nat, there: At)
    requires |data| < U64_LIMIT && at.pos <= |data| && Fits32(at.depth)
    requires Scan(data[at.pos..], at.pos, at.depth) == Overflows
    ensures there.pos < |data| && Exceeds(data[there.pos..], there.pos, there.depth)
    ensures Walk(Trapping, data, at, n) == Go(there) == Walk(Wrapping, data, at, n)
    decreases |data| - at.pos
  {
    hide *;
    OverflowsNowOrLater(data, at);
    if Exceeds(data[at.pos..], at.pos, at.depth) {
      n, there := 0, at;
      WalkDone(Trapping, data, at);
      WalkDone(Wrapping, data, at);
    } else {
      var next := Step(Trapping, data, at).at;
      n, there := WalkReaches(data, next);
      n := n + 1;
      WalkOnce(Trapping, data, at, n);
      WalkOnce(Wrapping, data, at, n);
    }
  }

  /**
   * When a token that exhausts a counter is reached, a trapping build traps
   * there; a wrapping one goes on from the wrapped place as if nothing had
   * happened, and what it comes to is what that place leads to.
   */
  lemma ExhaustedGoesOn(data: bytes) returns (n: nat, at: At)
    requires |data| < U64_LIMIT && Reaches(Counter, data, 0, 0)
    ensures Exhausted(data, n, at)
    ensures Step(Trapping, data, at) == Trap
    ensures var s := data[at.pos..];
      Step(Wrapping, data, at) == Arrive(Wrapping, At(at.pos + TokenSize(s), at.depth + Change(s[0])), !Opens(s[0]))
    ensures forall m: nat :: Walk(Wrapping, data, START, n + m) == Walk(Wrapping, data, at, m)
  {
    OverflowsIffReached(data, 0, 0);
    assert data[0..] == data;
    n, at := WalkReaches(data, START);
    hide Scan, Reaches, Walk, Exceeds;
    PlacesFits32(Wrapping, data, n);
    StepByToken(Trapping, data, at);
    StepByToken(Wrapping, data, at);
    TokenOfExceeding(data[at.pos..], at.pos, at.depth);
    forall m: nat ensures Walk(Wrapping, data, START, n + m) == Walk(Wrapping, data, at, m) {
      WalkOn(Wrapping, data, START, n, m);
    }
  }

  lemma TokenOfExceeding(s: bytes, base: nat, depth: int)
    requires Exceeds(s, base, depth)
    ensures TokenSize(s) > 0
  {
    hide FindByte, Numeral;
  }

  // ---- answers past the end ----

  /** At this place a string outside every container takes the loop past the data, wrapped or not. */
  predicate Oversteps(build: Build, data: bytes, at: At) {
    && at.pos < |data| && at.depth == 0
    && var declared := Declared(data[at.pos..]);
       && declared.Some? && (build.Trapping? ==> at.pos + declared.value < U64_LIMIT)
       && (at.pos + declared.value) % U64_LIMIT > |data|
  }

  lemma OverstepsIff(build: Build, data: bytes, at: At)
    requires Fits32(at.depth)
    ensures var m := Step(build, data, at);
      Oversteps(build, data, at) <==> m.Stop? && m.end.Some? && m.end.value > |data|
  {
    hide FindByte, Numeral;
    if at.pos < |data| {
      var s := data[at.pos..];
      if Declared(s).None? { ShortTokens(s); }
    }
  }

  /** Any token but a string ends inside the data. */
  lemma ShortTokens(s: bytes)
    requires Declared(s).None?
    ensures TokenSize(s) <= |s|
  {
  }

  lemma {:induction false} StopsAtAStep(build: Build, data: bytes, at: At, n: nat) returns (i: nat, place: At)
    requires !Walk(build, data, at, n).Go?
    ensures Walk(build, data, at, i) == Go(place) && Step(build, data, place) == Walk(build, data, at, n)
    decreases n
  {
    hide Step;
    match Step(build, data, at)
    case Go(next) =>
      i, place := StopsAtAStep(build, data, next, n - 1);
      i := i + 1;
    case _ =>
      i, place := 0, at;
  }

  /** In either build, the answer is past the end exactly when the loop comes to such a place. */
  lemma PastTheEndIff(build: Build, data: bytes)
    ensures Find(build, data).Ended? && Find(build, data).end.Some? && Find(build, data).end.value > |data|
       <==> exists n: nat, at: At :: Visits(build, data, n, at) && Oversteps(build, data, at)
  {
    var r := Find(build, data);
    hide Oversteps, Step, Bound;
    if r.Ended? && r.end.Some? && r.end.value > |data| {
      var n, at := StopsAtAStep(build, data, START, Bound(data));
      PlacesFits32(build, data, n);
      OverstepsIff(build, data, at);
      assert Visits(build, data, n, at);
    }
    if exists n: nat, at: At :: Visits(build, data, n, at) && Oversteps(build, data, at) {
      var n: nat, at: At :| Visits(build, data, n, at) && Oversteps(build, data, at);
      hide Walk, Find;
      PlacesFits32(build, data, n);
      OverstepsIff(build, data, at);
      WalkOn(build, data, START, n, 1);
      WalkOnce(build, data, at, 1);
      FindIsTheLoop(build, data, n + 1);
    }
  }

  // ---- traps ----

  /** At this place a token takes one of the counters out of its range. */
  predicate Exhausts(data: bytes, at: At) {
    && at.pos < |data|
    && var s := data[at.pos..];
       && TokenSize(s) > 0
       && (at.pos + TokenSize(s) >= U64_LIMIT || !Fits32(at.depth + Change(s[0])))
  }

  lemma TrapIff(build: Build, data: bytes, at: At)
    ensures Step(build, data, at) == Trap <==> build.Trapping? && Exhausts(data, at)
  {
    StepIs(build, data, at);
    hide Step, TokenSize, Change, Opens;
  }

  /** A scan traps exactly when the build does and the loop comes to such a place. */
  lemma TrappedIff(build: Build, data: bytes)
    ensures Find(build, data) == Trapped
       <==> build.Trapping? && exists n: nat, at: At :: Visits(build, data, n, at) && Exhausts(data, at)
  {
    hide Exhausts, Step, Bound;
    if Find(build, data) == Trapped {
      var n, at := StopsAtAStep(build, data, START, Bound(data));
      TrapIff(build, data, at);
      assert Visits(build, data, n, at);
    }
    if build.Trapping? && exists n: nat, at: At :: Visits(build, data, n, at) && Exhausts(data, at) {
      var n: nat, at: At :| Visits(build, data, n, at) && Exhausts(data, at);
      hide Walk, Find;
      TrapIff(build, data, at);
      WalkOn(build, data, START, n, 1);
      WalkOnce(build, data, at, 1);
      FindIsTheLoop(build, data, n + 1);
    }
  }

  // ---- two texts ----

  lemma DeclaredLength(n: nat, rest: bytes)
    requires n < U64_LIMIT
    ensures var s := Decimal(n) + [COLON] + rest;
      Declared(s) == Some(|Decimal(n)| + 1 + n) && TokenSize(s) == |Decimal(n)| + 1 + n
      && s != [] && Change(s[0]) == 0 && !Opens(s[0])
  {
    var ds := Decimal(n);
    var s := ds + [COLON] + rest;
    DecimalRoundTrip(n);
    assert s[|ds|] == COLON && s[..|ds|] == ds;
    forall j | 0 <= j < |ds| ensures s[j] != COLON && s[0] == ds[0] { assert s[j] == ds[j]; }
    hide Decimal, Numeral;
    FoundAt(s, COLON, |ds|);
    assert IsDigit(ds[0]);
  }

  /** A length that takes the loop back to where it was declared, two bytes into a text. */
  const BACK: nat := 18446744073709551595

  /** `l18446744073709551595:` */
  const LOOPING: bytes := [LETTER_L] + (Decimal(BACK) + [COLON])

  lemma OpeningStep(build: Build, data: bytes)
    requires data != [] && data[0] == LETTER_L
    ensures Walk(build, data, START, 1) == Go(At(1, 1))
  {
    assert data[0..] == data;
  }

  /** Stepping over a string that takes the position out of range. */
  lemma StringWraps(build: Build, data: bytes, at: At)
    requires at.pos < |data| && Fits32(at.depth)
    requires var s := data[at.pos..];
      Change(s[0]) == 0 && !Opens(s[0]) && U64_LIMIT <= at.pos + TokenSize(s) < 2 * U64_LIMIT && TokenSize(s) > 0
    ensures var pos := at.pos + TokenSize(data[at.pos..]) - U64_LIMIT;
      Step(build, data, at) ==
        if build.Trapping? then Trap else if at.depth == 0 then Stop(Some(pos)) else Go(At(pos, at.depth))
  {
    StepIs(build, data, at);
    hide Step, TokenSize, Change, Opens;
  }

  lemma LoopingStep(build: Build)
    ensures LOOPING[0] == LETTER_L
    ensures Step(build, LOOPING, At(1, 1)) == if build.Trapping? then Trap else Go(At(1, 1))
  {
    LongDecimal(BACK);
    DeclaredLength(BACK, []);
    assert LOOPING[1..] == Decimal(BACK) + [COLON] + [];
    assert |LOOPING| == 22 && Fits32(1);
    hide *;
    StringWraps(build, LOOPING, At(1, 1));
  }

  /** A wrapping build never gets past this text; a trapping one traps. */
  lemma LoopingNeverEnds()
    ensures Find(Wrapping, LOOPING) == Forever && Find(Trapping, LOOPING) == Trapped
  {
    var back := At(1, 1);
    forall build ensures Walk(build, LOOPING, START, 2) == if build.Trapping? then Trap else Go(back) {
      LoopingStep(build);
      OpeningStep(build, LOOPING);
      hide Step, LOOPING, Walk;
      WalkOn(build, LOOPING, START, 1, 1);
      WalkOnce(build, LOOPING, back, 1);
      WalkDone(build, LOOPING, back);
    }
    LoopingStep(Wrapping);
    OpeningStep(Wrapping, LOOPING);
    hide Walk, LOOPING;
    assert Visits(Wrapping, LOOPING, 1, back) && Visits(Wrapping, LOOPING, 2, back);
    FindForeverIff(Wrapping, LOOPING);
    FindIsTheLoop(Trapping, LOOPING, 2);
  }

  const LARGEST: nat := 18446744073709551615

  /** `18446744073709551615:` */
  const RETURNING: bytes := Decimal(LARGEST) + [COLON]

  lemma ReturningStep(build: Build)
    ensures Walk(build, RETURNING, START, 1) == if build.Trapping? then Trap else Stop(Some(20))
  {
    LongDecimal(LARGEST);
    DeclaredLength(LARGEST, []);
    assert RETURNING == Decimal(LARGEST) + [COLON] + [] == RETURNING[0..];
    assert START == At(0, 0) && Fits32(0) && |RETURNING| == 21;
    hide *;
    StringWraps(build, RETURNING, At(0, 0));
    WalkOnce(build, RETURNING, START, 1);
  }

  /** Here a wrapping build is taken back to the colon, and answers with the digits alone. */
  lemma ReturningEndsEarly()
    ensures Find(Wrapping, RETURNING) == Ended(Some(20)) && Find(Trapping, RETURNING) == Trapped
    ensures |RETURNING| == 21 && RETURNING[..20] == Decimal(LARGEST)
  {
    LongDecimal(LARGEST);
    ReturningStep(Wrapping);
    ReturningStep(Trapping);
    FindIsTheLoop(Wrapping, RETURNING, 1);
    FindIsTheLoop(Trapping, RETURNING, 1);
    hide Decimal, Walk, Find;
  }
}
