/**
 * What the depth-counting scanner makes of a text, as long as its counters hold.
 * It shares nothing with the parser, yet must agree with it. Scanning.dfy has
 * the loop itself, and what becomes of it when a counter does not hold.
 */
module Scanner {
  import opened Basics
  import opened Numbers
  import opened Bencode

  const I32_MAX: int := 0x7FFF_FFFF

  /** `Overflows`: the depth would leave 32 bits, or the position 64. */
  datatype ScanResult = End(pos: nat) | NoEnd | Overflows

  /** The first position that holds b, or the length. */
  function FindByte(s: bytes, b: byte): (i: nat)
    ensures i <= |s| && (i < |s| ==> s[i] == b)
    ensures forall j | 0 <= j < i :: s[j] != b
  {
    if s == [] || s[0] == b then 0 else 1 + FindByte(s[1..], b)
  }

  /**
   * The scanner's answer when `s` is still to be read, `base` bytes have been,
   * and `depth` containers are open.
   */
  function Scan(s: bytes, base: nat, depth: int): ScanResult
    decreases |s|, 0
  {
    if s == [] then NoEnd
    else if s[0] == LETTER_D || s[0] == LETTER_L then
      if depth + 1 > I32_MAX then Overflows else Scan(s[1..], base + 1, depth + 1)
    else if s[0] == LETTER_I then
      var e := FindByte(s, LETTER_E);
      if e >= |s| then NoEnd else AfterToken(s, e + 1, base, depth)
    else if s[0] == LETTER_E then
      if depth - 1 < -I32_MAX - 1 then Overflows else AfterToken(s, 1, base, depth - 1)
    else if IsDigit(s[0]) then
      var c := FindByte(s, COLON);
      if c >= |s| then NoEnd
      else if !AllDigits(s[..c]) || Numeral(s[..c]) >= U64_LIMIT then NoEnd
      else if base + c + 1 + Numeral(s[..c]) >= U64_LIMIT then Overflows
      else AfterToken(s, c + 1 + Numeral(s[..c]), base, depth)
    else NoEnd
  }

  /** After a token of k bytes: stop at depth 0, even past the end of the data. */
  function AfterToken(s: bytes, k: nat, base: nat, depth: int): ScanResult
    requires k > 0 && s != []
    decreases |s|, 0, 0
  {
    if depth == 0 then End(base + k)
    else if k > |s| then NoEnd
    else Scan(s[k..], base + k, depth)
  }

  // ---- agreement with the parser ----

  function Max(a: nat, b: nat): nat { if a >= b then a else b }

  /**
   * How many lists and dictionaries the parser is inside of at once while it reads
   * the value at the head of s, whether or not it succeeds: the depth of its
   * calls, and, when it does succeed, of the value.
   */
  function Nesting(s: bytes): nat
    decreases |s|, 0
  {
    if s == [] then 0
    else if s[0] == LETTER_L then 1 + ItemNesting(s[1..])
    else if s[0] == LETTER_D then 1 + PairNesting(s[1..])
    else 0
  }

  function ItemNesting(s: bytes): nat
    decreases |s|, 1
  {
    if s == [] || s[0] == LETTER_E then 0
    else
      match ParseValue(s)
      case None => Nesting(s)
      case Some((_, n)) => Max(Nesting(s), ItemNesting(s[n..]))
  }

  function PairNesting(s: bytes): nat
    decreases |s|, 1
  {
    if s == [] || s[0] == LETTER_E then 0
    else
      match ParseBytes(s)
      case None => 0
      case Some((_, k)) =>
        match ParseValue(s[k..])
        case None => Nesting(s[k..])
        case Some((_, n)) => Max(Nesting(s[k..]), PairNesting(s[k + n..]))
  }

  lemma FoundAt(s: bytes, b: byte, i: nat)
    requires i < |s| && s[i] == b && forall j | 0 <= j < i :: s[j] != b
    ensures FindByte(s, b) == i
  {
    var k := FindByte(s, b);
    if k < i { assert false; } else if i < k { assert false; }
  }

  lemma ScanBytes(s: bytes, base: nat, depth: int)
    requires ParseBytes(s).Some? && base + |s| < U64_LIMIT
    ensures Scan(s, base, depth) == AfterToken(s, ParseBytes(s).value.1, base, depth)
  {
    var n := DigitRun(s);
    assert forall i | 0 <= i < n :: s[i] == s[..n][i];
    FoundAt(s, COLON, n);
  }

  lemma ScanInteger(s: bytes, base: nat, depth: int)
    requires ParseInteger(s).Some?
    ensures Scan(s, base, depth) == AfterToken(s, ParseInteger(s).value.1, base, depth)
  {
    var end := ParseInteger(s).value.1;
    var sign := if s[1] == PLUS || s[1] == MINUS then 1 else 0;
    var run := s[1 + sign..];
    forall j | 0 <= j < end - 1 ensures s[j] != LETTER_E {
      if j >= 1 + sign {
        assert s[j] == run[j - 1 - sign] == run[..DigitRun(run)][j - 1 - sign];
      }
    }
    FoundAt(s, LETTER_E, end - 1);
  }

  lemma ScanClosing(s: bytes, base: nat, depth: int)
    requires s != [] && s[0] == LETTER_E && 1 <= depth
    ensures Scan(s, base, depth) == AfterToken(s, 1, base, depth - 1)
  {
  }

  /** Scanning a parsable value leads to just after it, unless the depth counter gives out. */
  lemma {:induction false} ScanValue(s: bytes, base: nat, depth: int)
    requires ParseValue(s).Some? && base + |s| < U64_LIMIT && 0 <= depth <= I32_MAX
    ensures Scan(s, base, depth) ==
      if depth + Nesting(s) <= I32_MAX then AfterToken(s, ParseValue(s).value.1, base, depth) else Overflows
    decreases |s|, 0
  {
    hide ParseBytes, ParseInteger, ParseItems, ParsePairs, ItemNesting, PairNesting;
    if IsDigit(s[0]) {
      ScanBytes(s, base, depth);
    } else if s[0] == LETTER_I {
      ScanInteger(s, base, depth);
    } else if depth < I32_MAX {
      assert forall k: nat | k < |s| :: s[1..][k..] == s[1 + k..];
      if s[0] == LETTER_L { ScanItems(s[1..], base + 1, depth + 1); } else { ScanPairs(s[1..], base + 1, depth + 1); }
    }
  }

  lemma {:induction false} ScanItems(s: bytes, base: nat, depth: int)
    requires ParseItems(s).Some? && base + |s| < U64_LIMIT && 1 <= depth <= I32_MAX
    ensures Scan(s, base, depth) ==
      if depth + ItemNesting(s) <= I32_MAX then AfterToken(s, ParseItems(s).value.1, base, depth - 1) else Overflows
    decreases |s|, 1
  {
    hide Scan, ParseValue, Nesting;
    if s[0] == LETTER_E {
      ScanClosing(s, base, depth);
    } else {
      var n := ParseValue(s).value.1;
      ScanValue(s, base, depth);
      ScanItems(s[n..], base + n, depth);
      assert forall k: nat | n + k <= |s| :: s[n..][k..] == s[n + k..];
    }
  }

  lemma ParsedPairNesting(s: bytes)
    requires ParsePairs(s).Some?
    ensures s[0] == LETTER_E ==> PairNesting(s) == 0
    ensures s[0] != LETTER_E ==>
      && ParsePair(s).Some?
      && PairNesting(s) == Max(Nesting(s[ParseBytes(s).value.1..]), PairNesting(s[ParsePair(s).value.1..]))
  {
    hide ParseValue, ParseBytes, Nesting;
  }

  lemma ScanPair(s: bytes, base: nat, depth: int)
    requires ParsePair(s).Some? && base + |s| < U64_LIMIT && 1 <= depth <= I32_MAX
    ensures Scan(s, base, depth) ==
      if depth + Nesting(s[ParseBytes(s).value.1..]) <= I32_MAX
      then AfterToken(s, ParsePair(s).value.1, base, depth) else Overflows
    decreases |s|, 1
  {
    hide Scan, ParseValue, Nesting, ParseBytes;
    var n := ParseBytes(s).value.1;
    ScanBytes(s, base, depth);
    ScanValue(s[n..], base + n, depth);
    assert s[n..][ParseValue(s[n..]).value.1..] == s[ParsePair(s).value.1..];
  }

  lemma {:induction false} ScanPairs(s: bytes, base: nat, depth: int)
    requires ParsePairs(s).Some? && base + |s| < U64_LIMIT && 1 <= depth <= I32_MAX
    ensures Scan(s, base, depth) ==
      if depth + PairNesting(s) <= I32_MAX then AfterToken(s, ParsePairs(s).value.1, base, depth - 1) else Overflows
    decreases |s|, 2
  {
    hide Scan, Nesting, PairNesting, ParsePair, ParseBytes;
    ParsedPairNesting(s);
    if s[0] == LETTER_E {
      ScanClosing(s, base, depth);
    } else {
      var n := ParsePair(s).value.1;
      ScanPair(s, base, depth);
      ScanPairs(s[n..], base + n, depth);
      assert forall k: nat | n + k <= |s| :: s[n..][k..] == s[n + k..];
    }
  }

  /**
   * The scanner agrees with the parser on everything the parser accepts, with
   * any bytes following: same end, exactly when the nesting fits its counter.
   */
  lemma ScannerAgreesWithParser(s: bytes)
    requires |s| < U64_LIMIT && ParseValue(s).Some?
    ensures Scan(s, 0, 0) == End(ParseValue(s).value.1) <==> Nesting(s) <= I32_MAX
    ensures Scan(s, 0, 0) == Overflows <==> Nesting(s) > I32_MAX
  {
    ScanValue(s, 0, 0);
  }

  /** Each level of nesting takes an opening and a closing byte. */
  lemma {:induction false} NestingTakesTwoBytes(s: bytes)
    requires ParseValue(s).Some?
    ensures 2 * Nesting(s) <= ParseValue(s).value.1
    decreases |s|, 0
  {
    if s[0] == LETTER_L { ItemNestingTakesTwoBytes(s[1..]); }
    if s[0] == LETTER_D { PairNestingTakesTwoBytes(s[1..]); }
  }

  lemma {:induction false} ItemNestingTakesTwoBytes(s: bytes)
    requires ParseItems(s).Some?
    ensures 2 * ItemNesting(s) + 1 <= ParseItems(s).value.1
    decreases |s|, 1
  {
    hide ParseValue, Nesting;
    if s[0] != LETTER_E {
      NestingTakesTwoBytes(s);
      ItemNestingTakesTwoBytes(s[ParseValue(s).value.1..]);
    }
  }

  lemma {:induction false} PairNestingTakesTwoBytes(s: bytes)
    requires ParsePairs(s).Some?
    ensures 2 * PairNesting(s) + 1 <= ParsePairs(s).value.1
    decreases |s|, 1
  {
    hide ParseValue, ParseBytes, Nesting;
    if s[0] != LETTER_E {
      NestingTakesTwoBytes(s[ParseBytes(s).value.1..]);
      PairNestingTakesTwoBytes(s[ParsePair(s).value.1..]);
    }
  }

  // ---- how deep the parser's calls go ----

  /** Never deeper than the text is long. */
  lemma {:induction false} NestingWithinText(s: bytes)
    ensures Nesting(s) <= |s|
    decreases |s|, 0
  {
    if s != [] && s[0] == LETTER_L { ItemNestingWithinText(s[1..]); }
    if s != [] && s[0] == LETTER_D { PairNestingWithinText(s[1..]); }
  }

  lemma {:induction false} ItemNestingWithinText(s: bytes)
    ensures ItemNesting(s) <= |s|
    decreases |s|, 1
  {
    hide ParseValue, Nesting;
    if s != [] && s[0] != LETTER_E {
      NestingWithinText(s);
      if ParseValue(s).Some? { ItemNestingWithinText(s[ParseValue(s).value.1..]); }
    }
  }

  lemma {:induction false} PairNestingWithinText(s: bytes)
    ensures PairNesting(s) <= |s|
    decreases |s|, 1
  {
    hide ParseValue, ParseBytes, Nesting;
    if s != [] && s[0] != LETTER_E && ParseBytes(s).Some? {
      var k := ParseBytes(s).value.1;
      NestingWithinText(s[k..]);
      if ParseValue(s[k..]).Some? { PairNestingWithinText(s[k + ParseValue(s[k..]).value.1..]); }
    }
  }

  /** And as deep as that on a text of opening bytes alone, which it then turns down. */
  lemma {:induction false} OpeningsNest(n: nat)
    ensures var s := Repeat(n, LETTER_L); Nesting(s) == |s| == n && ParseValue(s).None?
  {
    if n > 0 {
      OpeningsNest(n - 1);
      assert Repeat(n, LETTER_L)[1..] == Repeat(n - 1, LETTER_L);
    }
  }

  /**
   * Any value shorter than 4 GiB is found whole, so every value a peer message
   * can carry: its nesting cannot exhaust the counter.
   */
  lemma ScannerFindsParsedValue(s: bytes)
    requires |s| < U64_LIMIT && ParseValue(s).Some? && ParseValue(s).value.1 < U32_LIMIT
    ensures Scan(s, 0, 0) == End(ParseValue(s).value.1)
  {
    NestingTakesTwoBytes(s);
    ScannerAgreesWithParser(s);
  }

  // ---- what the scanner passes ----

  predicate Opens(b: byte) { b == LETTER_D || b == LETTER_L }

  /** How a token moves the depth. */
  function Change(b: byte): int { if Opens(b) then 1 else if b == LETTER_E then -1 else 0 }

  /** The length declared by a string token, if its digits and colon are well formed. */
  function Declared(s: bytes): Option<nat> {
    if s == [] || !IsDigit(s[0]) then None
    else
      var c := FindByte(s, COLON);
      if c >= |s| || !AllDigits(s[..c]) || Numeral(s[..c]) >= U64_LIMIT then None
      else Some(c + 1 + Numeral(s[..c]))
  }

  /** The size of the token at the head of s, which may run past its end; 0 if there is none. */
  function TokenSize(s: bytes): nat {
    if s == [] then 0
    else if Opens(s[0]) || s[0] == LETTER_E then 1
    else if s[0] == LETTER_I then
      var e := FindByte(s, LETTER_E);
      if e >= |s| then 0 else e + 1
    else if Declared(s).Some? then Declared(s).value
    else 0
  }

  /** The first k bytes are whole tokens, and the scan stops after none of them. */
  predicate Passes(s: bytes, k: nat, depth: int)
    decreases k
  {
    k == 0 ||
    (var n := TokenSize(s);
     && 0 < n <= k && n <= |s|
     && (Opens(s[0]) || depth + Change(s[0]) != 0)
     && Passes(s[n..], k - n, depth + Change(s[0])))
  }

  /** The depth after the tokens in the first k bytes. */
  function DepthAfter(s: bytes, k: nat, depth: int): int
    decreases k
  {
    var n := TokenSize(s);
    if k == 0 || n == 0 || n > k || n > |s| then depth
    else DepthAfter(s[n..], k - n, depth + Change(s[0]))
  }

  /** The next token leaves a counter's range. */
  predicate Exceeds(s: bytes, base: nat, depth: int) {
    && s != []
    && (|| (Opens(s[0]) && depth >= I32_MAX)
        || (s[0] == LETTER_E && depth <= -I32_MAX - 1)
        || (Declared(s).Some? && base + Declared(s).value >= U64_LIMIT))
  }

  /** The next token is a string, outside every container, declared longer than what is left. */
  predicate Overdeclares(s: bytes, depth: int) {
    depth == 0 && Declared(s).Some? && Declared(s).value > |s|
  }

  /** What a token does to the scan: it exhausts a counter, or is answered past the end. */
  datatype Trouble = Counter | Length

  predicate Troubles(t: Trouble, s: bytes, base: nat, depth: int) {
    match t
    case Counter => Exceeds(s, base, depth)
    case Length => Overdeclares(s, depth)
  }

  /** Some token that makes this trouble is reached past others. */
  ghost predicate Reaches(t: Trouble, s: bytes, base: nat, depth: int) {
    exists k: nat :: k <= |s| && Passes(s, k, depth) && Troubles(t, s[k..], base + k, DepthAfter(s, k, depth))
  }

  lemma ReachesNow(t: Trouble, s: bytes, base: nat, depth: int)
    requires Troubles(t, s, base, depth)
    ensures Reaches(t, s, base, depth)
  {
    assert s[0..] == s && Passes(s, 0, depth);
  }

  /** Looking one token further. */
  lemma ReachesLater(t: Trouble, s: bytes, base: nat, depth: int)
    requires !Troubles(t, s, base, depth)
    ensures var n := TokenSize(s);
      Reaches(t, s, base, depth) <==>
        0 < n <= |s| && (Opens(s[0]) || depth + Change(s[0]) != 0)
        && Reaches(t, s[n..], base + n, depth + Change(s[0]))
  {
    hide TokenSize, Troubles, Change;
    var n := TokenSize(s);
    var d := if s == [] then depth else depth + Change(s[0]);
    assert s[0..] == s;
    if Reaches(t, s, base, depth) {
      var k: nat :| k <= |s| && Passes(s, k, depth) && Troubles(t, s[k..], base + k, DepthAfter(s, k, depth));
      if k > 0 {
        assert s[n..][k - n..] == s[k..] && base + n + (k - n) == base + k;
        assert Passes(s[n..], k - n, d) && DepthAfter(s, k, depth) == DepthAfter(s[n..], k - n, d);
        assert Reaches(t, s[n..], base + n, d);
      }
    }
    if 0 < n <= |s| && (Opens(s[0]) || d != 0) && Reaches(t, s[n..], base + n, d) {
      var rest := s[n..];
      var k: nat :| k <= |rest| && Passes(rest, k, d) && Troubles(t, rest[k..], base + n + k, DepthAfter(rest, k, d));
      assert rest[k..] == s[n + k..];
      assert Passes(s, n + k, depth) && DepthAfter(s, n + k, depth) == DepthAfter(rest, k, d);
    }
  }

  /** A counter gives out exactly when a token that exhausts it is reached. */
  lemma {:induction false} OverflowsIffReached(s: bytes, base: nat, depth: int)
    ensures Scan(s, base, depth) == Overflows <==> Reaches(Counter, s, base, depth)
    decreases |s|
  {
    hide FindByte, Numeral, Reaches, Passes, DepthAfter;
    if Exceeds(s, base, depth) {
      ReachesNow(Counter, s, base, depth);
    } else {
      ReachesLater(Counter, s, base, depth);
      var n := TokenSize(s);
      if 0 < n <= |s| { OverflowsIffReached(s[n..], base + n, depth + Change(s[0])); }
    }
  }

  /** The answer is past the end exactly when an overdeclared string is reached, and no counter gives out. */
  lemma {:induction false} PastTheEndIffReached(s: bytes, base: nat, depth: int)
    ensures Scan(s, base, depth).End? && Scan(s, base, depth).pos > base + |s|
       <==> Reaches(Length, s, base, depth) && !Reaches(Counter, s, base, depth)
    decreases |s|
  {
    hide FindByte, Numeral, Reaches, Passes, DepthAfter;
    if Exceeds(s, base, depth) {
      ReachesNow(Counter, s, base, depth);
    } else {
      ReachesLater(Counter, s, base, depth);
      if Overdeclares(s, depth) { ReachesNow(Length, s, base, depth); } else { ReachesLater(Length, s, base, depth); }
      var n := TokenSize(s);
      if 0 < n <= |s| { PastTheEndIffReached(s[n..], base + n, depth + Change(s[0])); }
    }
  }

  /** Inside a container the scanner never answers past the end. */
  lemma {:induction false} ContainerStaysInBounds(s: bytes, base: nat, depth: int)
    requires depth >= 1
    ensures Scan(s, base, depth).End? ==> Scan(s, base, depth).pos <= base + |s|
    decreases |s|
  {
    hide FindByte, Numeral;
    if s != [] {
      if s[0] == LETTER_D || s[0] == LETTER_L {
        ContainerStaysInBounds(s[1..], base + 1, depth + 1);
      } else if s[0] == LETTER_I {
        var k := FindByte(s, LETTER_E) + 1;
        if k <= |s| { ContainerStaysInBounds(s[k..], base + k, depth); }
      } else if s[0] == LETTER_E {
        if depth > 1 { ContainerStaysInBounds(s[1..], base + 1, depth - 1); }
      } else if IsDigit(s[0]) {
        var c := FindByte(s, COLON);
        if c < |s| && AllDigits(s[..c]) {
          var k := c + 1 + Numeral(s[..c]);
          if k <= |s| { ContainerStaysInBounds(s[k..], base + k, depth); }
        }
      }
    }
  }

  /**
   * By first byte: only a text that begins with a string or with a stray closing
   * byte can be answered past its end.
   */
  lemma OthersStayInBounds(s: bytes)
    requires s == [] || (!IsDigit(s[0]) && s[0] != LETTER_E)
    ensures Scan(s, 0, 0).End? ==> Scan(s, 0, 0).pos <= |s|
  {
    if s != [] && Opens(s[0]) { ContainerStaysInBounds(s[1..], 1, 1); }
  }
}
