/** The bencode parser (BEP 3, section "bencoding"). */
module Bencode {
  import opened Basics
  import opened Numbers

  const LETTER_D: byte := 100
  const LETTER_E: byte := 101
  const LETTER_I: byte := 105
  const LETTER_L: byte := 108
  const COLON: byte := 58

  /**
   * A parsed value. A dictionary keeps the bytes it was parsed from; the hash
   * the parser stores beside them is SHA-1 of `raw`.
   */
  datatype Value =
    | Bytes(data: bytes)
    | Integer(n: int)
    | List(items: seq<Value>)
    | Dictionary(entries: map<bytes, Value>, raw: bytes)

  /** Length of the run of digits at the head of s. */
  function DigitRun(s: bytes): (n: nat)
    ensures n <= |s| && AllDigits(s[..n])
    ensures n < |s| ==> !IsDigit(s[n])
  {
    if s == [] || !IsDigit(s[0]) then 0
    else
      var n := DigitRun(s[1..]);
      assert forall i | 0 < i < 1 + n :: s[i] == s[1..][i - 1];
      1 + n
  }

  /** `i`, an optional sign, digits without a redundant zero, `e`; within 64 bits. */
  function ParseInteger(s: bytes): (r: Option<(int, nat)>)
    ensures r.Some? ==> 2 < r.value.1 <= |s|
  {
    if s == [] || s[0] != LETTER_I then None
    else
      var sign := if |s| > 1 && (s[1] == PLUS || s[1] == MINUS) then 1 else 0;
      var n := DigitRun(s[1 + sign..]);
      var end := 1 + sign + n;
      if n == 0 || end >= |s| || s[end] != LETTER_E then None
      else
        var text := s[1..end];
        if (|text| > 1 && text[0] == MINUS && text[1] == ZERO) || (|text| > 1 && text[0] == ZERO) then None
        else
          var size := Numeral(s[1 + sign..][..n]);
          var value: int := if s[1] == MINUS then -(size as int) else size;
          if -I64_MAX - 1 <= value <= I64_MAX then Some((value, end + 1)) else None
  }

  /** A length in digits, `:`, and that many bytes. */
  function ParseBytes(s: bytes): (r: Option<(bytes, nat)>)
    ensures r.Some? ==> 1 < r.value.1 <= |s|
  {
    var n := DigitRun(s);
    if n == 0 || n >= |s| || s[n] != COLON then None
    else
      var len := Numeral(s[..n]);
      if len >= U64_LIMIT || n + 1 + len > |s| then None
      else Some((s[n + 1..n + 1 + len], n + 1 + len))
  }

  /** A value and the number of bytes it takes; the first byte decides its kind. */
  function ParseValue(s: bytes): (r: Option<(Value, nat)>)
    ensures r.Some? ==> 0 < r.value.1 <= |s|
    decreases |s|, 0
  {
    if s == [] then None
    else if IsDigit(s[0]) then
      match ParseBytes(s)
      case None => None
      case Some((b, n)) => Some((Bytes(b), n))
    else if s[0] == LETTER_I then
      match ParseInteger(s)
      case None => None
      case Some((i, n)) => Some((Integer(i), n))
    else if s[0] == LETTER_L then
      match ParseItems(s[1..])
      case None => None
      case Some((vs, n)) => Some((List(vs), 1 + n))
    else if s[0] == LETTER_D then
      match ParsePairs(s[1..])
      case None => None
      case Some((ps, n)) => Some((Dictionary(Collect(ps), s[..1 + n]), 1 + n))
    else None
  }

  /** Values up to and including a closing `e`. */
  function ParseItems(s: bytes): (r: Option<(seq<Value>, nat)>)
    ensures r.Some? ==> 0 < r.value.1 <= |s|
    decreases |s|, 1
  {
    if s == [] then None
    else if s[0] == LETTER_E then Some(([], 1))
    else
      match ParseValue(s)
      case None => None
      case Some((v, n)) =>
        match ParseItems(s[n..])
        case None => None
        case Some((vs, m)) => Some(([v] + vs, n + m))
  }

  function ParsePair(s: bytes): (r: Option<((bytes, Value), nat)>)
    ensures r.Some? ==> 0 < r.value.1 <= |s|
    decreases |s|, 1
  {
    match ParseBytes(s)
    case None => None
    case Some((key, n)) =>
      match ParseValue(s[n..])
      case None => None
      case Some((v, m)) => Some(((key, v), n + m))
  }

  /** Key and value pairs up to and including a closing `e`; keys in any order. */
  function ParsePairs(s: bytes): (r: Option<(seq<(bytes, Value)>, nat)>)
    ensures r.Some? ==> 0 < r.value.1 <= |s|
    decreases |s|, 2
  {
    if s == [] then None
    else if s[0] == LETTER_E then Some(([], 1))
    else
      match ParsePair(s)
      case None => None
      case Some((p, n)) =>
        match ParsePairs(s[n..])
        case None => None
        case Some((ps, m)) => Some(([p] + ps, n + m))
  }

  /** Entries by key; the last of equal keys wins. */
  function Collect(ps: seq<(bytes, Value)>): map<bytes, Value> {
    if ps == [] then map[]
    else Collect(ps[..|ps| - 1])[ps[|ps| - 1].0 := ps[|ps| - 1].1]
  }

  /** A whole source: values to the end, nothing left over. */
  function Parse(s: bytes): Option<seq<Value>> {
    if s == [] then Some([])
    else
      match ParseValue(s)
      case None => None
      case Some((v, n)) =>
        match Parse(s[n..])
        case None => None
        case Some(vs) => Some([v] + vs)
  }

  // ---- prefix stability ----

  /** s and t agree on the first n bytes. */
  predicate Agree(s: bytes, t: bytes, n: nat) { n <= |s| && n <= |t| && s[..n] == t[..n] }

  lemma AgreeAfter(s: bytes, t: bytes, k: nat, n: nat)
    requires Agree(s, t, n) && k <= n
    ensures Agree(s[k..], t[k..], n - k)
    ensures Agree(s, t, k)
  {
    assert s[k..][..n - k] == s[..n][k..] && t[k..][..n - k] == t[..n][k..];
    assert s[..k] == s[..n][..k] && t[..k] == t[..n][..k];
  }

  lemma {:induction false} DigitRunStable(s: bytes, t: bytes)
    requires Agree(s, t, DigitRun(s) + 1)
    ensures DigitRun(t) == DigitRun(s)
  {
    assert s[0] == s[..DigitRun(s) + 1][0] && t[0] == t[..DigitRun(s) + 1][0];
    if IsDigit(s[0]) {
      AgreeAfter(s, t, 1, DigitRun(s) + 1);
      DigitRunStable(s[1..], t[1..]);
    }
  }

  lemma ParseBytesStable(s: bytes, t: bytes)
    requires ParseBytes(s).Some? && Agree(s, t, ParseBytes(s).value.1)
    ensures ParseBytes(t) == ParseBytes(s)
  {
    var end := ParseBytes(s).value.1;
    var n := DigitRun(s);
    assert s[..n + 1] == s[..end][..n + 1] == t[..end][..n + 1] == t[..n + 1];
    DigitRunStable(s, t);
    assert s[..n] == s[..end][..n] == t[..end][..n] == t[..n];
    assert s[n] == s[..end][n] == t[..end][n] == t[n];
    assert s[n + 1..end] == s[..end][n + 1..] == t[..end][n + 1..] == t[n + 1..end];
  }

  lemma ParseIntegerStable(s: bytes, t: bytes)
    requires ParseInteger(s).Some? && Agree(s, t, ParseInteger(s).value.1)
    ensures ParseInteger(t) == ParseInteger(s)
  {
    var end := ParseInteger(s).value.1;
    forall i | 0 <= i < end ensures s[i] == t[i] {
      assert s[..end][i] == t[..end][i];
    }
    var sign := if s[1] == PLUS || s[1] == MINUS then 1 else 0;
    AgreeAfter(s, t, 1 + sign, end);
    DigitRunStable(s[1 + sign..], t[1 + sign..]);
    assert s[1..end - 1] == t[1..end - 1];
    assert s[1 + sign..][..end - 2 - sign] == t[1 + sign..][..end - 2 - sign];
  }

  /** What is parsed depends only on the bytes consumed. */
  lemma {:induction false} ParseValueStable(s: bytes, t: bytes)
    requires ParseValue(s).Some? && Agree(s, t, ParseValue(s).value.1)
    ensures ParseValue(t) == ParseValue(s)
    decreases |s|, 0
  {
    hide ParseBytes, ParseInteger, ParseItems, ParsePairs;
    var n := ParseValue(s).value.1;
    assert s[0] == s[..n][0] == t[..n][0] == t[0];
    if IsDigit(s[0]) {
      ParseBytesStable(s, t);
    } else if s[0] == LETTER_I {
      ParseIntegerStable(s, t);
    } else {
      AgreeAfter(s, t, 1, n);
      if s[0] == LETTER_L { ParseItemsStable(s[1..], t[1..]); } else { ParsePairsStable(s[1..], t[1..]); }
    }
  }

  lemma {:induction false} ParseItemsStable(s: bytes, t: bytes)
    requires ParseItems(s).Some? && Agree(s, t, ParseItems(s).value.1)
    ensures ParseItems(t) == ParseItems(s)
    decreases |s|, 1
  {
    hide ParseValue;
    var end := ParseItems(s).value.1;
    assert s[0] == s[..end][0] == t[..end][0] == t[0];
    if s[0] != LETTER_E {
      var n := ParseValue(s).value.1;
      AgreeAfter(s, t, n, end);
      ParseValueStable(s, t);
      ParseItemsStable(s[n..], t[n..]);
    }
  }

  lemma {:induction false} ParsePairStable(s: bytes, t: bytes)
    requires ParsePair(s).Some? && Agree(s, t, ParsePair(s).value.1)
    ensures ParsePair(t) == ParsePair(s)
    decreases |s|, 1
  {
    hide ParseValue;
    var n := ParseBytes(s).value.1;
    var end := ParsePair(s).value.1;
    AgreeAfter(s, t, n, end);
    ParseBytesStable(s, t);
    ParseValueStable(s[n..], t[n..]);
  }

  lemma {:induction false} ParsePairsStable(s: bytes, t: bytes)
    requires ParsePairs(s).Some? && Agree(s, t, ParsePairs(s).value.1)
    ensures ParsePairs(t) == ParsePairs(s)
    decreases |s|, 2
  {
    hide ParsePair;
    var end := ParsePairs(s).value.1;
    assert s[0] == s[..end][0] == t[..end][0] == t[0];
    if s[0] != LETTER_E {
      var n := ParsePair(s).value.1;
      AgreeAfter(s, t, n, end);
      ParsePairStable(s, t);
      ParsePairsStable(s[n..], t[n..]);
    }
  }

  /** The same value comes out whatever bytes follow it. */
  lemma PrefixStability(s: bytes, rest: bytes)
    requires ParseValue(s).Some?
    ensures ParseValue(s[..ParseValue(s).value.1] + rest) == ParseValue(s)
  {
    var n := ParseValue(s).value.1;
    assert (s[..n] + rest)[..n] == s[..n];
    ParseValueStable(s, s[..n] + rest);
  }

  // ---- whole sources ----

  /** The part is one value and nothing else. */
  predicate ReadsWhole(part: bytes, v: Value) { ParseValue(part) == Some((v, |part|)) }

  /** s is cut into consecutive parts, one for each value in its place. */
  ghost predicate CutInto(s: bytes, parts: seq<bytes>, vs: seq<Value>) {
    && |parts| == |vs| && Flatten(parts) == s
    && forall i | 0 <= i < |vs| :: ReadsWhole(parts[i], vs[i])
  }

  lemma {:induction false} FlattenHead(parts: seq<bytes>)
    requires parts != []
    ensures Flatten(parts) == parts[0] + Flatten(parts[1..])
  {
    var n := |parts| - 1;
    if n == 0 {
      assert parts[..0] == [] && parts[1..] == [];
    } else {
      FlattenHead(parts[..n]);
      assert parts[1..][..n - 1] == parts[1..n] == parts[..n][1..];
    }
  }

  lemma {:induction false} ParsedParts(s: bytes) returns (parts: seq<bytes>)
    requires Parse(s).Some?
    ensures CutInto(s, parts, Parse(s).value)
  {
    hide ParseValue;
    if s == [] {
      parts := [];
    } else {
      var (v, n) := ParseValue(s).value;
      var rest := ParsedParts(s[n..]);
      parts := [s[..n]] + rest;
      FlattenHead(parts);
      ParseValueStable(s, s[..n]);
      assert parts[1..] == rest && s == s[..n] + s[n..];
    }
  }

  lemma {:induction false} PartsParse(s: bytes, parts: seq<bytes>, vs: seq<Value>)
    requires CutInto(s, parts, vs)
    ensures Parse(s) == Some(vs)
    decreases |parts|
  {
    if parts != [] {
      FlattenHead(parts);
      var rest := Flatten(parts[1..]);
      assert ReadsWhole(parts[0], vs[0]);
      ParseValueStable(parts[0], s);
      hide ParseValue;
      assert s[|parts[0]|..] == rest && vs == [vs[0]] + vs[1..];
      PartsParse(rest, parts[1..], vs[1..]);
    }
  }

  /** A source is accepted exactly when it is cut, to its end, into parts that are one value each. */
  lemma ParseIff(s: bytes, vs: seq<Value>)
    ensures Parse(s) == Some(vs) <==> exists parts :: CutInto(s, parts, vs)
  {
    hide Parse, CutInto;
    if Parse(s) == Some(vs) { var parts := ParsedParts(s); }
    if parts :| CutInto(s, parts, vs) { PartsParse(s, parts, vs); }
  }

  /** The bytes a value may begin with. */
  predicate MayBegin(b: byte) { IsDigit(b) || b == LETTER_I || b == LETTER_L || b == LETTER_D }

  /** Values followed by a byte no value begins with are rejected. */
  lemma {:induction false} LeftoverRejected(s: bytes, rest: bytes)
    requires Parse(s).Some? && rest != [] && !MayBegin(rest[0])
    ensures Parse(s + rest).None?
  {
    if s == [] {
      assert s + rest == rest;
    } else {
      var n := ParseValue(s).value.1;
      AgreeAfter(s, s + rest, 0, n);
      ParseValueStable(s, s + rest);
      hide ParseValue;
      assert (s + rest)[n..] == s[n..] + rest;
      LeftoverRejected(s[n..], rest);
    }
  }

  // ---- raw slices ----

  /** Every dictionary, at any depth, re-parses from its raw bytes to itself. */
  ghost predicate RawsReparse(v: Value) {
    match v
    case Bytes(_) => true
    case Integer(_) => true
    case List(items) => forall i | 0 <= i < |items| :: RawsReparse(items[i])
    case Dictionary(entries, raw) =>
      && ParseValue(raw) == Some((v, |raw|))
      && forall k | k in entries :: RawsReparse(entries[k])
  }

  lemma {:induction false} CollectedFromPairs(ps: seq<(bytes, Value)>)
    ensures forall k | k in Collect(ps) :: (k, Collect(ps)[k]) in ps
  {
    if ps != [] {
      CollectedFromPairs(ps[..|ps| - 1]);
      assert ps[|ps| - 1] in ps;
    }
  }

  /** A key that no later pair repeats keeps its value; a key no pair has is absent. */
  lemma {:induction false} CollectedLast(ps: seq<(bytes, Value)>, i: nat)
    requires i < |ps| && forall j | i < j < |ps| :: ps[j].0 != ps[i].0
    ensures ps[i].0 in Collect(ps) && Collect(ps)[ps[i].0] == ps[i].1
  {
    if i < |ps| - 1 { CollectedLast(ps[..|ps| - 1], i); }
  }

  lemma CollectedLacks(ps: seq<(bytes, Value)>, key: bytes)
    requires forall p | p in ps :: p.0 != key
    ensures key !in Collect(ps)
  {
    CollectedFromPairs(ps);
  }

  /** Earlier pairs yield to later ones. */
  lemma {:induction false} CollectHead(ps: seq<(bytes, Value)>)
    requires ps != []
    ensures Collect(ps) == map[ps[0].0 := ps[0].1] + Collect(ps[1..])
  {
    var n := |ps| - 1;
    if n == 0 {
      assert ps[..0] == [] && ps[1..] == [];
    } else {
      CollectHead(ps[..n]);
      assert ps[1..][..n - 1] == ps[1..n] == ps[..n][1..];
    }
  }

  lemma {:induction false} ParsedRawsReparse(s: bytes)
    requires ParseValue(s).Some?
    ensures RawsReparse(ParseValue(s).value.0)
    decreases |s|, 0
  {
    var (v, n) := ParseValue(s).value;
    if s[0] == LETTER_L {
      ItemRawsReparse(s[1..]);
    } else if s[0] == LETTER_D {
      var ps := ParsePairs(s[1..]).value.0;
      PairRawsReparse(s[1..]);
      CollectedFromPairs(ps);
      PrefixStability(s, []);
      assert s[..n] + [] == v.raw;
    }
  }

  lemma {:induction false} ItemRawsReparse(s: bytes)
    requires ParseItems(s).Some?
    ensures forall i | 0 <= i < |ParseItems(s).value.0| :: RawsReparse(ParseItems(s).value.0[i])
    decreases |s|, 1
  {
    hide ParseValue, RawsReparse;
    if s[0] != LETTER_E {
      ParsedRawsReparse(s);
      ItemRawsReparse(s[ParseValue(s).value.1..]);
    }
  }

  lemma {:induction false} PairRawsReparse(s: bytes)
    requires ParsePairs(s).Some?
    ensures forall p | p in ParsePairs(s).value.0 :: RawsReparse(p.1)
    decreases |s|, 1
  {
    hide ParseValue, ParseBytes, RawsReparse;
    if s[0] != LETTER_E {
      ParsedRawsReparse(s[ParseBytes(s).value.1..]);
      PairRawsReparse(s[ParsePair(s).value.1..]);
    }
  }
}
