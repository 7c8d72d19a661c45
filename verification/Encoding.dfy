/** Canonical bencode text, and proof that the parser reads it back. */
module Encoding {
  import opened Basics
  import opened Numbers
  import opened Bencode

  datatype Tree =
    | Str(data: bytes)
    | Int(n: int)
    | Lst(items: seq<Tree>)
    | Dict(entries: Entries)

  datatype Entries = Done | Entry(key: bytes, value: Tree, rest: Entries)

  function EncodeInt(n: int): bytes {
    [LETTER_I] + (if n < 0 then [MINUS] + Decimal(-n) else Decimal(n)) + [LETTER_E]
  }

  function EncodeStr(b: bytes): bytes { Decimal(|b|) + [COLON] + b }

  function Encode(t: Tree): bytes {
    match t
    case Str(b) => EncodeStr(b)
    case Int(n) => EncodeInt(n)
    case Lst(ts) => [LETTER_L] + EncodeItems(ts) + [LETTER_E]
    case Dict(ps) => [LETTER_D] + EncodePairs(ps) + [LETTER_E]
  }

  function EncodeItems(ts: seq<Tree>): bytes {
    if ts == [] then [] else Encode(ts[0]) + EncodeItems(ts[1..])
  }

  function EncodePairs(ps: Entries): bytes {
    match ps
    case Done => []
    case Entry(key, t, rest) => EncodeStr(key) + Encode(t) + EncodePairs(rest)
  }

  /** What the parser makes of a tree. */
  function Meaning(t: Tree): Value {
    match t
    case Str(b) => Bytes(b)
    case Int(n) => Integer(n)
    case Lst(ts) => List(Meanings(ts))
    case Dict(ps) => Dictionary(Collect(PairMeanings(ps)), Encode(t))
  }

  function Meanings(ts: seq<Tree>): seq<Value> {
    if ts == [] then [] else [Meaning(ts[0])] + Meanings(ts[1..])
  }

  function PairMeanings(ps: Entries): seq<(bytes, Value)> {
    match ps
    case Done => []
    case Entry(key, t, rest) => [(key, Meaning(t))] + PairMeanings(rest)
  }

  predicate IsI64(n: int) { -I64_MAX - 1 <= n <= I64_MAX }

  /** Integers fit 64 bits, and string lengths fit a 64-bit length. */
  predicate InRange(t: Tree) {
    match t
    case Str(b) => |b| < U64_LIMIT
    case Int(n) => IsI64(n)
    case Lst(ts) => ItemsInRange(ts)
    case Dict(ps) => PairsInRange(ps)
  }

  predicate ItemsInRange(ts: seq<Tree>) { ts == [] || (InRange(ts[0]) && ItemsInRange(ts[1..])) }

  predicate PairsInRange(ps: Entries) {
    match ps
    case Done => true
    case Entry(key, t, rest) => |key| < U64_LIMIT && InRange(t) && PairsInRange(rest)
  }

  /** What the last entry of a key holds. */
  function LastUnder(ps: Entries, key: bytes): Option<Tree> {
    match ps
    case Done => None
    case Entry(k, t, rest) =>
      var later := LastUnder(rest, key);
      if later.Some? then later else if k == key then Some(t) else None
  }

  /** One entry ahead of others. */
  lemma LastUnderHead(k: bytes, t: Tree, rest: Entries, key: bytes)
    ensures LastUnder(Entry(k, t, rest), key) ==
      if LastUnder(rest, key).Some? then LastUnder(rest, key) else if k == key then Some(t) else None
    ensures LastUnder(Done, key) == None
  {
  }

  lemma {:induction false} LastUnderIsCollected(ps: Entries, key: bytes)
    ensures var entries := Collect(PairMeanings(ps));
      && (key in entries <==> LastUnder(ps, key).Some?)
      && (key in entries ==> entries[key] == Meaning(LastUnder(ps, key).value))
  {
    match ps
    case Done =>
    case Entry(k, t, rest) =>
      LastUnderIsCollected(rest, key);
      var pairs := PairMeanings(ps);
      CollectHead(pairs);
      assert pairs[0] == (k, Meaning(t)) && pairs[1..] == PairMeanings(rest);
      hide Meaning, Collect;
  }

  // ---- numerals and strings ----

  lemma {:induction false} DigitRunOf(ds: bytes, rest: bytes)
    requires AllDigits(ds) && rest != [] && !IsDigit(rest[0])
    ensures DigitRun(ds + rest) == |ds|
  {
    var s := ds + rest;
    if ds == [] {
      assert s == rest;
    } else {
      DigitRunOf(ds[1..], rest);
      assert s[1..] == ds[1..] + rest;
    }
  }

  lemma ParseEncodedStr(b: bytes, rest: bytes)
    ensures ParseBytes(EncodeStr(b) + rest) == if |b| < U64_LIMIT then Some((b, |EncodeStr(b)|)) else None
  {
    hide Decimal, DigitRun, Numeral;
    var ds := Decimal(|b|);
    var s := EncodeStr(b) + rest;
    assert s == ds + ([COLON] + b + rest);
    DigitRunOf(ds, [COLON] + b + rest);
    DecimalRoundTrip(|b|);
    assert s[..|ds|] == ds;
    assert s[|ds| + 1..|ds| + 1 + |b|] == b;
  }

  lemma StrHead(b: bytes, rest: bytes)
    ensures IsDigit((EncodeStr(b) + rest)[0]) && EncodeStr(b) != []
  {
    assert (EncodeStr(b) + rest)[0] == Decimal(|b|)[0];
  }

  /** A sign, digits and `e`, as the parser takes them apart. */
  lemma ParseParts(s: bytes, sign: bytes, ds: bytes, size: nat)
    requires (sign == [] || sign == [MINUS]) && ds == Decimal(size)
    requires |sign| + |ds| + 2 <= |s| && s[0] == LETTER_I && s[1..1 + |sign| + |ds|] == sign + ds
    requires s[1 + |sign| + |ds|] == LETTER_E && DigitRun(s[1 + |sign|..]) == |ds|
    requires s[1 + |sign|..][..|ds|] == ds && (sign == [MINUS] ==> size > 0)
    ensures var n: int := if sign == [] then size else -(size as int);
      ParseInteger(s) == if IsI64(n) then Some((n, |sign| + |ds| + 2)) else None
  {
    DecimalRoundTrip(size);
    assert s[1] == (sign + ds)[0];
    hide Decimal, DigitRun, Numeral;
  }

  lemma ParseEncodedInt(n: int, rest: bytes)
    ensures ParseInteger(EncodeInt(n) + rest) == if IsI64(n) then Some((n, |EncodeInt(n)|)) else None
    ensures (EncodeInt(n) + rest)[0] == LETTER_I
  {
    hide Decimal, DigitRun, Numeral, ParseInteger;
    var s := EncodeInt(n) + rest;
    var size: nat := if n < 0 then -n else n;
    var (sign, ds) := (if n < 0 then [MINUS] else [], Decimal(size));
    assert s == [LETTER_I] + (sign + ds) + ([LETTER_E] + rest);
    assert s[1 + |sign|..] == ds + ([LETTER_E] + rest);
    DigitRunOf(ds, [LETTER_E] + rest);
    ParseParts(s, sign, ds, size);
  }

  // ---- whole trees ----

  lemma EncodedHead(t: Tree)
    ensures Encode(t) != [] && Encode(t)[0] != LETTER_E
  {
    if t.Str? {
      StrHead(t.data, []);
      assert EncodeStr(t.data) + [] == EncodeStr(t.data);
    }
  }

  /** The parser reads an encoded tree back, exactly when its numbers are in range. */
  lemma {:induction false} EncodedParses(t: Tree, rest: bytes)
    ensures ParseValue(Encode(t) + rest) == if InRange(t) then Some((Meaning(t), |Encode(t)|)) else None
    decreases t, 0
  {
    hide ParseBytes, ParseInteger, EncodeStr, EncodeInt, ParseItems, ParsePairs, EncodeItems, EncodePairs;
    var s := Encode(t) + rest;
    match t
    case Str(b) =>
      StrHead(b, rest);
      ParseEncodedStr(b, rest);
    case Int(n) =>
      ParseEncodedInt(n, rest);
    case Lst(ts) =>
      EncodedItemsParse(ts, rest);
      assert s[1..] == EncodeItems(ts) + [LETTER_E] + rest;
    case Dict(ps) =>
      EncodedPairsParse(ps, rest);
      assert s[1..] == EncodePairs(ps) + [LETTER_E] + rest;
      assert s[..|Encode(t)|] == Encode(t);
  }

  lemma {:induction false} EncodedItemsParse(ts: seq<Tree>, rest: bytes)
    ensures ParseItems(EncodeItems(ts) + [LETTER_E] + rest) ==
      if ItemsInRange(ts) then Some((Meanings(ts), |EncodeItems(ts)| + 1)) else None
    decreases ts, 1
  {
    hide ParseValue, Encode, Meaning, InRange;
    var s := EncodeItems(ts) + [LETTER_E] + rest;
    if ts != [] {
      var after := EncodeItems(ts[1..]) + [LETTER_E] + rest;
      assert s == Encode(ts[0]) + after;
      EncodedHead(ts[0]);
      EncodedParses(ts[0], after);
      EncodedItemsParse(ts[1..], rest);
      assert s[|Encode(ts[0])|..] == after;
    }
  }

  lemma EncodedPairParses(key: bytes, t: Tree, after: bytes)
    ensures ParsePair(EncodeStr(key) + Encode(t) + after) ==
      if |key| < U64_LIMIT && InRange(t) then Some(((key, Meaning(t)), |EncodeStr(key)| + |Encode(t)|)) else None
    decreases t, 1
  {
    hide ParseValue, ParseBytes, Encode, EncodeStr, Meaning, InRange;
    var s := EncodeStr(key) + Encode(t) + after;
    assert s == EncodeStr(key) + (Encode(t) + after);
    ParseEncodedStr(key, Encode(t) + after);
    assert s[|EncodeStr(key)|..] == Encode(t) + after;
    EncodedParses(t, after);
  }

  lemma {:induction false} EncodedPairsParse(ps: Entries, rest: bytes)
    ensures ParsePairs(EncodePairs(ps) + [LETTER_E] + rest) ==
      if PairsInRange(ps) then Some((PairMeanings(ps), |EncodePairs(ps)| + 1)) else None
    decreases ps, 1
  {
    hide ParsePair, ParseBytes, Encode, EncodeStr, Meaning, InRange;
    match ps
    case Done =>
    case Entry(key, t, others) =>
      var head := EncodeStr(key) + Encode(t);
      var after := EncodePairs(others) + [LETTER_E] + rest;
      StrHead(key, Encode(t) + after);
      EncodedPairParses(key, t, after);
      EncodedPairsParse(others, rest);
      var s := head + after;
      Regroup(EncodeStr(key), Encode(t), EncodePairs(others), [LETTER_E], rest);
      assert EncodePairs(ps) == head + EncodePairs(others);
      assert s[|head|..] == after;
  }

  lemma Regroup(a: bytes, b: bytes, c: bytes, d: bytes, e: bytes)
    ensures a + (b + (c + d + e)) == a + b + (c + d + e) == a + b + c + d + e
  {
    assert a + b + (c + d + e) == a + b + (c + d) + e;
  }
}
