/**
 * What bencoded text is, written down apart from the parser: texts in every
 * spelling the parser admits, and proof that it reads those and nothing else.
 */
module Grammar {
  import opened Basics
  import opened Numbers
  import opened Bencode
  import Encoding

  /** A text taken apart: numerals and lengths are kept as they are spelled. */
  datatype Syntax =
    | Word(digits: bytes, data: bytes)
    | Number(sign: bytes, digits: bytes)
    | Listing(items: seq<Syntax>)
    | Table(rows: Rows)

  datatype Rows = End | Row(digits: bytes, key: bytes, value: Syntax, rest: Rows)

  function WordText(digits: bytes, data: bytes): bytes { digits + [COLON] + data }

  function NumberText(sign: bytes, digits: bytes): bytes { [LETTER_I] + sign + digits + [LETTER_E] }

  function Text(t: Syntax): bytes {
    match t
    case Word(digits, data) => WordText(digits, data)
    case Number(sign, digits) => NumberText(sign, digits)
    case Listing(ts) => [LETTER_L] + ItemTexts(ts) + [LETTER_E]
    case Table(rows) => [LETTER_D] + RowTexts(rows) + [LETTER_E]
  }

  function ItemTexts(ts: seq<Syntax>): bytes {
    if ts == [] then [] else Text(ts[0]) + ItemTexts(ts[1..])
  }

  function RowTexts(rows: Rows): bytes {
    match rows
    case End => []
    case Row(digits, key, t, rest) => WordText(digits, key) + Text(t) + RowTexts(rest)
  }

  /** The length, in any number of digits, is that of the data. */
  predicate LegalWord(digits: bytes, data: bytes) {
    digits != [] && AllDigits(digits) && Numeral(digits) == |data| < U64_LIMIT
  }

  function Signed(sign: bytes, digits: bytes): int
    requires AllDigits(digits)
  {
    if sign == [MINUS] then -(Numeral(digits) as int) else Numeral(digits)
  }

  /** A zero may lead only alone or after a plus; there is no minus zero; the number fits 64 bits. */
  predicate LegalNumber(sign: bytes, digits: bytes) {
    && digits != [] && AllDigits(digits)
    && (sign == [] || sign == [PLUS] || sign == [MINUS])
    && (digits[0] == ZERO ==> sign == [PLUS] || (sign == [] && |digits| == 1))
    && Encoding.IsI64(Signed(sign, digits))
  }

  predicate Legal(t: Syntax) {
    match t
    case Word(digits, data) => LegalWord(digits, data)
    case Number(sign, digits) => LegalNumber(sign, digits)
    case Listing(ts) => LegalItems(ts)
    case Table(rows) => LegalRows(rows)
  }

  predicate LegalItems(ts: seq<Syntax>) { ts == [] || (Legal(ts[0]) && LegalItems(ts[1..])) }

  predicate LegalRows(rows: Rows) {
    match rows
    case End => true
    case Row(digits, key, t, rest) => LegalWord(digits, key) && Legal(t) && LegalRows(rest)
  }

  /** The value a text stands for; the last of equal keys counts. */
  function Sense(t: Syntax): Value
    requires Legal(t)
  {
    match t
    case Word(_, data) => Bytes(data)
    case Number(sign, digits) => Integer(Signed(sign, digits))
    case Listing(ts) => List(Senses(ts))
    case Table(rows) => Dictionary(Collect(RowSenses(rows)), Text(t))
  }

  function Senses(ts: seq<Syntax>): seq<Value>
    requires LegalItems(ts)
  {
    if ts == [] then [] else [Sense(ts[0])] + Senses(ts[1..])
  }

  function RowSenses(rows: Rows): seq<(bytes, Value)>
    requires LegalRows(rows)
  {
    match rows
    case End => []
    case Row(_, key, t, rest) => [(key, Sense(t))] + RowSenses(rest)
  }

  // ---- every such text is read ----

  lemma WordParses(digits: bytes, data: bytes, rest: bytes)
    requires LegalWord(digits, data)
    ensures ParseBytes(WordText(digits, data) + rest) == Some((data, |WordText(digits, data)|))
    ensures IsDigit((WordText(digits, data) + rest)[0])
  {
    hide DigitRun, Numeral;
    var s := WordText(digits, data) + rest;
    assert s == digits + ([COLON] + data + rest);
    Encoding.DigitRunOf(digits, [COLON] + data + rest);
    assert s[..|digits|] == digits && s[0] == digits[0];
    assert s[|digits| + 1..|digits| + 1 + |data|] == data;
  }

  lemma NumberParses(sign: bytes, digits: bytes, rest: bytes)
    requires LegalNumber(sign, digits)
    ensures ParseInteger(NumberText(sign, digits) + rest) == Some((Signed(sign, digits), |NumberText(sign, digits)|))
  {
    hide DigitRun, Numeral;
    var s := NumberText(sign, digits) + rest;
    assert s == [LETTER_I] + (sign + digits) + ([LETTER_E] + rest);
    var tail := s[1 + |sign|..];
    assert tail == digits + ([LETTER_E] + rest);
    Encoding.DigitRunOf(digits, [LETTER_E] + rest);
    assert s[1] == (sign + digits)[0] && tail[..|digits|] == digits && s[1..1 + |sign| + |digits|] == sign + digits;
  }

  lemma TextHead(t: Syntax)
    requires Legal(t)
    ensures Text(t) != [] && Text(t)[0] != LETTER_E
  {
    if t.Word? { assert Text(t)[0] == t.digits[0]; }
  }

  /** Whatever follows it, a legal text is read whole, as what it stands for. */
  lemma {:induction false} LegalParses(t: Syntax, rest: bytes)
    requires Legal(t)
    ensures ParseValue(Text(t) + rest) == Some((Sense(t), |Text(t)|))
    decreases t, 0
  {
    hide ParseBytes, ParseInteger, WordText, NumberText, ParseItems, ParsePairs, ItemTexts, RowTexts,
         LegalWord, LegalNumber;
    var s := Text(t) + rest;
    match t
    case Word(digits, data) => WordParses(digits, data, rest);
    case Number(sign, digits) =>
      NumberParses(sign, digits, rest);
      NumberHead(sign, digits, rest);
    case Listing(ts) =>
      LegalItemsParse(ts, rest);
      assert s[1..] == ItemTexts(ts) + [LETTER_E] + rest;
    case Table(rows) =>
      LegalRowsParse(rows, rest);
      assert s[1..] == RowTexts(rows) + [LETTER_E] + rest;
      assert s[..|Text(t)|] == Text(t);
  }

  lemma NumberHead(sign: bytes, digits: bytes, rest: bytes)
    ensures (NumberText(sign, digits) + rest)[0] == LETTER_I
  {
  }

  lemma {:induction false} LegalItemsParse(ts: seq<Syntax>, rest: bytes)
    requires LegalItems(ts)
    ensures ParseItems(ItemTexts(ts) + [LETTER_E] + rest) == Some((Senses(ts), |ItemTexts(ts)| + 1))
    decreases ts, 1
  {
    hide ParseValue, Text, Sense, Legal;
    var s := ItemTexts(ts) + [LETTER_E] + rest;
    if ts != [] {
      var after := ItemTexts(ts[1..]) + [LETTER_E] + rest;
      assert s == Text(ts[0]) + after;
      TextHead(ts[0]);
      LegalParses(ts[0], after);
      LegalItemsParse(ts[1..], rest);
      assert s[|Text(ts[0])|..] == after;
    }
  }

  lemma LegalRowParses(digits: bytes, key: bytes, t: Syntax, after: bytes)
    requires LegalWord(digits, key) && Legal(t)
    ensures ParsePair(WordText(digits, key) + Text(t) + after)
      == Some(((key, Sense(t)), |WordText(digits, key)| + |Text(t)|))
    ensures IsDigit((WordText(digits, key) + Text(t) + after)[0])
    decreases t, 1
  {
    var head := WordText(digits, key);
    var s := head + Text(t) + after;
    hide ParseValue, ParseBytes, Text, WordText, Sense, LegalWord, Legal;
    assert s == head + (Text(t) + after);
    WordParses(digits, key, Text(t) + after);
    assert s[|head|..] == Text(t) + after;
    LegalParses(t, after);
  }

  lemma {:induction false} LegalRowsParse(rows: Rows, rest: bytes)
    requires LegalRows(rows)
    ensures ParsePairs(RowTexts(rows) + [LETTER_E] + rest) == Some((RowSenses(rows), |RowTexts(rows)| + 1))
    decreases rows, 1
  {
    hide ParsePair, ParseBytes, Text, WordText, Sense, LegalWord, Legal;
    match rows
    case End =>
    case Row(digits, key, t, others) =>
      var head := WordText(digits, key) + Text(t);
      var after := RowTexts(others) + [LETTER_E] + rest;
      LegalRowParses(digits, key, t, after);
      LegalRowsParse(others, rest);
      Encoding.Regroup(WordText(digits, key), Text(t), RowTexts(others), [LETTER_E], rest);
      assert RowTexts(rows) == head + RowTexts(others);
      assert (head + after)[|head|..] == after;
  }

  // ---- nothing else is read ----

  lemma ParsedWord(s: bytes) returns (digits: bytes)
    requires ParseBytes(s).Some?
    ensures var (data, n) := ParseBytes(s).value; LegalWord(digits, data) && WordText(digits, data) == s[..n]
  {
    digits := s[..DigitRun(s)];
    var (data, n) := ParseBytes(s).value;
    hide DigitRun, Numeral;
    assert s[..n] == digits + [s[|digits|]] + s[|digits| + 1..n];
  }

  lemma ParsedNumber(s: bytes) returns (sign: bytes, digits: bytes)
    requires ParseInteger(s).Some?
    ensures var (v, n) := ParseInteger(s).value;
      LegalNumber(sign, digits) && NumberText(sign, digits) == s[..n] && Signed(sign, digits) == v
  {
    sign := if s[1] == PLUS || s[1] == MINUS then [s[1]] else [];
    var tail := s[1 + |sign|..];
    digits := tail[..DigitRun(tail)];
    var n := ParseInteger(s).value.1;
    hide DigitRun, Numeral;
    assert digits == s[1 + |sign|..n - 1] && s[n - 1] == LETTER_E;
    assert s[1..n - 1] == sign + digits;
    assert s[..n] == [s[0]] + sign + digits + [s[n - 1]];
  }

  /** Whatever the parser reads is a legal text, and means what the parser says. */
  lemma {:induction false} ParsedIsLegal(s: bytes) returns (t: Syntax)
    requires ParseValue(s).Some?
    ensures var (v, n) := ParseValue(s).value; Legal(t) && Text(t) == s[..n] && Sense(t) == v
    decreases |s|, 0
  {
    hide ParseBytes, ParseInteger, ParseItems, ParsePairs, WordText, NumberText, LegalWord, LegalNumber;
    var n := ParseValue(s).value.1;
    if IsDigit(s[0]) {
      var digits := ParsedWord(s);
      t := Word(digits, ParseBytes(s).value.0);
    } else if s[0] == LETTER_I {
      var sign, digits := ParsedNumber(s);
      t := Number(sign, digits);
    } else if s[0] == LETTER_L {
      var ts := ParsedItems(s[1..]);
      t := Listing(ts);
      assert s[..n] == [s[0]] + s[1..][..n - 1];
    } else {
      var rows := ParsedRows(s[1..]);
      t := Table(rows);
      assert s[..n] == [s[0]] + s[1..][..n - 1];
    }
  }

  lemma {:induction false} ParsedItems(s: bytes) returns (ts: seq<Syntax>)
    requires ParseItems(s).Some?
    ensures var (vs, n) := ParseItems(s).value;
      LegalItems(ts) && ItemTexts(ts) + [LETTER_E] == s[..n] && Senses(ts) == vs
    decreases |s|, 1
  {
    hide ParseValue, Text, Legal, Sense;
    if s[0] == LETTER_E {
      ts := [];
    } else {
      var n := ParseValue(s).value.1;
      var m := ParseItems(s).value.1;
      var head := ParsedIsLegal(s);
      var tail := ParsedItems(s[n..]);
      ts := [head] + tail;
      assert s[..m] == s[..n] + s[n..][..m - n];
    }
  }

  lemma {:induction false} ParsedRows(s: bytes) returns (rows: Rows)
    requires ParsePairs(s).Some?
    ensures var (ps, n) := ParsePairs(s).value;
      LegalRows(rows) && RowTexts(rows) + [LETTER_E] == s[..n] && RowSenses(rows) == ps
    decreases |s|, 1
  {
    hide ParseValue, ParseBytes, Text, WordText, LegalWord, Legal, Sense;
    if s[0] == LETTER_E {
      rows := End;
    } else {
      var k := ParseBytes(s).value.1;
      var n := ParsePair(s).value.1;
      var m := ParsePairs(s).value.1;
      var digits := ParsedWord(s);
      var t := ParsedIsLegal(s[k..]);
      var rest := ParsedRows(s[n..]);
      rows := Row(digits, ParseBytes(s).value.0, t, rest);
      assert s[..m] == s[..k] + s[k..][..n - k] + s[n..][..m - n];
    }
  }

  /** A text at the head of s that stands for v. */
  predicate Spells(t: Syntax, v: Value, s: bytes, n: nat) {
    n <= |s| && Legal(t) && Sense(t) == v && Text(t) == s[..n]
  }

  /**
   * The parser reads v off the first n bytes of s exactly when these are a legal
   * text for v, whatever follows: no other text is read, and none otherwise.
   */
  lemma ParseValueIff(s: bytes, v: Value, n: nat)
    ensures ParseValue(s) == Some((v, n)) <==> exists t :: Spells(t, v, s, n)
  {
    hide ParseValue, Legal, Sense, Text;
    if ParseValue(s) == Some((v, n)) {
      var t := ParsedIsLegal(s);
      assert Spells(t, v, s, n);
    }
    if t :| Spells(t, v, s, n) {
      LegalParses(t, s[n..]);
      assert s == s[..n] + s[n..];
    }
  }

  lemma {:induction false} ItemsSource(ts: seq<Syntax>)
    requires LegalItems(ts)
    ensures Parse(ItemTexts(ts)) == Some(Senses(ts))
  {
    if ts != [] {
      var rest := ItemTexts(ts[1..]);
      ItemsSource(ts[1..]);
      LegalParses(ts[0], rest);
      TextHead(ts[0]);
      hide ParseValue, Text, Legal, Sense;
      assert (Text(ts[0]) + rest)[|Text(ts[0])|..] == rest;
    }
  }

  lemma {:induction false} SourceItems(s: bytes) returns (ts: seq<Syntax>)
    requires Parse(s).Some?
    ensures LegalItems(ts) && ItemTexts(ts) == s && Senses(ts) == Parse(s).value
  {
    hide ParseValue, Text, Legal, Sense;
    if s == [] {
      ts := [];
    } else {
      var n := ParseValue(s).value.1;
      var head := ParsedIsLegal(s);
      var tail := SourceItems(s[n..]);
      ts := [head] + tail;
      assert s == s[..n] + s[n..];
    }
  }

  predicate SpellsAll(ts: seq<Syntax>, vs: seq<Value>, s: bytes) {
    LegalItems(ts) && Senses(ts) == vs && ItemTexts(ts) == s
  }

  /** A source is accepted exactly when it is made of legal texts, one after the other, and nothing else. */
  lemma SourceIff(s: bytes, vs: seq<Value>)
    ensures Parse(s) == Some(vs) <==> exists ts :: SpellsAll(ts, vs, s)
  {
    hide Parse, LegalItems, Senses, ItemTexts;
    if Parse(s) == Some(vs) {
      var ts := SourceItems(s);
      assert SpellsAll(ts, vs, s);
    }
    if ts :| SpellsAll(ts, vs, s) { ItemsSource(ts); }
  }
}
