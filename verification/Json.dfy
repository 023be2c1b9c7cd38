/** JSON values, the compact serialisation of section 7 of RFC 8259 as JSON.stringify writes it,
    and a reader for exactly that serialisation. Text is a sequence of UTF-16 code units, as in
    JavaScript, so lone surrogates and the code-unit order of `sort()` are part of the model. */
module Json {
  import opened CodeUnits
  import opened Options

  // ----- Numbers -----

  const MINUS: CodeUnit := 0x2D

  function Digits(n: nat): Text {
    if n < 10 then [0x30 + n] else Digits(n / 10) + [0x30 + n % 10]
  }

  function Numeral(n: int): Text {
    if n < 0 then [MINUS] + Digits(-n) else Digits(n)
  }

  predicate IsDigit(u: CodeUnit) { 0x30 <= u < 0x3A }

  /** Reads decimal digits onto `acc` for as long as there are any. */
  function ReadDigits(t: Text, acc: nat): (r: (nat, Text))
    ensures |r.1| <= |t|
  {
    if t == [] || !IsDigit(t[0]) then (acc, t) else ReadDigits(t[1..], 10 * acc + (t[0] - 0x30))
  }

  /** The safe integer with this numeral. */
  function AsInteger(t: Text): (r: Option<SafeInteger>)
    ensures r.Some? ==> Numeral(r.value) == t
  {
    var negative := t != [] && t[0] == MINUS;
    var (magnitude, rest) := ReadDigits(if negative then t[1..] else t, 0);
    var value: int := if negative then -(magnitude as int) else magnitude;
    if rest == [] && -MAXIMUM_SAFE_INTEGER <= value <= MAXIMUM_SAFE_INTEGER && Numeral(value) == t then Some(value)
    else None
  }

  /** A unit that the text of a number may hold: a digit, a sign, a point or the letter of an exponent. */
  predicate IsNumberUnit(u: CodeUnit) { IsDigit(u) || u in {MINUS, 0x2B, 0x2E, 0x65} }

  predicate IsOtherNumber(t: Text) {
    && t != [] && (t[0] == MINUS || IsDigit(t[0]))
    && (forall i :: 0 <= i < |t| ==> IsNumberUnit(t[i]))
    && AsInteger(t).None?
  }

  /** The text of a finite number that is no safe integer, 1.5 for one. */
  type NumberText = t: Text | IsOtherNumber(t) witness [0x31, 0x2E, 0x35]

  // ----- Values -----

  datatype Entry<+V> = Entry(key: Text, value: V)

  /** An object lists its entries in insertion order. A finite number that is no safe integer is given
      by its text, which Number::toString of ECMA-262 makes different for different numbers. */
  datatype Json =
    | Null
    | Bool(b: bool)
    | Number(n: SafeInteger)
    | OtherNumber(text: NumberText)
    | String(s: Text)
    | Array(items: seq<Json>)
    | Object(entries: seq<Entry<Json>>)

  ghost predicate DistinctKeys<V>(entries: seq<Entry<V>>) {
    forall i, j :: 0 <= i < j < |entries| ==> entries[i].key != entries[j].key
  }

  /** A JavaScript object has one value for each key, at every depth. */
  ghost predicate WellFormed(v: Json) {
    match v
    case Array(items) => forall i :: 0 <= i < |items| ==> WellFormed(items[i])
    case Object(entries) =>
      && DistinctKeys(entries)
      && forall i :: 0 <= i < |entries| ==> WellFormed(entries[i].value)
    case _ => true
  }

  // ----- Serialisation -----

  const QUOTE: CodeUnit := 0x22
  const BACKSLASH: CodeUnit := 0x5C
  const COMMA: CodeUnit := 0x2C
  const COLON: CodeUnit := 0x3A
  const LOWER_U: CodeUnit := 0x75
  const NULL_TEXT: Text := [0x6E, 0x75, 0x6C, 0x6C]
  const TRUE_TEXT: Text := [0x74, 0x72, 0x75, 0x65]
  const FALSE_TEXT: Text := [0x66, 0x61, 0x6C, 0x73, 0x65]

  function HexDigit(d: int): CodeUnit
    requires 0 <= d < 16
  {
    if d < 10 then 0x30 + d else 0x61 + (d - 10)
  }

  function UnicodeEscape(u: CodeUnit): Text {
    [BACKSLASH, LOWER_U, HexDigit(u / 4096), HexDigit(u / 256 % 16), HexDigit(u / 16 % 16), HexDigit(u % 16)]
  }

  predicate IsHighSurrogate(u: CodeUnit) { 0xD800 <= u < 0xDC00 }

  predicate IsLowSurrogate(u: CodeUnit) { 0xDC00 <= u < 0xE000 }

  /** The letter of a two-unit escape. */
  function ShortEscape(u: CodeUnit): CodeUnit {
    if u == 0x08 then 0x62
    else if u == 0x09 then 0x74
    else if u == 0x0A then 0x6E
    else if u == 0x0C then 0x66
    else if u == 0x0D then 0x72
    else u
  }

  function EscapeUnit(u: CodeUnit): Text {
    if u in {0x08, 0x09, 0x0A, 0x0C, 0x0D, QUOTE, BACKSLASH} then [BACKSLASH, ShortEscape(u)]
    else if u < 0x20 || IsHighSurrogate(u) || IsLowSurrogate(u) then UnicodeEscape(u)
    else [u]
  }

  /** A surrogate pair is written as it is; a lone surrogate is escaped. */
  function Escape(s: Text): Text {
    if s == [] then []
    else if |s| > 1 && IsHighSurrogate(s[0]) && IsLowSurrogate(s[1]) then [s[0], s[1]] + Escape(s[2..])
    else EscapeUnit(s[0]) + Escape(s[1..])
  }

  function Quote(s: Text): Text { [QUOTE] + Escape(s) + [QUOTE] }

  function Member(key: Text, value: Text): Text { Quote(key) + [COLON] + value }

  /** `parts.join(",")` */
  function Join(parts: seq<Text>): Text {
    if |parts| == 0 then []
    else if |parts| == 1 then parts[0]
    else parts[0] + [COMMA] + Join(parts[1..])
  }

  function Stringify(v: Json): Text
    decreases v, 1
  {
    match v
    case Null => NULL_TEXT
    case Bool(b) => if b then TRUE_TEXT else FALSE_TEXT
    case Number(n) => Numeral(n)
    case OtherNumber(text) => text
    case String(s) => Quote(s)
    case Array(items) => [0x5B] + Join(StringifyItems(items)) + [0x5D]
    case Object(entries) => [0x7B] + Join(StringifyMembers(entries)) + [0x7D]
  }

  function StringifyItems(items: seq<Json>): seq<Text>
    decreases items, 0
  {
    if items == [] then [] else [Stringify(items[0])] + StringifyItems(items[1..])
  }

  function StringifyMembers(entries: seq<Entry<Json>>): seq<Text>
    decreases entries, 0
  {
    if entries == [] then [] else [Member(entries[0].key, Stringify(entries[0].value))] + StringifyMembers(entries[1..])
  }

  // ----- The reader -----

  datatype Parsed<+T> = Failed | Parsed(value: T, rest: Text)

  /** The longest prefix of number units, and what follows it. */
  function NumberRun(t: Text): (r: (Text, Text))
    ensures r.0 + r.1 == t
  {
    if t == [] || !IsNumberUnit(t[0]) then ([], t)
    else
      var (run, rest) := NumberRun(t[1..]);
      ([t[0]] + run, rest)
  }

  function ReadNumber(t: Text): (r: Parsed<Json>)
    ensures r.Parsed? ==> |r.rest| < |t|
  {
    var (run, rest) := NumberRun(t);
    if run == [] then Failed
    else if AsInteger(run).Some? then Parsed(Number(AsInteger(run).value), rest)
    else if IsOtherNumber(run) then Parsed(OtherNumber(run), rest)
    else Failed
  }

  function HexValue(u: CodeUnit): int
  {
    if IsDigit(u) then u - 0x30
    else if 0x61 <= u < 0x67 then u - 0x61 + 10
    else -1
  }

  function UnescapeLetter(u: CodeUnit): int {
    if u == 0x62 then 0x08
    else if u == 0x74 then 0x09
    else if u == 0x6E then 0x0A
    else if u == 0x66 then 0x0C
    else if u == 0x72 then 0x0D
    else if u == QUOTE || u == BACKSLASH then u
    else -1
  }

  /** Reads one code unit of a string body, escaped or raw. */
  function ReadUnit(t: Text): (r: Parsed<CodeUnit>)
    ensures r.Parsed? ==> |r.rest| < |t|
  {
    if t == [] || t[0] < 0x20 || t[0] == QUOTE then Failed
    else if t[0] != BACKSLASH then Parsed(t[0], t[1..])
    else if |t| >= 6 && t[1] == LOWER_U then
      var a, b, c, d := HexValue(t[2]), HexValue(t[3]), HexValue(t[4]), HexValue(t[5]);
      if a < 0 || b < 0 || c < 0 || d < 0 then Failed
      else Parsed(4096 * a + 256 * b + 16 * c + d, t[6..])
    else if |t| >= 2 && UnescapeLetter(t[1]) >= 0 then Parsed(UnescapeLetter(t[1]), t[2..])
    else Failed
  }

  /** Reads a string body up to and including its closing quotation mark. */
  function ReadString(t: Text): (r: Parsed<Text>)
    ensures r.Parsed? ==> |r.rest| < |t|
  {
    if t != [] && t[0] == QUOTE then Parsed([], t[1..])
    else
      match ReadUnit(t)
      case Failed => Failed
      case Parsed(u, rest) =>
        match ReadString(rest)
        case Failed => Failed
        case Parsed(s, tail) => Parsed([u] + s, tail)
  }

  function Read(t: Text): (r: Parsed<Json>)
    ensures r.Parsed? ==> |r.rest| < |t|
    decreases |t|, 1
  {
    if t == [] then Failed
    else if t[0] == 0x6E then if |t| >= 4 && t[..4] == NULL_TEXT then Parsed(Null, t[4..]) else Failed
    else if t[0] == 0x74 then if |t| >= 4 && t[..4] == TRUE_TEXT then Parsed(Bool(true), t[4..]) else Failed
    else if t[0] == 0x66 then if |t| >= 5 && t[..5] == FALSE_TEXT then Parsed(Bool(false), t[5..]) else Failed
    else if t[0] == QUOTE then
      match ReadString(t[1..])
      case Failed => Failed
      case Parsed(s, rest) => Parsed(String(s), rest)
    else if t[0] == 0x5B then
      if |t| > 1 && t[1] == 0x5D then Parsed(Array([]), t[2..])
      else
        match ReadItems(t[1..])
        case Failed => Failed
        case Parsed(items, rest) => Parsed(Array(items), rest)
    else if t[0] == 0x7B then
      if |t| > 1 && t[1] == 0x7D then Parsed(Object([]), t[2..])
      else
        match ReadMembers(t[1..])
        case Failed => Failed
        case Parsed(entries, rest) => Parsed(Object(entries), rest)
    else ReadNumber(t)
  }

  /** Reads one or more array items up to and including the closing bracket. */
  function ReadItems(t: Text): (r: Parsed<seq<Json>>)
    ensures r.Parsed? ==> |r.rest| < |t|
    decreases |t|, 2
  {
    match Read(t)
    case Failed => Failed
    case Parsed(v, rest) =>
      if rest == [] then Failed
      else if rest[0] == 0x5D then Parsed([v], rest[1..])
      else if rest[0] != COMMA then Failed
      else
        match ReadItems(rest[1..])
        case Failed => Failed
        case Parsed(items, tail) => Parsed([v] + items, tail)
  }

  /** Reads one or more object members up to and including the closing brace. */
  function ReadMembers(t: Text): (r: Parsed<seq<Entry<Json>>>)
    ensures r.Parsed? ==> |r.rest| < |t|
    decreases |t|, 2
  {
    if t == [] || t[0] != QUOTE then Failed
    else
      match ReadString(t[1..])
      case Failed => Failed
      case Parsed(key, afterKey) =>
        if afterKey == [] || afterKey[0] != COLON then Failed
        else
          match Read(afterKey[1..])
          case Failed => Failed
          case Parsed(v, rest) =>
            if rest == [] then Failed
            else if rest[0] == 0x7D then Parsed([Entry(key, v)], rest[1..])
            else if rest[0] != COMMA then Failed
            else
              match ReadMembers(rest[1..])
              case Failed => Failed
              case Parsed(entries, tail) => Parsed([Entry(key, v)] + entries, tail)
  }

  // ----- Reading back what was written -----

  /** Some power of ten. */
  function Scale(n: nat): nat { if n < 10 then 10 else 10 * Scale(n / 10) }

  lemma {:induction false} ShiftDigit(n: nat, acc: nat, scale: nat)
    ensures 10 * (acc * scale + n / 10) + n % 10 == acc * (10 * scale) + n
  {
    assert acc * (10 * scale) == 10 * (acc * scale);
  }

  lemma {:induction false} ReadDigitsOfDigits(n: nat, rest: Text, acc: nat)
    ensures ReadDigits(Digits(n) + rest, acc) == ReadDigits(rest, acc * Scale(n) + n)
  {
    var last: Text := [0x30 + n % 10];
    assert (last + rest)[1..] == rest;
    if n >= 10 {
      assert Digits(n) + rest == Digits(n / 10) + (last + rest);
      ReadDigitsOfDigits(n / 10, last + rest, acc);
      ShiftDigit(n, acc, Scale(n / 10));
    }
  }

  lemma {:induction false} DigitsStart(n: nat)
    ensures Digits(n) != [] && IsDigit(Digits(n)[0])
  {
    if n >= 10 { DigitsStart(n / 10); }
  }

  ghost predicate Delimited(rest: Text) { rest == [] || !IsNumberUnit(rest[0]) }

  lemma {:induction false} DigitsUnits(n: nat)
    ensures forall i :: 0 <= i < |Digits(n)| ==> IsDigit(Digits(n)[i])
  {
    if n >= 10 { DigitsUnits(n / 10); }
  }

  lemma {:induction false} NumeralUnits(n: int)
    ensures Numeral(n) != [] && (Numeral(n)[0] == MINUS || IsDigit(Numeral(n)[0]))
    ensures forall i :: 0 <= i < |Numeral(n)| ==> IsNumberUnit(Numeral(n)[i])
  {
    DigitsStart(if n < 0 then -n else n);
    DigitsUnits(if n < 0 then -n else n);
  }

  /** A numeral is read as the integer it is the numeral of. */
  lemma {:induction false} AsIntegerNumeral(n: SafeInteger)
    ensures AsInteger(Numeral(n)) == Some(n)
  {
    var m: nat := if n < 0 then -n else n;
    var t, digits := Numeral(n), Digits(m);
    DigitsStart(m);
    ReadDigitsOfDigits(m, [], 0);
    assert digits + [] == digits && ReadDigits([], m) == (m, []);
    if n < 0 {
      assert t[1..] == digits;
    } else {
      assert t[0] != MINUS;
    }
  }

  lemma {:induction false} RunStep(u: CodeUnit, t: Text, run: Text, rest: Text)
    requires IsNumberUnit(u) && NumberRun(t) == (run, rest)
    ensures NumberRun([u] + t) == ([u] + run, rest)
  {
    assert ([u] + t)[1..] == t;
  }

  lemma {:induction false} RunOfUnits(run: Text, rest: Text)
    requires Delimited(rest) && forall i :: 0 <= i < |run| ==> IsNumberUnit(run[i])
    ensures NumberRun(run + rest) == (run, rest)
  {
    if run == [] {
      assert run + rest == rest;
    } else {
      hide NumberRun, IsNumberUnit;
      var others := run[1..];
      assert forall i :: 0 <= i < |others| ==> others[i] == run[i + 1];
      RunOfUnits(others, rest);
      RunStep(run[0], others + rest, others, rest);
      assert [run[0]] + others == run && [run[0]] + (others + rest) == run + rest;
    }
  }

  lemma {:induction false} ReadNumeral(n: SafeInteger, rest: Text)
    requires Delimited(rest)
    ensures ReadNumber(Numeral(n) + rest) == Parsed(Number(n), rest)
  {
    NumeralUnits(n);
    RunOfUnits(Numeral(n), rest);
    AsIntegerNumeral(n);
  }

  lemma {:induction false} ReadOtherNumber(text: NumberText, rest: Text)
    requires Delimited(rest)
    ensures ReadNumber(text + rest) == Parsed(OtherNumber(text), rest)
  {
    RunOfUnits(text, rest);
  }

  lemma {:induction false} ReadUnicodeEscape(u: CodeUnit, rest: Text)
    ensures ReadUnit(UnicodeEscape(u) + rest) == Parsed(u, rest)
  {
    var t := UnicodeEscape(u) + rest;
    assert t[6..] == rest;
    HexParts(u);
    HexDigitValue(u / 4096);
    HexDigitValue(u / 256 % 16);
    HexDigitValue(u / 16 % 16);
    HexDigitValue(u % 16);
  }

  lemma {:induction false} HexParts(u: CodeUnit)
    ensures 0 <= u / 4096 < 16
    ensures u == 4096 * (u / 4096) + 256 * (u / 256 % 16) + 16 * (u / 16 % 16) + u % 16
  {
    assert u / 16 / 16 == u / 256 && u / 256 / 16 == u / 4096;
  }

  lemma {:induction false} HexDigitValue(d: int)
    requires 0 <= d < 16
    ensures HexValue(HexDigit(d)) == d
  {
  }

  lemma {:induction false} ReadEscapedUnit(u: CodeUnit, rest: Text)
    ensures ReadUnit(EscapeUnit(u) + rest) == Parsed(u, rest)
  {
    if u in {0x08, 0x09, 0x0A, 0x0C, 0x0D, QUOTE, BACKSLASH} {
      assert ([BACKSLASH, ShortEscape(u)] + rest)[2..] == rest;
    } else if u < 0x20 || IsHighSurrogate(u) || IsLowSurrogate(u) {
      ReadUnicodeEscape(u, rest);
    } else {
      assert ([u] + rest)[1..] == rest;
    }
  }

  lemma {:induction false} ReadStringStep(t: Text, u: CodeUnit, rest: Text)
    requires t != [] && t[0] != QUOTE && ReadUnit(t) == Parsed(u, rest)
    ensures var r := ReadString(rest);
            ReadString(t) == if r.Parsed? then Parsed([u] + r.value, r.rest) else Failed
  {
  }

  lemma {:induction false} EscapeUnitStart(u: CodeUnit)
    ensures EscapeUnit(u) != [] && EscapeUnit(u)[0] != QUOTE
  {
  }

  lemma {:induction false} ReadRawUnit(u: CodeUnit, rest: Text)
    requires IsHighSurrogate(u) || IsLowSurrogate(u)
    ensures var r := ReadString(rest);
            ReadString([u] + rest) == if r.Parsed? then Parsed([u] + r.value, r.rest) else Failed
  {
    assert ([u] + rest)[1..] == rest;
    ReadStringStep([u] + rest, u, rest);
  }

  lemma {:induction false} Regroup(a: Text, b: Text, c: Text, d: Text)
    ensures a + b + c + d == a + (b + c + d)
  {
  }

  lemma {:induction false} ReadPair(high: CodeUnit, low: CodeUnit, s: Text, tail: Text, rest: Text)
    requires IsHighSurrogate(high) && IsLowSurrogate(low) && ReadString(tail) == Parsed(s, rest)
    ensures ReadString([high, low] + tail) == Parsed([high, low] + s, rest)
  {
    ReadRawUnit(low, tail);
    ReadRawUnit(high, [low] + tail);
    assert [high, low] + tail == [high] + ([low] + tail);
    assert [high, low] + s == [high] + ([low] + s);
  }

  lemma {:induction false} ReadEscapedThen(u: CodeUnit, s: Text, tail: Text, rest: Text)
    requires ReadString(tail) == Parsed(s, rest)
    ensures ReadString(EscapeUnit(u) + tail) == Parsed([u] + s, rest)
  {
    ReadEscapedUnit(u, tail);
    EscapeUnitStart(u);
    ReadStringStep(EscapeUnit(u) + tail, u, tail);
  }

  lemma {:induction false} ReadEscaped(s: Text, rest: Text)
    ensures ReadString(Escape(s) + [QUOTE] + rest) == Parsed(s, rest)
    decreases |s|
  {
    if s == [] {
      assert (Escape(s) + [QUOTE] + rest)[1..] == rest;
    } else if |s| > 1 && IsHighSurrogate(s[0]) && IsLowSurrogate(s[1]) {
      var pair, others := [s[0], s[1]], s[2..];
      ReadEscaped(others, rest);
      ReadPair(s[0], s[1], others, Escape(others) + [QUOTE] + rest, rest);
      Regroup(pair, Escape(others), [QUOTE], rest);
      assert s == pair + others;
    } else {
      var others := s[1..];
      ReadEscaped(others, rest);
      ReadEscapedThen(s[0], others, Escape(others) + [QUOTE] + rest, rest);
      Regroup(EscapeUnit(s[0]), Escape(others), [QUOTE], rest);
      assert s == [s[0]] + others;
    }
  }

  lemma {:induction false} ReadQuoted(s: Text, rest: Text)
    ensures var t := Quote(s) + rest; t[0] == QUOTE && ReadString(t[1..]) == Parsed(s, rest)
  {
    assert (Quote(s) + rest)[1..] == Escape(s) + [QUOTE] + rest;
    ReadEscaped(s, rest);
  }

  /** The first unit of a serialised value tells the reader's branches apart. */
  lemma {:induction false} StringifyStart(v: Json)
    ensures Stringify(v) != []
    ensures Stringify(v)[0] !in {0x5D, 0x7D, COMMA, COLON}
    ensures v.Number? || v.OtherNumber? ==> Stringify(v)[0] == MINUS || IsDigit(Stringify(v)[0])
  {
    if v.Number? { DigitsStart(if v.n < 0 then -v.n else v.n); }
  }

  /** Reading a serialised value returns that value and stops exactly at its end. */
  lemma {:induction false} ReadStringify(v: Json, rest: Text)
    requires Delimited(rest)
    ensures Read(Stringify(v) + rest) == Parsed(v, rest)
    decreases v, 1
  {
    match v
    case Null => ReadWords(rest);
    case Bool(b) => ReadWords(rest);
    case Number(n) =>
      DigitsStart(if n < 0 then -n else n);
      ReadNumeral(n, rest);
    case OtherNumber(text) => ReadOtherNumber(text, rest);
    case String(s) => ReadQuoted(s, rest);
    case Array(items) =>
      if items != [] { ReadJoinedItems(items, rest); }
      ReadArrayText(items, rest);
    case Object(entries) =>
      if entries != [] { ReadJoinedMembers(entries, rest); }
      ReadObjectText(entries, rest);
  }

  lemma {:induction false} ReadWords(rest: Text)
    ensures Read(NULL_TEXT + rest) == Parsed(Null, rest)
    ensures Read(TRUE_TEXT + rest) == Parsed(Bool(true), rest)
    ensures Read(FALSE_TEXT + rest) == Parsed(Bool(false), rest)
  {
    assert (NULL_TEXT + rest)[..4] == NULL_TEXT && (NULL_TEXT + rest)[4..] == rest;
    assert (TRUE_TEXT + rest)[..4] == TRUE_TEXT && (TRUE_TEXT + rest)[4..] == rest;
    assert (FALSE_TEXT + rest)[..5] == FALSE_TEXT && (FALSE_TEXT + rest)[5..] == rest;
  }

  lemma {:induction false} ReadOpenBracket(body: Text, items: seq<Json>, rest: Text)
    requires body != [] && body[0] != 0x5D && ReadItems(body) == Parsed(items, rest)
    ensures Read([0x5B] + body) == Parsed(Array(items), rest)
  {
    assert ([0x5B] + body)[1..] == body;
  }

  lemma {:induction false} ReadArrayText(items: seq<Json>, rest: Text)
    requires items != [] ==> ReadItems(Join(StringifyItems(items)) + [0x5D] + rest) == Parsed(items, rest)
    ensures Read(Stringify(Array(items)) + rest) == Parsed(Array(items), rest)
  {
    var inner := Join(StringifyItems(items));
    if items == [] {
      ReadEmptyText(rest);
      assert [0x5B] + inner + [0x5D] == [0x5B, 0x5D];
    } else {
      StringifyStart(items[0]);
      JoinStart(StringifyItems(items));
      ReadOpenBracket(inner + [0x5D] + rest, items, rest);
      Regroup([0x5B], inner, [0x5D], rest);
    }
  }

  lemma {:induction false} ReadOpenBrace(body: Text, entries: seq<Entry<Json>>, rest: Text)
    requires body != [] && body[0] == QUOTE && ReadMembers(body) == Parsed(entries, rest)
    ensures Read([0x7B] + body) == Parsed(Object(entries), rest)
  {
    assert ([0x7B] + body)[1..] == body;
  }

  lemma {:induction false} ReadEmptyText(rest: Text)
    ensures Read([0x5B, 0x5D] + rest) == Parsed(Array([]), rest)
    ensures Read([0x7B, 0x7D] + rest) == Parsed(Object([]), rest)
  {
    assert ([0x5B, 0x5D] + rest)[2..] == rest;
    assert ([0x7B, 0x7D] + rest)[2..] == rest;
  }

  lemma {:induction false} ReadObjectText(entries: seq<Entry<Json>>, rest: Text)
    requires entries != [] ==> ReadMembers(Join(StringifyMembers(entries)) + [0x7D] + rest) == Parsed(entries, rest)
    ensures Read(Stringify(Object(entries)) + rest) == Parsed(Object(entries), rest)
  {
    var inner := Join(StringifyMembers(entries));
    if entries == [] {
      ReadEmptyText(rest);
      assert [0x7B] + inner + [0x7D] == [0x7B, 0x7D];
    } else {
      JoinStart(StringifyMembers(entries));
      ReadOpenBrace(inner + [0x7D] + rest, entries, rest);
      Regroup([0x7B], inner, [0x7D], rest);
    }
  }

  lemma {:induction false} JoinStart(parts: seq<Text>)
    requires parts != [] && parts[0] != []
    ensures Join(parts) != [] && Join(parts)[0] == parts[0][0]
  {
  }

  lemma {:induction false} JoinOne(first: Text, close: Text, rest: Text)
    ensures Join([first]) + close + rest == first + (close + rest)
  {
  }

  lemma {:induction false} JoinMore(first: Text, parts: seq<Text>, close: Text, rest: Text)
    requires parts != []
    ensures Join([first] + parts) + close + rest == first + ([COMMA] + (Join(parts) + close + rest))
  {
    assert ([first] + parts)[1..] == parts;
    Regroup(first, [COMMA], Join(parts), close);
  }

  lemma {:induction false} ReadItemThen(text: Text, v: Json, after: Text)
    requires Read(text) == Parsed(v, after)
    ensures after != [] && after[0] == 0x5D ==> ReadItems(text) == Parsed([v], after[1..])
    ensures after != [] && after[0] == COMMA && ReadItems(after[1..]).Parsed? ==>
              ReadItems(text) == Parsed([v] + ReadItems(after[1..]).value, ReadItems(after[1..]).rest)
  {
  }

  lemma {:induction false} ReadJoinedItems(items: seq<Json>, rest: Text)
    requires items != []
    ensures ReadItems(Join(StringifyItems(items)) + [0x5D] + rest) == Parsed(items, rest)
    decreases items, 0
  {
    var v, others := items[0], items[1..];
    var first, parts := Stringify(v), StringifyItems(others);
    assert items == [v] + others;
    assert StringifyItems(items) == [first] + parts;
    if others == [] {
      assert [first] + parts == [first] && items == [v];
      JoinOne(first, [0x5D], rest);
      ReadStringify(v, [0x5D] + rest);
      ReadItemThen(first + ([0x5D] + rest), v, [0x5D] + rest);
      assert ([0x5D] + rest)[1..] == rest;
    } else {
      var more := Join(parts) + [0x5D] + rest;
      JoinMore(first, parts, [0x5D], rest);
      ReadStringify(v, [COMMA] + more);
      ReadJoinedItems(others, rest);
      assert ([COMMA] + more)[1..] == more;
      ReadItemThen(first + ([COMMA] + more), v, [COMMA] + more);
    }
  }

  lemma {:induction false} ReadMemberThen(text: Text, key: Text, value: Text, v: Json, after: Text)
    requires text != [] && text[0] == QUOTE && ReadString(text[1..]) == Parsed(key, [COLON] + value)
    requires Read(value) == Parsed(v, after)
    ensures after != [] && after[0] == 0x7D ==> ReadMembers(text) == Parsed([Entry(key, v)], after[1..])
    ensures after != [] && after[0] == COMMA && ReadMembers(after[1..]).Parsed? ==>
              ReadMembers(text) == Parsed([Entry(key, v)] + ReadMembers(after[1..]).value, ReadMembers(after[1..]).rest)
  {
    assert ([COLON] + value)[1..] == value;
  }

  lemma {:induction false} RegroupMember(quoted: Text, value: Text, after: Text)
    ensures (quoted + [COLON] + value) + after == quoted + ([COLON] + (value + after))
  {
  }

  lemma {:induction false} ReadMemberText(e: Entry<Json>, value: Text, after: Text)
    requires Read(value + after) == Parsed(e.value, after)
    ensures var text := Member(e.key, value) + after;
            && text != [] && text[0] == QUOTE
            && ReadString(text[1..]) == Parsed(e.key, [COLON] + (value + after))
  {
    RegroupMember(Quote(e.key), value, after);
    ReadQuoted(e.key, [COLON] + (value + after));
  }

  lemma {:induction false} ReadJoinedMembers(entries: seq<Entry<Json>>, rest: Text)
    requires entries != []
    ensures ReadMembers(Join(StringifyMembers(entries)) + [0x7D] + rest) == Parsed(entries, rest)
    decreases entries, 0
  {
    var e, others := entries[0], entries[1..];
    var value := Stringify(e.value);
    var first, parts := Member(e.key, value), StringifyMembers(others);
    assert entries == [Entry(e.key, e.value)] + others;
    assert StringifyMembers(entries) == [first] + parts;
    if others == [] {
      var after := [0x7D] + rest;
      assert [first] + parts == [first] && entries == [Entry(e.key, e.value)];
      JoinOne(first, [0x7D], rest);
      ReadStringify(e.value, after);
      ReadMemberText(e, value, after);
      ReadMemberThen(first + after, e.key, value + after, e.value, after);
      assert after[1..] == rest;
    } else {
      var more := Join(parts) + [0x7D] + rest;
      var after := [COMMA] + more;
      JoinMore(first, parts, [0x7D], rest);
      ReadStringify(e.value, after);
      ReadMemberText(e, value, after);
      ReadJoinedMembers(others, rest);
      assert after[1..] == more;
      ReadMemberThen(first + after, e.key, value + after, e.value, after);
    }
  }

  /** JSON.stringify loses nothing: different values have different texts. */
  lemma {:induction false} StringifyInjective(v: Json, w: Json)
    ensures Stringify(v) == Stringify(w) <==> v == w
  {
    ReadStringify(v, []);
    ReadStringify(w, []);
    assert Stringify(v) + [] == Stringify(v);
    assert Stringify(w) + [] == Stringify(w);
  }
}
