/** CSV cells with formula neutralisation, and a reader for section 2 of RFC 4180 written as their
    specification. Like the exports, the reader takes a bare LF as a line break besides CRLF. */
module Csv {
  import opened Options

  /** A number comes with its text, whatever String(n) makes of it. */
  datatype Cell = Missing | Text(s: string) | Number(numeral: string)

  // ----- Writing -----

  predicate IsFormula(s: string) { s != "" && s[0] in "=+-@\t\r" }

  predicate IsSpecial(c: char) { c in "\",\n\r" }

  /** The text of a cell, with an apostrophe before a text that a spreadsheet would evaluate. */
  function Neutralised(cell: Cell): string {
    match cell
    case Missing => ""
    case Text(s) => if IsFormula(s) then "'" + s else s
    case Number(numeral) => numeral
  }

  function DoubledChar(c: char): string { if c == '"' then "\"\"" else [c] }

  /** `text.replace(/"/g, '""')` */
  function DoubleQuotes(s: string): string {
    if s == "" then "" else DoubledChar(s[0]) + DoubleQuotes(s[1..])
  }

  function EscapeText(s: string): string {
    if exists i :: 0 <= i < |s| && IsSpecial(s[i]) then "\"" + DoubleQuotes(s) + "\"" else s
  }

  /** `escapeCsvCell` */
  function EscapeCell(cell: Cell): string { EscapeText(Neutralised(cell)) }

  function Record(cells: seq<Cell>): string {
    if cells == [] then ""
    else if |cells| == 1 then EscapeCell(cells[0])
    else EscapeCell(cells[0]) + "," + Record(cells[1..])
  }

  function Table(rows: seq<seq<Cell>>): string {
    if rows == [] then ""
    else if |rows| == 1 then Record(rows[0])
    else Record(rows[0]) + "\n" + Table(rows[1..])
  }

  // ----- Reading -----

  /** The longest prefix of unquoted field text, and what follows it. */
  function ReadPlain(t: string): (r: (string, string))
    ensures |r.1| <= |t|
  {
    if t == "" || IsSpecial(t[0]) then ("", t)
    else
      var (field, rest) := ReadPlain(t[1..]);
      ([t[0]] + field, rest)
  }

  /** A quoted field after its opening quotation mark. */
  function ReadQuoted(t: string): (r: Option<(string, string)>)
    ensures r.Some? ==> |r.value.1| < |t|
  {
    if t == "" then None
    else if t[0] != '"' then
      match ReadQuoted(t[1..])
      case None => None
      case Some((field, rest)) => Some(([t[0]] + field, rest))
    else if |t| > 1 && t[1] == '"' then
      match ReadQuoted(t[2..])
      case None => None
      case Some((field, rest)) => Some((['"'] + field, rest))
    else Some(("", t[1..]))
  }

  function ReadField(t: string): (r: Option<(string, string)>)
    ensures r.Some? ==> |r.value.1| <= |t|
  {
    if t != "" && t[0] == '"' then ReadQuoted(t[1..]) else Some(ReadPlain(t))
  }

  function ReadRecord(t: string): (r: Option<(seq<string>, string)>)
    ensures r.Some? ==> |r.value.1| <= |t|
    decreases |t|
  {
    match ReadField(t)
    case None => None
    case Some((field, rest)) =>
      if rest != "" && rest[0] == ',' then
        match ReadRecord(rest[1..])
        case None => None
        case Some((fields, tail)) => Some(([field] + fields, tail))
      else Some(([field], rest))
  }

  function LineBreak(t: string): (n: nat)
    ensures n <= |t|
  {
    if t != "" && t[0] == '\n' then 1 else if |t| > 1 && t[0] == '\r' && t[1] == '\n' then 2 else 0
  }

  /** The records of a file, whose last record may or may not have an ending line break. */
  function ReadTable(t: string): Option<seq<seq<string>>>
    decreases |t|
  {
    match ReadRecord(t)
    case None => None
    case Some((fields, rest)) =>
      if rest == "" then Some([fields])
      else if LineBreak(rest) == 0 then None
      else if rest[LineBreak(rest)..] == "" then Some([fields])
      else
        match ReadTable(rest[LineBreak(rest)..])
        case None => None
        case Some(records) => Some([fields] + records)
  }

  // ----- Round trips -----

  function FieldTexts(cells: seq<Cell>): (r: seq<string>)
    ensures |r| == |cells| && forall i :: 0 <= i < |cells| ==> r[i] == Neutralised(cells[i])
  {
    seq(|cells|, i requires 0 <= i < |cells| => Neutralised(cells[i]))
  }

  function TableTexts(rows: seq<seq<Cell>>): (r: seq<seq<string>>)
    ensures |r| == |rows| && forall i :: 0 <= i < |rows| ==> r[i] == FieldTexts(rows[i])
  {
    seq(|rows|, i requires 0 <= i < |rows| => FieldTexts(rows[i]))
  }

  ghost predicate FieldEnds(rest: string) { rest == "" || rest[0] in ",\n\r" }

  lemma {:induction false} ReadPlainText(s: string, rest: string)
    requires FieldEnds(rest) && forall i :: 0 <= i < |s| ==> !IsSpecial(s[i])
    ensures ReadPlain(s + rest) == (s, rest)
  {
    if s == "" {
      assert s + rest == rest;
    } else {
      ReadPlainText(s[1..], rest);
      assert (s + rest)[1..] == s[1..] + rest;
      assert s == [s[0]] + s[1..];
    }
  }

  lemma {:induction false} ReadQuotedChar(c: char, tail: string, s: string, rest: string)
    requires ReadQuoted(tail) == Some((s, rest))
    ensures ReadQuoted(DoubledChar(c) + tail) == Some(([c] + s, rest))
  {
    assert (DoubledChar(c) + tail)[|DoubledChar(c)|..] == tail;
  }

  lemma {:induction false} QuoteAssociates(head: string, doubled: string, rest: string)
    ensures head + doubled + "\"" + rest == head + (doubled + "\"" + rest)
  {
  }

  lemma {:induction false} ReadDoubled(s: string, rest: string)
    requires rest == "" || rest[0] != '"'
    ensures ReadQuoted(DoubleQuotes(s) + "\"" + rest) == Some((s, rest))
  {
    if s == "" {
      assert (DoubleQuotes(s) + "\"" + rest)[1..] == rest;
    } else {
      var others := DoubleQuotes(s[1..]);
      ReadDoubled(s[1..], rest);
      ReadQuotedChar(s[0], others + "\"" + rest, s[1..], rest);
      QuoteAssociates(DoubledChar(s[0]), others, rest);
      assert s == [s[0]] + s[1..];
    }
  }

  lemma {:induction false} ReadEscaped(s: string, rest: string)
    requires FieldEnds(rest)
    ensures ReadField(EscapeText(s) + rest) == Some((s, rest))
  {
    if exists i :: 0 <= i < |s| && IsSpecial(s[i]) {
      var body := DoubleQuotes(s) + "\"" + rest;
      ReadDoubled(s, rest);
      assert EscapeText(s) + rest == "\"" + body;
      assert ("\"" + body)[1..] == body;
    } else {
      ReadPlainText(s, rest);
      if s != "" { assert !IsSpecial(s[0]); }
    }
  }

  lemma {:induction false} ReadRecordStep(t: string, field: string, more: string)
    requires ReadField(t) == Some((field, "," + more))
    ensures ReadRecord(t) == if ReadRecord(more).None? then None
                             else Some(([field] + ReadRecord(more).value.0, ReadRecord(more).value.1))
  {
    assert ("," + more)[1..] == more;
  }

  lemma {:induction false} CommaAssociates(first: string, others: string, rest: string)
    ensures first + "," + others + rest == first + ("," + (others + rest))
  {
  }

  /** Reading a written record returns the neutralised texts of its cells, in order. */
  lemma {:induction false} ReadWrittenRecord(cells: seq<Cell>, rest: string)
    requires cells != [] && (rest == "" || rest[0] in "\n\r")
    ensures ReadRecord(Record(cells) + rest) == Some((FieldTexts(cells), rest))
  {
    var first, field := EscapeCell(cells[0]), Neutralised(cells[0]);
    if |cells| == 1 {
      ReadEscaped(field, rest);
      assert FieldTexts(cells) == [field];
    } else {
      var more := Record(cells[1..]) + rest;
      ReadWrittenRecord(cells[1..], rest);
      ReadEscaped(field, "," + more);
      CommaAssociates(first, Record(cells[1..]), rest);
      ReadRecordStep(first + ("," + more), field, more);
      assert FieldTexts(cells) == [field] + FieldTexts(cells[1..]);
    }
  }

  lemma {:induction false} RecordEmpty(cells: seq<Cell>)
    requires cells != []
    ensures Record(cells) == "" <==> FieldTexts(cells) == [""]
  {
    assert FieldTexts(cells)[0] == Neutralised(cells[0]);
    if |cells| == 1 { assert FieldTexts(cells) == [Neutralised(cells[0])]; }
  }

  lemma {:induction false} TableEmpty(rows: seq<seq<Cell>>)
    requires rows != [] && forall i :: 0 <= i < |rows| ==> rows[i] != []
    ensures Table(rows) == "" <==> |rows| == 1 && FieldTexts(rows[0]) == [""]
  {
    RecordEmpty(rows[0]);
  }

  lemma {:induction false} ReadStep(t: string, fields: seq<string>, more: string)
    requires ReadRecord(t) == Some((fields, "\n" + more))
    ensures ReadTable(t) ==
            if more == "" then Some([fields])
            else if ReadTable(more).None? then None else Some([fields] + ReadTable(more).value)
  {
    assert ("\n" + more)[1..] == more;
  }

  lemma {:induction false} ReadLast(t: string, fields: seq<string>)
    requires ReadRecord(t) == Some((fields, ""))
    ensures ReadTable(t) == Some([fields])
  {
  }

  /** A file whose last record is a single empty field, below other records, reads back without it:
      its text is the file without that record, ended by a line break. */
  ghost predicate EndsBlank(rows: seq<seq<Cell>>) { |rows| > 1 && FieldTexts(rows[|rows| - 1]) == [""] }

  /** The records that a written table reads back as. */
  ghost function ReadBack(rows: seq<seq<Cell>>): seq<seq<string>> {
    if EndsBlank(rows) then TableTexts(rows)[..|rows| - 1] else TableTexts(rows)
  }

  lemma {:induction false} TableTextsCons(rows: seq<seq<Cell>>)
    requires |rows| > 1
    ensures TableTexts(rows) == [FieldTexts(rows[0])] + TableTexts(rows[1..])
    ensures TableTexts(rows)[..|rows| - 1] == [FieldTexts(rows[0])] + TableTexts(rows[1..])[..|rows| - 2]
    ensures rows[1..][|rows| - 2] == rows[|rows| - 1]
  {
  }

  /** A blank last record is lost together with the line break before it; other tables lose nothing. */
  lemma {:induction false} ReadBackCons(rows: seq<seq<Cell>>)
    requires |rows| > 1
    ensures var rest, first := rows[1..], [FieldTexts(rows[0])];
            ReadBack(rows) == if |rest| == 1 && FieldTexts(rest[0]) == [""] then first else first + ReadBack(rest)
  {
    hide FieldTexts, TableTexts;
    TableTextsCons(rows);
  }

  lemma {:induction false} ReadWrittenTable(rows: seq<seq<Cell>>)
    requires rows != [] && forall i :: 0 <= i < |rows| ==> rows[i] != []
    ensures ReadTable(Table(rows)) == Some(ReadBack(rows))
  {
    hide ReadTable, ReadRecord, Record, FieldTexts;
    var fields := FieldTexts(rows[0]);
    if |rows| == 1 {
      ReadWrittenRecord(rows[0], "");
      assert Record(rows[0]) + "" == Table(rows);
      ReadLast(Table(rows), fields);
      assert TableTexts(rows) == [fields];
    } else {
      var rest := rows[1..];
      ReadWrittenTable(rest);
      TableEmpty(rest);
      ReadWrittenRecord(rows[0], "\n" + Table(rest));
      assert Table(rows) == Record(rows[0]) + ("\n" + Table(rest));
      ReadStep(Table(rows), fields, Table(rest));
      ReadBackCons(rows);
    }
  }

  /** A written file reads back exactly, except when its last record is a blank below others. */
  lemma {:induction false} TableRoundTrip(rows: seq<seq<Cell>>)
    requires rows != [] && forall i :: 0 <= i < |rows| ==> rows[i] != []
    ensures ReadTable(Table(rows)) == Some(TableTexts(rows)) <==> !EndsBlank(rows)
  {
    ReadWrittenTable(rows);
    if EndsBlank(rows) { assert |TableTexts(rows)[..|rows| - 1]| < |TableTexts(rows)|; }
  }

  /** No text read back from a written file is one that a spreadsheet would evaluate. */
  lemma {:induction false} NoFormulaReadBack(rows: seq<seq<Cell>>, records: seq<seq<string>>, i: nat, j: nat)
    requires forall k :: 0 <= k < |rows| ==> rows[k] != []
    requires rows != [] && ReadTable(Table(rows)) == Some(records)
    requires i < |records| && i < |rows| && j < |rows[i]| && rows[i][j].Text?
    ensures j < |records[i]| && !IsFormula(records[i][j])
  {
    ReadWrittenTable(rows);
    assert records[i] == FieldTexts(rows[i]);
  }

  /** What a reader gets for each cell of a written file: nothing for a missing value, a number as it was,
      and a text as it was but for an apostrophe where it would start a formula. */
  lemma {:induction false} CellReadBack(rows: seq<seq<Cell>>, records: seq<seq<string>>, i: nat, j: nat)
    requires forall k :: 0 <= k < |rows| ==> rows[k] != []
    requires rows != [] && ReadTable(Table(rows)) == Some(records)
    requires i < |records|
    ensures i < |rows| && |records[i]| == |rows[i]|
    ensures j < |rows[i]| ==>
              match rows[i][j]
              case Missing => records[i][j] == ""
              case Number(numeral) => records[i][j] == numeral
              case Text(s) =>
                if s != "" && s[0] in {'=', '+', '-', '@', '\t', '\r'} then records[i][j] == "'" + s
                else records[i][j] == s
  {
    ReadWrittenTable(rows);
    assert records[i] == FieldTexts(rows[i]);
  }

  /** Two text cells are written alike exactly when they are equal or one is the neutralised form of
      the other, so the apostrophe is the only thing a reader cannot take back. */
  lemma {:induction false} WrittenAlike(s: string, t: string)
    ensures EscapeCell(Text(s)) == EscapeCell(Text(t)) <==>
            s == t || (IsFormula(s) && t == "'" + s) || (IsFormula(t) && s == "'" + t)
  {
    var u, v := Neutralised(Text(s)), Neutralised(Text(t));
    ReadEscaped(u, "");
    ReadEscaped(v, "");
    assert EscapeText(u) + "" == EscapeText(u) && EscapeText(v) + "" == EscapeText(v);
    assert EscapeText(u) == EscapeText(v) <==> u == v;
    assert ("'" + s)[1..] == s && ("'" + t)[1..] == t;
  }
}
