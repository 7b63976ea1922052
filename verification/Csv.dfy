/**
 The CSV writer of `src/modules/admin-finance/admin-finance.service.ts`, and a reader after section 2
 of RFC 4180 that it is judged against.
 */
module Csv {
  import opened Common

  // ---------- the writer

  /** A cell is `null` or a text; other values are turned into text before. */
  type Cell = Option<string>

  const BOM: char := '\U{FEFF}'

  function DoubleQuotes(text: string): string {
    if text == "" then ""
    else (if text[0] == '"' then "\"\"" else [text[0]]) + DoubleQuotes(text[1..])
  }

  function CsvCell(cell: Cell): string {
    match cell
    case None => ""
    case Some(text) => "\"" + DoubleQuotes(text) + "\""
  }

  function JoinCells(row: seq<Cell>): string {
    if row == [] then ""
    else if |row| == 1 then CsvCell(row[0])
    else CsvCell(row[0]) + "," + JoinCells(row[1..])
  }

  /** Every line ends in CRLF: the lines are joined by it and one more follows the last. */
  function JoinLines(rows: seq<seq<Cell>>): string {
    if rows == [] then "" else JoinCells(rows[0]) + "\r\n" + JoinLines(rows[1..])
  }

  function Headers(headers: seq<string>): (row: seq<Cell>)
    ensures |row| == |headers| && forall i :: 0 <= i < |row| ==> row[i] == Some(headers[i])
  {
    seq(|headers|, i requires 0 <= i < |headers| => Some(headers[i]))
  }

  function ToCsv(headers: seq<string>, rows: seq<seq<Cell>>): string {
    [BOM] + JoinLines([Headers(headers)] + rows)
  }

  // ---------- the reader

  type Record = seq<string>

  /**
   Where the reader stands: before the first character of a field; inside an unquoted field; inside a
   quoted field; after a quote in a quoted field, which ends the field or is the first of a pair;
   after a CR that must be followed by LF; after a complete record; or refusing the text.
   */
  datatype Mode = FieldStart | Unquoted | Quoted | QuoteSeen | CrSeen | RecordEnd | Refused

  datatype Reader = Reader(mode: Mode, field: string, record: Record, records: seq<Record>)

  function EndField(r: Reader, mode: Mode): Reader {
    Reader(mode, "", r.record + [r.field], r.records)
  }

  function Refuse(r: Reader): Reader {
    r.(mode := Refused)
  }

  function Read(r: Reader, c: char): Reader {
    match r.mode
    case Refused => r
    case Quoted => if c == '"' then r.(mode := QuoteSeen) else r.(field := r.field + [c])
    case QuoteSeen =>
      if c == '"' then r.(mode := Quoted, field := r.field + [c])
      else if c == ',' then EndField(r, FieldStart)
      else if c == '\r' then EndField(r, CrSeen)
      else Refuse(r)
    case CrSeen => if c == '\n' then Reader(RecordEnd, "", [], r.records + [r.record]) else Refuse(r)
    case _ =>
      if c == ',' then EndField(r, FieldStart)
      else if c == '\r' then EndField(r, CrSeen)
      else if c == '"' then if r.mode == Unquoted then Refuse(r) else r.(mode := Quoted)
      else if c == '\n' then Refuse(r)
      else r.(mode := Unquoted, field := r.field + [c])
  }

  function ReadAll(r: Reader, text: string): Reader
    decreases text
  {
    if text == "" then r else ReadAll(Read(r, text[0]), text[1..])
  }

  /** The records of a CSV text, or None if it is not one. The CRLF after the last record is optional. */
  function Parse(text: string): Option<seq<Record>> {
    var r := ReadAll(Reader(FieldStart, "", [], []), text);
    match r.mode
    case Refused => None
    case Quoted => None
    case CrSeen => None
    case RecordEnd => Some(r.records)
    case _ => Some(r.records + [r.record + [r.field]])
  }

  function DropBom(text: string): string {
    if text != "" && text[0] == BOM then text[1..] else text
  }

  // ---------- the round trip

  function ReadCell(cell: Cell): string {
    if cell.Some? then cell.value else ""
  }

  function ReadRow(row: seq<Cell>): (record: Record)
    ensures |record| == |row| && forall i :: 0 <= i < |row| ==> record[i] == ReadCell(row[i])
  {
    seq(|row|, i requires 0 <= i < |row| => ReadCell(row[i]))
  }

  /** A row without cells prints as an empty line, which reads as one empty field. */
  function LineRecord(row: seq<Cell>): Record {
    if row == [] then [""] else ReadRow(row)
  }

  function LineRecords(rows: seq<seq<Cell>>): (records: seq<Record>)
    ensures |records| == |rows| && forall i :: 0 <= i < |rows| ==> records[i] == LineRecord(rows[i])
  {
    seq(|rows|, i requires 0 <= i < |rows| => LineRecord(rows[i]))
  }

  lemma {:induction false} ReadAllConcat(r: Reader, a: string, b: string)
    ensures ReadAll(r, a + b) == ReadAll(ReadAll(r, a), b)
    decreases a
  {
    if a == "" {
      assert a + b == b;
    } else {
      assert (a + b)[1..] == a[1..] + b;
      ReadAllConcat(Read(r, a[0]), a[1..], b);
    }
  }

  lemma ReadPair(r: Reader, a: char, b: char)
    ensures ReadAll(r, [a, b]) == Read(Read(r, a), b)
  {
    assert [a, b][1..] == [b] && [b][1..] == [];
    assert ReadAll(r, [a, b]) == ReadAll(Read(r, a), [b]);
  }

  /** Inside quotes, doubling is undone and every other character stands for itself. */
  lemma {:induction false} ReadDoubled(r: Reader, text: string)
    requires r.mode == Quoted
    ensures ReadAll(r, DoubleQuotes(text)) == r.(field := r.field + text)
    decreases text
  {
    if text == "" {
      assert r.field + text == r.field;
    } else {
      var head := if text[0] == '"' then "\"\"" else [text[0]];
      var r1 := r.(field := r.field + [text[0]]);
      ReadAllConcat(r, head, DoubleQuotes(text[1..]));
      assert ReadAll(r, head) == r1 by {
        if text[0] == '"' {
          ReadPair(r, '"', '"');
        }
      }
      ReadDoubled(r1, text[1..]);
      assert r1.field + text[1..] == r.field + text;
    }
  }

  ghost predicate AtFieldStart(r: Reader) {
    (r.mode == FieldStart || (r.mode == RecordEnd && r.record == [])) && r.field == ""
  }

  /** A printed cell leaves the reader at the end of a field that holds exactly the cell's text. */
  lemma ReadPrintedCell(r: Reader, cell: Cell)
    requires AtFieldStart(r)
    ensures var r' := ReadAll(r, CsvCell(cell));
            && r'.field == ReadCell(cell) && r'.record == r.record && r'.records == r.records
            && (r'.mode == r.mode || r'.mode == QuoteSeen)
  {
    if cell.Some? {
      var doubled := DoubleQuotes(cell.value);
      var r1 := r.(mode := Quoted);
      assert CsvCell(cell) == "\"" + (doubled + "\"");
      ReadAllConcat(r, "\"", doubled + "\"");
      ReadAllConcat(r1, doubled, "\"");
      ReadDoubled(r1, cell.value);
      assert "" + cell.value == cell.value;
    }
  }

  lemma Regroup(a: string, b: string, c: string, d: string)
    ensures (a + b + c) + d == a + (b + (c + d))
  {
  }

  /** The first of several cells, and the comma after it, are read as one field. */
  lemma ReadFirstOfMany(r: Reader, row: seq<Cell>)
    requires AtFieldStart(r) && |row| > 1
    ensures ReadAll(r, JoinCells(row) + "\r\n")
         == ReadAll(Reader(FieldStart, "", r.record + [ReadCell(row[0])], r.records), JoinCells(row[1..]) + "\r\n")
  {
    var rest := JoinCells(row[1..]) + "\r\n";
    var r1 := ReadAll(r, CsvCell(row[0]));
    ReadPrintedCell(r, row[0]);
    Regroup(CsvCell(row[0]), ",", JoinCells(row[1..]), "\r\n");
    ReadAllConcat(r, CsvCell(row[0]), "," + rest);
    ReadAllConcat(r1, ",", rest);
    ReadSeparator(r1);
  }

  lemma ReadOnlyCell(r: Reader, row: seq<Cell>)
    requires AtFieldStart(r) && |row| == 1
    ensures ReadAll(r, JoinCells(row) + "\r\n") == Reader(RecordEnd, "", [], r.records + [r.record + ReadRow(row)])
  {
    ReadPrintedCell(r, row[0]);
    ReadAllConcat(r, CsvCell(row[0]), "\r\n");
    ReadLineEnd(ReadAll(r, CsvCell(row[0])));
    assert ReadRow(row) == [ReadCell(row[0])];
  }

  lemma ReadNoCells(r: Reader)
    requires AtFieldStart(r) && r.record == []
    ensures ReadAll(r, JoinCells([]) + "\r\n") == Reader(RecordEnd, "", [], r.records + [[""]])
  {
    ReadLineEnd(r);
    assert r.record + [r.field] == [""];
    assert JoinCells([]) + "\r\n" == "\r\n";
  }

  /** A printed row and its CRLF make the reader add exactly that row's record. */
  lemma {:induction false} ReadPrintedLine(r: Reader, row: seq<Cell>)
    requires AtFieldStart(r) && (row == [] ==> r.record == [])
    ensures ReadAll(r, JoinCells(row) + "\r\n")
         == Reader(RecordEnd, "", [], r.records + [if row == [] then [""] else r.record + ReadRow(row)])
    decreases row
  {
    hide ReadAll, JoinCells, ReadCell, AtFieldStart;
    if row == [] {
      ReadNoCells(r);
    } else if |row| == 1 {
      ReadOnlyCell(r, row);
    } else {
      var r2 := Reader(FieldStart, "", r.record + [ReadCell(row[0])], r.records);
      ReadFirstOfMany(r, row);
      NewField(r2);
      ReadPrintedLine(r2, row[1..]);
      assert r2.record + ReadRow(row[1..]) == r.record + ReadRow(row);
    }
  }

  lemma NewField(r: Reader)
    requires r.mode == FieldStart && r.field == ""
    ensures AtFieldStart(r)
  {
  }

  lemma ReadSeparator(r: Reader)
    requires r.mode == FieldStart || r.mode == RecordEnd || r.mode == QuoteSeen
    ensures ReadAll(r, ",") == EndField(r, FieldStart)
  {
  }

  lemma ReadLineEnd(r: Reader)
    requires r.mode == FieldStart || r.mode == RecordEnd || r.mode == QuoteSeen
    ensures ReadAll(r, "\r\n") == Reader(RecordEnd, "", [], r.records + [r.record + [r.field]])
  {
    ReadPair(r, '\r', '\n');
  }

  lemma ReadNothing(r: Reader)
    ensures ReadAll(r, "") == r
  {
  }

  lemma ReadFirstLine(r: Reader, rows: seq<seq<Cell>>)
    requires r.mode == RecordEnd && r.field == "" && r.record == [] && rows != []
    ensures ReadAll(r, JoinLines(rows))
         == ReadAll(Reader(RecordEnd, "", [], r.records + [LineRecord(rows[0])]), JoinLines(rows[1..]))
  {
    ReadAllConcat(r, JoinCells(rows[0]) + "\r\n", JoinLines(rows[1..]));
    ReadPrintedLine(r, rows[0]);
    assert r.record + ReadRow(rows[0]) == ReadRow(rows[0]);
    hide ReadAll, ReadRow, JoinCells;
  }

  lemma LineRecordsSplit(records: seq<Record>, rows: seq<seq<Cell>>)
    requires rows != []
    ensures records + [LineRecord(rows[0])] + LineRecords(rows[1..]) == records + LineRecords(rows)
  {
    hide LineRecord;
    assert LineRecords(rows) == [LineRecord(rows[0])] + LineRecords(rows[1..]);
  }

  lemma {:induction false} ReadPrintedLines(r: Reader, rows: seq<seq<Cell>>)
    requires r.mode == RecordEnd && r.field == "" && r.record == []
    ensures ReadAll(r, JoinLines(rows)) == Reader(RecordEnd, "", [], r.records + LineRecords(rows))
    decreases rows
  {
    if rows == [] {
      ReadNothing(r);
      assert r.records + LineRecords(rows) == r.records;
    } else {
      hide ReadAll, JoinLines, LineRecord, LineRecords;
      var r1 := Reader(RecordEnd, "", [], r.records + [LineRecord(rows[0])]);
      ReadFirstLine(r, rows);
      ReadPrintedLines(r1, rows[1..]);
      LineRecordsSplit(r.records, rows);
    }
  }

  /**
   Whatever quotes, commas and line ends the cells hold, reading the printed table gives back its
   lines cell by cell, `null` reading as the empty text.
   */
  lemma ParseToCsv(headers: seq<string>, rows: seq<seq<Cell>>)
    ensures Parse(DropBom(ToCsv(headers, rows))) == Some(LineRecords([Headers(headers)] + rows))
  {
    var table := [Headers(headers)] + rows;
    var r := Reader(FieldStart, "", [], []);
    var r1 := Reader(RecordEnd, "", [], [LineRecord(table[0])]);
    ReadHeader(headers);
    CsvIs(headers, rows);
    hide ReadAll, JoinLines, JoinCells, Headers, LineRecord, ToCsv, LineRecords;
    ReadAllConcat(r, JoinCells(table[0]) + "\r\n", JoinLines(rows));
    ReadPrintedLines(r1, rows);
    assert table[1..] == rows;
    LineRecordsSplit([], table);
    assert [] + [LineRecord(table[0])] == [LineRecord(table[0])] && [] + LineRecords(table) == LineRecords(table);
  }

  lemma ReadHeader(headers: seq<string>)
    ensures ReadAll(Reader(FieldStart, "", [], []), JoinCells(Headers(headers)) + "\r\n")
         == Reader(RecordEnd, "", [], [LineRecord(Headers(headers))])
  {
    var row := Headers(headers);
    ReadPrintedLine(Reader(FieldStart, "", [], []), row);
    assert [] + ReadRow(row) == ReadRow(row);
    hide ReadAll, JoinCells;
  }

  /** The file is the mark, the line of the headers, and the lines of the rows. */
  lemma CsvIs(headers: seq<string>, rows: seq<seq<Cell>>)
    ensures DropBom(ToCsv(headers, rows)) == JoinCells(Headers(headers)) + "\r\n" + JoinLines(rows)
  {
    var table := [Headers(headers)] + rows;
    assert table[1..] == rows;
    hide JoinCells, Headers;
  }

  /** The file begins with the mark that lets spreadsheets read it as UTF-8, and what follows is the table. */
  lemma BeginsWithMark(headers: seq<string>, rows: seq<seq<Cell>>)
    ensures var text := ToCsv(headers, rows);
            text != "" && text[0] == '\U{FEFF}' && Parse(text[1..]) == Some(LineRecords([Headers(headers)] + rows))
  {
    ParseToCsv(headers, rows);
    hide Parse, JoinLines, LineRecords, Headers;
  }

  /** The records a table stands for. */
  function TableRecords(headers: seq<string>, rows: seq<seq<Cell>>): (records: seq<Record>)
    ensures |records| == 1 + |rows|
  {
    [headers] + seq(|rows|, i requires 0 <= i < |rows| => ReadRow(rows[i]))
  }

  lemma LineReadsAsMeantIff(headers: seq<string>, rows: seq<seq<Cell>>, k: nat)
    requires k <= |rows|
    ensures LineRecords([Headers(headers)] + rows)[k] == TableRecords(headers, rows)[k]
       <==> if k == 0 then headers != [] else rows[k - 1] != []
  {
    assert ReadRow(Headers(headers)) == headers;
  }

  /** The round trip gives back the table exactly when no line of it is without cells. */
  lemma RoundTripIff(headers: seq<string>, rows: seq<seq<Cell>>)
    ensures Parse(DropBom(ToCsv(headers, rows))) == Some(TableRecords(headers, rows))
       <==> NoEmptyLine(headers, rows)
  {
    ParseToCsv(headers, rows);
    var read, meant := LineRecords([Headers(headers)] + rows), TableRecords(headers, rows);
    forall k | 0 <= k < |read|
      ensures read[k] == meant[k] <==> if k == 0 then headers != [] else rows[k - 1] != []
    {
      LineReadsAsMeantIff(headers, rows, k);
    }
    if read == meant {
      assert read[0] == meant[0];
      forall i | 0 <= i < |rows| ensures rows[i] != [] {
        assert read[i + 1] == meant[i + 1];
      }
    }
  }

  /** Two tables print alike only if they read alike; without empty lines they then hold the same texts throughout. */
  lemma PrintingIsInjective(h1: seq<string>, rows1: seq<seq<Cell>>, h2: seq<string>, rows2: seq<seq<Cell>>)
    requires ToCsv(h1, rows1) == ToCsv(h2, rows2)
    ensures LineRecords([Headers(h1)] + rows1) == LineRecords([Headers(h2)] + rows2)
    ensures NoEmptyLine(h1, rows1) && NoEmptyLine(h2, rows2) ==> TableRecords(h1, rows1) == TableRecords(h2, rows2)
  {
    ParseToCsv(h1, rows1);
    ParseToCsv(h2, rows2);
    RoundTripIff(h1, rows1);
    RoundTripIff(h2, rows2);
  }

  predicate NoEmptyLine(headers: seq<string>, rows: seq<seq<Cell>>) {
    headers != [] && forall i :: 0 <= i < |rows| ==> rows[i] != []
  }
}
