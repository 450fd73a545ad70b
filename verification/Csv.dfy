/** Delimited output of the shell: `crates/cli/src/render.rs`. */
module DelimitedOutput {
  import opened Chars
  import opened Quoting

  datatype Mode = Csv | Tabs | List

  datatype Cell = Null | Value(text: string)

  predicate IsPlain(text: string) {
    forall c <- text :: c !in {',', '"', '\''} && !IsWhitespace(c)
  }

  /** `csv_needs_quotes`. */
  predicate NeedsQuotes(text: string, separator: string) {
    text != "" && (Contains(text, separator) || !IsPlain(text))
  }

  function Quoted(text: string): string {
    "\"" + Doubled(text, '"') + "\""
  }

  /** `write_csv_cell`, `write_tabs_cell` or the text itself. */
  function CellText(mode: Mode, separator: string, text: string): string {
    match mode
    case Csv => if NeedsQuotes(text, separator) then Quoted(text) else text
    case Tabs => if exists c <- text :: c in {'\'', '"', '\n', '\r'} then Quoted(text) else text
    case List => text
  }

  function RowText(mode: Mode, separator: string, cells: seq<string>): string {
    if cells == [] then ""
    else if |cells| == 1 then CellText(mode, separator, cells[0])
    else CellText(mode, separator, cells[0]) + separator + RowText(mode, separator, cells[1..])
  }

  function Terminator(mode: Mode): string {
    if mode.Csv? then "\r\n" else "\n"
  }

  /** Every line ends with the terminator. */
  function LinesText(mode: Mode, separator: string, lines: seq<seq<string>>): string {
    if lines == [] then ""
    else RowText(mode, separator, lines[0]) + Terminator(mode) + LinesText(mode, separator, lines[1..])
  }

  function Shown(cell: Cell, nullValue: string): string {
    if cell.Null? then nullValue else cell.text
  }

  function ShownRow(row: seq<Cell>, nullValue: string): seq<string> {
    seq(|row|, i requires 0 <= i < |row| => Shown(row[i], nullValue))
  }

  function ShownRows(rows: seq<seq<Cell>>, nullValue: string): seq<seq<string>> {
    seq(|rows|, i requires 0 <= i < |rows| => ShownRow(rows[i], nullValue))
  }

  /** The text a table is printed as. */
  function TableText(mode: Mode, separator: string, columns: seq<string>, rows: seq<seq<Cell>>, showHeader: bool,
                     nullValue: string): string
  {
    LinesText(mode, separator, TableLines(columns, rows, showHeader, nullValue))
  }

  /** The lines a table is printed as: the header, when shown and not empty, and one per row. */
  function TableLines(columns: seq<string>, rows: seq<seq<Cell>>, showHeader: bool, nullValue: string)
    : seq<seq<string>>
  {
    (if showHeader && columns != [] then [columns] else []) + ShownRows(rows, nullValue)
  }

  class Writer {
    var out: string

    constructor ()
      ensures out == ""
    {
      out := "";
    }

    method WriteDelimitedRow(cells: seq<string>, mode: Mode, separator: string, appendNewline: bool)
      modifies this
      ensures out == old(out) + RowText(mode, separator, cells) + if appendNewline then "\n" else ""
    {
      hide RowText, CellText;
      var first := true;
      ghost var done := "";
      RowTextOfNothing(mode, separator);
      for i := 0 to |cells|
        invariant first == (i == 0)
        invariant out == old(out) + done && done == RowText(mode, separator, cells[..i])
      {
        if !first {
          out := out + separator;
        }
        first := false;
        out := out + CellText(mode, separator, cells[i]);
        assert cells[..i + 1] == cells[..i] + [cells[i]];
        RowTextAppend(mode, separator, cells[..i], cells[i]);
        done := done + (if i == 0 then "" else separator) + CellText(mode, separator, cells[i]);
      }
      assert cells[..|cells|] == cells;
      if appendNewline {
        out := out + "\n";
      }
    }

    method RenderDelimited(mode: Mode, separator: string, columns: seq<string>, rows: seq<seq<Cell>>,
                           showHeader: bool, nullValue: string)
      modifies this
      ensures out == old(out) + TableText(mode, separator, columns, rows, showHeader, nullValue)
    {
      hide RowText, LinesText, Terminator, ShownRow;
      ghost var lines := TableLines(columns, rows, showHeader, nullValue);
      ghost var header := |lines| - |rows|;
      ghost var done := "";
      LinesTextOfNothing(mode, separator);
      var wroteAnything := false;
      if showHeader && |columns| > 0 {
        WriteDelimitedRow(columns, mode, separator, false);
        wroteAnything := true;
        LinesTextAppend(mode, separator, [], columns);
        assert lines[..1] == [] + [columns];
        done := RowText(mode, separator, columns);
      }
      for i := 0 to |rows|
        invariant wroteAnything == (header + i > 0) && out == old(out) + done
        invariant wroteAnything ==> done + Terminator(mode) == LinesText(mode, separator, lines[..header + i])
        invariant !wroteAnything ==> done == ""
      {
        ghost var k := header + i;
        if wroteAnything {
          out := out + Terminator(mode);
          done := done + Terminator(mode);
        }
        var values := ShownRow(rows[i], nullValue);
        WriteDelimitedRow(values, mode, separator, false);
        wroteAnything := true;
        assert lines[..k + 1] == lines[..k] + [values];
        LinesTextAppend(mode, separator, lines[..k], values);
        assert done == LinesText(mode, separator, lines[..k]);
        done := done + RowText(mode, separator, values);
      }
      assert lines[..header + |rows|] == lines;
      if wroteAnything {
        out := out + Terminator(mode);
      }
    }
  }

  lemma RowTextOfNothing(mode: Mode, separator: string)
    ensures RowText(mode, separator, []) == ""
  {
  }

  lemma LinesTextOfNothing(mode: Mode, separator: string)
    ensures LinesText(mode, separator, []) == ""
  {
  }

  lemma {:induction false} RowTextAppend(mode: Mode, separator: string, cells: seq<string>, last: string)
    ensures RowText(mode, separator, cells + [last]) ==
            RowText(mode, separator, cells) + (if cells == [] then "" else separator) + CellText(mode, separator, last)
  {
    hide CellText;
    if cells != [] {
      assert (cells + [last])[1..] == cells[1..] + [last];
      RowTextAppend(mode, separator, cells[1..], last);
    }
  }

  lemma {:induction false} LinesTextAppend(mode: Mode, separator: string, lines: seq<seq<string>>, last: seq<string>)
    ensures LinesText(mode, separator, lines + [last]) ==
            LinesText(mode, separator, lines) + RowText(mode, separator, last) + Terminator(mode)
  {
    hide RowText;
    if lines != [] {
      assert (lines + [last])[1..] == lines[1..] + [last];
      LinesTextAppend(mode, separator, lines[1..], last);
    } else {
      assert lines + [last] == [last];
    }
  }
}

/** A reader of section 2 of RFC 4180, for any separator. */
module CsvReader {
  import opened Chars
  import opened Quoting

  predicate StartsWith(s: string, separator: string) {
    separator != "" && separator <= s
  }

  function ReadPlain(s: string, separator: string): (r: (string, string))
    ensures |r.1| <= |s|
  {
    if s == "" || StartsWith(s, separator) || s[0] in {'"', '\r', '\n'} then ("", s)
    else
      var (text, rest) := ReadPlain(s[1..], separator);
      ([s[0]] + text, rest)
  }

  function ReadField(s: string, separator: string): (r: Option<(string, string)>)
    ensures r.Some? ==> |r.value.1| <= |s|
  {
    if s != "" && s[0] == '"' then ReadQuoted(s[1..], '"') else Some(ReadPlain(s, separator))
  }

  /** One record and what follows it. */
  function ReadRecord(s: string, separator: string): (r: Option<(seq<string>, string)>)
    ensures r.Some? ==> |r.value.1| <= |s|
    decreases |s|
  {
    match ReadField(s, separator)
    case None => None
    case Some((text, rest)) =>
      if StartsWith(rest, separator) then
        match ReadRecord(rest[|separator|..], separator)
        case None => None
        case Some((fields, after)) => Some(([text] + fields, after))
      else Some(([text], rest))
  }

  /** Records are separated by `end`; the last one may end with it. */
  function ReadLines(s: string, separator: string, end: string): Option<seq<seq<string>>>
    decreases |s|
  {
    if s == "" then Some([])
    else
      match ReadRecord(s, separator)
      case None => None
      case Some((record, rest)) =>
        if rest == "" then Some([record])
        else if !StartsWith(rest, end) then None
        else
          match ReadLines(rest[|end|..], separator, end)
          case None => None
          case Some(records) => Some([record] + records)
  }

  function ReadFile(s: string, separator: string): Option<seq<seq<string>>> {
    ReadLines(s, separator, "\r\n")
  }
}

/** The CSV output is read back exactly. */
module CsvRoundTrip {
  import opened Chars
  import opened Quoting
  import opened Joining
  import opened DelimitedOutput
  import opened CsvReader

  // ---- Separators ----------------------------------------------------------------------------

  /** The separator begins as it ends, `m` characters in. */
  predicate Overlaps(separator: string, m: nat) {
    0 < m < |separator| && separator[m..] == separator[..|separator| - m]
  }

  ghost predicate Bordered(separator: string) {
    exists m: nat :: Overlaps(separator, m)
  }

  /** Neither a quote nor CR, which mean something else to the reader. */
  predicate IsClear(separator: string) {
    '"' !in separator && '\r' !in separator
  }

  /** Separators that cannot be taken for part of a cell. */
  ghost predicate IsSeparator(separator: string) {
    separator != "" && IsClear(separator) && !(IsPlain(separator) && Bordered(separator))
  }

  /** An overlapping separator repeats its first characters, so it is plain when they are. */
  lemma {:induction false} OverlapRepeats(separator: string, m: nat, i: nat)
    requires Overlaps(separator, m) && i < |separator|
    ensures separator[i] in separator[..m]
    decreases i
  {
    if i < m {
      assert separator[..m][i] == separator[i];
    } else {
      assert separator[m..][i - m] == separator[..|separator| - m][i - m];
      OverlapRepeats(separator, m, i - m);
    }
  }

  // ---- Cells ---------------------------------------------------------------------------------

  /** What may follow a cell: the end, the separator or the end of the line. */
  predicate EndsCell(rest: string, separator: string) {
    rest == "" || rest[0] == '\r' || separator <= rest
  }

  /** A separator that begins inside a plain cell and ends beyond it overlaps the one that follows. */
  lemma Straddle(text: string, separator: string, rest: string)
    requires IsClear(separator) && text != "" && IsPlain(text) && EndsCell(rest, separator)
    requires |text| < |separator| && separator <= text + rest
    ensures IsPlain(separator) && Bordered(separator)
  {
    hide IsWhitespace;
    var s, m := text + rest, |text|;
    assert separator == s[..|separator|];
    assert separator[..m] == text && separator[m..] == rest[..|separator| - m];
    assert separator[m] == rest[0] && separator[m] in separator;
    assert rest[..|separator| - m] == separator[..|separator| - m];
    assert Overlaps(separator, m);
    forall c | c in separator
      ensures c in text
    {
      var i :| 0 <= i < |separator| && separator[i] == c;
      OverlapRepeats(separator, m, i);
    }
  }

  lemma NoStraddle(text: string, separator: string, rest: string)
    requires IsSeparator(separator) && text != "" && IsPlain(text) && EndsCell(rest, separator)
    requires !(separator <= text)
    ensures !(separator <= text + rest)
  {
    hide IsPlain, EndsCell, Bordered;
    assert |separator| <= |text| ==> (text + rest)[..|separator|] == text[..|separator|];
    if |text| < |separator| && separator <= text + rest {
      Straddle(text, separator, rest);
    }
  }

  lemma {:induction false} PlainReads(text: string, separator: string, rest: string)
    requires IsSeparator(separator) && EndsCell(rest, separator) && IsPlain(text) && !Contains(text, separator)
    ensures ReadPlain(text + rest, separator) == (text, rest)
  {
    hide IsSeparator, IsWhitespace;
    assert separator != "" by { SeparatorIsThere(separator); }
    if text == "" {
      assert text + rest == rest;
    } else {
      NoStraddle(text, separator, rest);
      assert (text + rest)[0] == text[0] && (text + rest)[1..] == text[1..] + rest;
      assert text == [text[0]] + text[1..] && text[0] in text && forall c <- text[1..] :: c in text;
      assert text[0] !in {'\r', '\n'} by { LineBreaksAreSpace(); }
      PlainReads(text[1..], separator, rest);
    }
  }

  lemma SeparatorIsThere(separator: string)
    requires IsSeparator(separator)
    ensures separator != "" && separator[0] != '"' && separator[0] != '\r'
  {
    assert separator[0] in separator;
  }

  lemma LineBreaksAreSpace()
    ensures IsWhitespace('\r') && IsWhitespace('\n')
  {
  }

  lemma CellReads(text: string, separator: string, rest: string)
    requires IsSeparator(separator) && EndsCell(rest, separator)
    ensures ReadField(CellText(Csv, separator, text) + rest, separator) == Some((text, rest))
  {
    hide ReadQuoted, ReadPlain, Doubled, Contains, IsWhitespace, IsSeparator;
    SeparatorIsThere(separator);
    if NeedsQuotes(text, separator) {
      var s := Quoted(text) + rest;
      assert s[1..] == Doubled(text, '"') + "\"" + rest;
      QuotedReads(text, '"', rest);
    } else {
      NothingContains(separator);
      PlainReads(text, separator, rest);
      var s := CellText(Csv, separator, text) + rest;
      assert s == text + rest;
      assert s != "" ==> s[0] == if text == "" then rest[0] else text[0];
      assert text != "" ==> text[0] in text;
    }
  }

  /** A cell stands as it is exactly when it is empty, or free of the separator and of what forces quotes. */
  lemma BareExactly(text: string, separator: string)
    ensures CellText(Csv, separator, text) == text <==>
            text == "" || (!Contains(text, separator) &&
                           forall c <- text :: c != ',' && c != '"' && c != '\'' && !IsWhitespace(c))
  {
    hide Contains, IsWhitespace;
    DoubledGrows(text, '"');
    assert |Quoted(text)| > |text|;
  }

  lemma {:induction false} DoubledGrows(text: string, quote: char)
    ensures |Doubled(text, quote)| >= |text|
  {
    if text != "" {
      DoubledGrows(text[1..], quote);
    }
  }

  lemma NothingContains(part: string)
    requires part != ""
    ensures !Contains("", part)
  {
  }

  lemma {:induction false} ContainsFits(text: string, part: string)
    requires Contains(text, part)
    ensures |part| <= |text|
  {
    if !(part <= text) {
      ContainsFits(text[1..], part);
    }
  }

  // ---- Rows and files ------------------------------------------------------------------------

  /** What may follow a cell in a mode. */
  predicate Follows(mode: Mode, rest: string, separator: string) {
    rest == "" || rest[0] == Terminator(mode)[0] || separator <= rest
  }

  /** Whatever may follow it, a cell reads back. */
  ghost predicate CellIsRead(mode: Mode, separator: string, text: string) {
    forall rest :: Follows(mode, rest, separator) ==>
      ReadField(CellText(mode, separator, text) + rest, separator) == Some((text, rest))
  }

  ghost predicate RowIsRead(mode: Mode, separator: string, row: seq<string>) {
    forall text <- row :: CellIsRead(mode, separator, text)
  }

  /** A separator that is no line end, nor a quote, at its beginning. */
  predicate Divides(mode: Mode, separator: string) {
    separator != "" && separator[0] != Terminator(mode)[0] && separator[0] != '"'
  }

  /** A record begins with its first cell, and goes on after a separator. */
  lemma FirstFieldReads(mode: Mode, text: string, separator: string, rest: string)
    requires CellIsRead(mode, separator, text) && Follows(mode, rest, separator)
    ensures var s := CellText(mode, separator, text) + rest;
            ReadRecord(s, separator) ==
            if !StartsWith(rest, separator) then Some(([text], rest))
            else
              var more := ReadRecord(rest[|separator|..], separator);
              if more.None? then None else Some(([text] + more.value.0, more.value.1))
  {
    hide CellText, ReadField, Follows;
  }

  lemma RowBegins(mode: Mode, row: seq<string>, separator: string, rest: string)
    requires row != [] && RowIsRead(mode, separator, row)
    ensures CellIsRead(mode, separator, row[0]) && RowIsRead(mode, separator, row[1..])
    ensures RowText(mode, separator, row) + rest ==
            CellText(mode, separator, row[0]) +
            if |row| == 1 then rest else separator + (RowText(mode, separator, row[1..]) + rest)
  {
    hide CellText, CellIsRead;
  }

  lemma {:induction false} RowReads(mode: Mode, row: seq<string>, separator: string, rest: string)
    requires Divides(mode, separator) && row != [] && RowIsRead(mode, separator, row)
    requires rest == "" || rest[0] == Terminator(mode)[0]
    ensures ReadRecord(RowText(mode, separator, row) + rest, separator) == Some((row, rest))
    decreases |row|
  {
    hide CellText, ReadField, CellIsRead, ReadRecord, RowText, RowIsRead, Terminator;
    RowBegins(mode, row, separator, rest);
    if |row| == 1 {
      assert row == [row[0]];
      FirstFieldReads(mode, row[0], separator, rest);
      assert !StartsWith(rest, separator);
    } else {
      var after := separator + (RowText(mode, separator, row[1..]) + rest);
      assert after[|separator|..] == RowText(mode, separator, row[1..]) + rest;
      assert after[..|separator|] == separator;
      FirstFieldReads(mode, row[0], separator, after);
      RowReads(mode, row[1..], separator, rest);
      assert row == [row[0]] + row[1..];
    }
  }

  /** A row without cells prints as an empty line, which reads as one empty field. */
  function AsRead(row: seq<string>): seq<string> {
    if row == [] then [""] else row
  }

  function AllAsRead(lines: seq<seq<string>>): seq<seq<string>> {
    seq(|lines|, i requires 0 <= i < |lines| => AsRead(lines[i]))
  }

  lemma LineReads(mode: Mode, row: seq<string>, separator: string, rest: string)
    requires Divides(mode, separator) && RowIsRead(mode, separator, row)
    requires rest != "" && rest[0] == Terminator(mode)[0]
    ensures ReadRecord(RowText(mode, separator, row) + rest, separator) == Some((AsRead(row), rest))
  {
    if row == [] {
      assert RowText(mode, separator, row) + rest == rest;
      assert rest[0] in {'\r', '\n'};
    } else {
      RowReads(mode, row, separator, rest);
    }
  }

  lemma {:induction false} LinesReadBack(mode: Mode, lines: seq<seq<string>>, separator: string)
    requires Divides(mode, separator) && forall row <- lines :: RowIsRead(mode, separator, row)
    ensures ReadLines(LinesText(mode, separator, lines), separator, Terminator(mode)) == Some(AllAsRead(lines))
    decreases |lines|
  {
    hide RowText, ReadRecord, AsRead, RowIsRead;
    if lines == [] {
      assert AllAsRead(lines) == [];
    } else {
      var tail := LinesText(mode, separator, lines[1..]);
      var rest := Terminator(mode) + tail;
      assert LinesText(mode, separator, lines) == RowText(mode, separator, lines[0]) + rest;
      LineReads(mode, lines[0], separator, rest);
      assert rest[..|Terminator(mode)|] == Terminator(mode) && rest[|Terminator(mode)|..] == tail;
      LinesReadBack(mode, lines[1..], separator);
      assert AllAsRead(lines) == [AsRead(lines[0])] + AllAsRead(lines[1..]);
    }
  }

  lemma CsvCellIsRead(separator: string, text: string)
    requires IsSeparator(separator)
    ensures CellIsRead(Csv, separator, text)
  {
    hide IsSeparator, ReadField, CellText;
    forall rest | Follows(Csv, rest, separator)
      ensures ReadField(CellText(Csv, separator, text) + rest, separator) == Some((text, rest))
    {
      CellReads(text, separator, rest);
    }
  }

  lemma LinesRead(lines: seq<seq<string>>, separator: string)
    requires IsSeparator(separator)
    ensures ReadFile(LinesText(Csv, separator, lines), separator) == Some(AllAsRead(lines))
  {
    hide IsSeparator, CellIsRead, LinesText, ReadLines;
    SeparatorIsThere(separator);
    forall row, text | row in lines && text in row
      ensures CellIsRead(Csv, separator, text)
    {
      CsvCellIsRead(separator, text);
    }
    LinesReadBack(Csv, lines, separator);
  }

  ghost predicate NoEmptyLine(lines: seq<seq<string>>) {
    forall i :: 0 <= i < |lines| ==> lines[i] != []
  }

  lemma OnlyEmptyLinesChange(lines: seq<seq<string>>)
    ensures AllAsRead(lines) == lines <==> NoEmptyLine(lines)
  {
  }

  /** The fields of a record are the cells of a row, with the null text where a cell is NULL. */
  ghost predicate HoldsCells(record: seq<string>, cells: seq<Cell>, nullValue: string) {
    && |record| == |cells|
    && forall j :: 0 <= j < |cells| ==>
         match cells[j]
         case Null => record[j] == nullValue
         case Value(text) => record[j] == text
  }

  /**
   Every table reads back as one record per row, after its columns when they are shown and there are
   any, each field holding its cell, whatever quotes, separators or line breaks the cells hold; only a
   row without cells comes back as one empty cell.
   */
  lemma TableReadsBack(columns: seq<string>, rows: seq<seq<Cell>>, showHeader: bool, nullValue: string, separator: string)
    requires IsSeparator(separator)
    ensures var r := ReadFile(TableText(Csv, separator, columns, rows, showHeader, nullValue), separator);
            var h := if showHeader && columns != [] then 1 else 0;
            && r.Some? && |r.value| == h + |rows|
            && (h == 1 ==> r.value[0] == columns)
            && (forall i :: 0 <= i < |rows| && rows[i] != [] ==> HoldsCells(r.value[h + i], rows[i], nullValue))
            && (forall i :: 0 <= i < |rows| && rows[i] == [] ==> r.value[h + i] == [""])
  {
    hide ReadFile, LinesText, IsSeparator, TableLines, HoldsCells;
    LinesRead(TableLines(columns, rows, showHeader, nullValue), separator);
    LinesHoldCells(columns, rows, showHeader, nullValue);
  }

  lemma LinesHoldCells(columns: seq<string>, rows: seq<seq<Cell>>, showHeader: bool, nullValue: string)
    ensures var records := AllAsRead(TableLines(columns, rows, showHeader, nullValue));
            var h := if showHeader && columns != [] then 1 else 0;
            && |records| == h + |rows|
            && (h == 1 ==> records[0] == columns)
            && (forall i :: 0 <= i < |rows| && rows[i] != [] ==> HoldsCells(records[h + i], rows[i], nullValue))
            && (forall i :: 0 <= i < |rows| && rows[i] == [] ==> records[h + i] == [""])
  {
  }

  // ---- Which separators work -----------------------------------------------------------------

  ghost predicate ReadsEveryTable(separator: string) {
    forall lines :: NoEmptyLine(lines) ==> ReadFile(LinesText(Csv, separator, lines), separator) == Some(lines)
  }

  /** Different tables without empty rows print differently. */
  ghost predicate PrintsApart(separator: string) {
    forall a, b :: NoEmptyLine(a) && NoEmptyLine(b) && LinesText(Csv, separator, a) == LinesText(Csv, separator, b) ==>
      a == b
  }

  /**
   Without a quote or CR in it a separator keeps all tables apart, and lets them be read back,
   exactly when it is not empty and not a plain text that begins as it ends.
   */
  lemma SeparatorsThatWork(separator: string)
    requires IsClear(separator)
    ensures PrintsApart(separator) <==> IsSeparator(separator)
    ensures ReadsEveryTable(separator) <==> IsSeparator(separator)
  {
    hide PrintsApart, ReadsEveryTable;
    ReadingTellsApart(separator);
    if IsSeparator(separator) {
      SeparatorReads(separator);
    } else if separator == "" {
      EmptySeparatorCollides();
      Collision(separator, [["", ""]], [[""]]);
    } else {
      var m: nat :| Overlaps(separator, m);
      BorderedCollides(separator, m);
      Collision(separator, [[separator[..m], ""]], [["", separator[|separator| - m..]]]);
    }
  }

  lemma SeparatorReads(separator: string)
    requires IsSeparator(separator)
    ensures ReadsEveryTable(separator)
  {
    hide LinesText, ReadFile, NoEmptyLine, AllAsRead, IsSeparator;
    forall lines | NoEmptyLine(lines)
      ensures ReadFile(LinesText(Csv, separator, lines), separator) == Some(lines)
    {
      LinesRead(lines, separator);
      OnlyEmptyLinesChange(lines);
    }
  }

  lemma ReadingTellsApart(separator: string)
    ensures ReadsEveryTable(separator) ==> PrintsApart(separator)
  {
    hide LinesText, ReadFile, NoEmptyLine;
    if ReadsEveryTable(separator) {
      forall a, b | NoEmptyLine(a) && NoEmptyLine(b) && LinesText(Csv, separator, a) == LinesText(Csv, separator, b)
        ensures a == b
      {
        assert Some(a) == Some(b);
      }
    }
  }

  lemma Collision(separator: string, a: seq<seq<string>>, b: seq<seq<string>>)
    requires NoEmptyLine(a) && NoEmptyLine(b) && a != b
    requires LinesText(Csv, separator, a) == LinesText(Csv, separator, b)
    ensures !PrintsApart(separator)
  {
    hide LinesText, NoEmptyLine;
  }

  lemma OneLine(separator: string, row: seq<string>)
    ensures LinesText(Csv, separator, [row]) == RowText(Csv, separator, row) + "\r\n"
    ensures row != [] ==> NoEmptyLine([row])
  {
    hide RowText;
    assert [row][1..] == [];
  }

  /** What the separator begins with, before it, prints like what it ends with, after it. */
  lemma BorderedCollides(separator: string, m: nat)
    requires Overlaps(separator, m) && IsPlain(separator)
    ensures var v, u := separator[..m], separator[|separator| - m..];
            && LinesText(Csv, separator, [[v, ""]]) == LinesText(Csv, separator, [["", u]])
            && [[v, ""]] != [["", u]] && NoEmptyLine([[v, ""]]) && NoEmptyLine([["", u]])
  {
    hide LinesText, RowText, CellText, IsPlain;
    var v, u := separator[..m], separator[|separator| - m..];
    OneLine(separator, [v, ""]);
    OneLine(separator, ["", u]);
    RowOfTwo(separator, v, "");
    RowOfTwo(separator, "", u);
    ShortCell(separator, v);
    ShortCell(separator, u);
    ShortCell(separator, "");
    Slides(separator, m);
    assert [[v, ""]][0][0] == v && [["", u]][0][0] == "";
  }

  lemma RowOfTwo(separator: string, x: string, y: string)
    ensures RowText(Csv, separator, [x, y]) == CellText(Csv, separator, x) + separator + CellText(Csv, separator, y)
  {
    hide CellText;
    assert [x, y][1..] == [y];
  }

  lemma ShortCell(separator: string, text: string)
    requires IsPlain(separator) && |text| < |separator| && (forall c <- text :: c in separator)
    ensures CellText(Csv, separator, text) == text
  {
    hide Contains, IsWhitespace;
    if Contains(text, separator) {
      ContainsFits(text, separator);
    }
  }

  lemma Slides(separator: string, m: nat)
    requires Overlaps(separator, m)
    ensures separator[..m] + separator + "" == "" + separator + separator[|separator| - m..]
  {
    var v, u := separator[..m], separator[|separator| - m..];
    assert separator == v + separator[m..] && separator == separator[..|separator| - m] + u;
    assert v + separator == v + separator[m..] + u;
  }

  /** One colon before two, or after. */
  lemma LongSeparatorsCollide()
    ensures IsClear("::") && LinesText(Csv, "::", [[":", ""]]) == LinesText(Csv, "::", [["", ":"]])
  {
    hide LinesText, NoEmptyLine;
    assert forall c <- "::" :: c == ':';
    assert "::"[1..] == "::"[..1] == ":" && Overlaps("::", 1);
    BorderedCollides("::", 1);
  }

  lemma EmptySeparatorCollides()
    ensures LinesText(Csv, "", [["", ""]]) == LinesText(Csv, "", [[""]])
    ensures NoEmptyLine([["", ""]]) && NoEmptyLine([[""]]) && [["", ""]] != [[""]]
  {
    assert [["", ""]][0] == ["", ""] && |["", ""]| != |[""]| && [[""]][0] == [""];
  }

  // ---- Quotes and CR as separators -----------------------------------------------------------

  /** Of the one-character separators exactly the quote and CR fail. */
  lemma OneCharacterSeparators(separator: char)
    ensures ReadsEveryTable([separator]) <==> separator != '"' && separator != '\r'
  {
    hide LinesText, ReadFile, NoEmptyLine;
    if separator == '"' {
      QuoteSeparatorCollides();
      Collision("\"", [["\""]], [["", "", "", "", ""]]);
      ReadingTellsApart("\"");
    } else if separator == '\r' {
      ReturnSeparatorFails();
    } else {
      SeparatorReads([separator]);
    }
  }

  /** Between quotes as separators, five empty cells print like one cell holding a quote. */
  lemma QuoteSeparatorCollides()
    ensures LinesText(Csv, "\"", [["\""]]) == LinesText(Csv, "\"", [["", "", "", "", ""]])
    ensures NoEmptyLine([["\""]]) && NoEmptyLine([["", "", "", "", ""]]) && [["\""]] != [["", "", "", "", ""]]
  {
    OneLine("\"", ["\""]);
    OneLine("\"", ["", "", "", "", ""]);
    assert '"' in "\"" && NeedsQuotes("\"", "\"");
    assert RowText(Csv, "\"", ["\""]) == "\"\"\"\"";
    EmptyCells(5);
    assert Empties(5) == ["", "", "", "", ""] && Quotes(4) == "\"\"\"\"";
    assert |["\""]| != |["", "", "", "", ""]| && [["\""]][0] == ["\""];
  }

  function Empties(n: nat): seq<string> {
    seq(n, i => "")
  }

  function Quotes(n: nat): string {
    seq(n, i => '"')
  }

  lemma {:induction false} EmptyCells(n: nat)
    requires n > 0
    ensures RowText(Csv, "\"", Empties(n)) == Quotes(n - 1)
  {
    if n > 1 {
      assert Empties(n)[1..] == Empties(n - 1);
      EmptyCells(n - 1);
    }
  }

  lemma ReturnSeparatorFails()
    ensures ReadFile(LinesText(Csv, "\r", [["a"]]), "\r") == None && NoEmptyLine([["a"]])
  {
    OneLine("\r", ["a"]);
    assert !Contains("a", "\r");
    assert IsPlain("a") && !NeedsQuotes("a", "\r");
    var s := "a\r\n";
    assert LinesText(Csv, "\r", [["a"]]) == s;
    assert s[1..] == "\r\n" && "\r\n"[1..] == "\n";
    assert StartsWith("\r\n", "\r") && !StartsWith(s, "\r") && !StartsWith("\n", "\r");
    assert ReadPlain("\r\n", "\r") == ("", "\r\n") && ReadPlain(s, "\r") == ("a" + "", "\r\n");
    assert ReadField(s, "\r") == Some(("a" + "", "\r\n"));
    assert ReadRecord("\n", "\r") == Some(([""], "\n"));
    assert ReadRecord("\r\n"[1..], "\r") == Some(([""], "\n"));
    assert ReadRecord(s, "\r") == Some((["a" + ""] + [""], "\n"));
  }

  // ---- Tabs and list mode --------------------------------------------------------------------

  predicate IsTabQuoted(text: string) {
    exists c <- text :: c in {'\'', '"', '\n', '\r'}
  }

  lemma {:induction false} TabTextReads(text: string, c: char, rest: string)
    requires !IsTabQuoted(text) && c !in text && (rest == "" || rest[0] == '\n' || rest[0] == c)
    ensures ReadPlain(text + rest, [c]) == (text, rest)
  {
    if text == "" {
      assert text + rest == rest;
    } else {
      assert (text + rest)[0] == text[0] && (text + rest)[1..] == text[1..] + rest;
      assert text == [text[0]] + text[1..] && text[0] in text && forall d <- text[1..] :: d in text;
      TabTextReads(text[1..], c, rest);
    }
  }

  lemma TabCellIsRead(c: char, text: string)
    requires c !in {'"', '\n', '\r'} && (c in text ==> IsTabQuoted(text))
    ensures CellIsRead(Tabs, [c], text)
  {
    hide ReadQuoted, ReadPlain, Doubled, IsTabQuoted;
    forall rest | Follows(Tabs, rest, [c])
      ensures ReadField(CellText(Tabs, [c], text) + rest, [c]) == Some((text, rest))
    {
      if IsTabQuoted(text) {
        var s := Quoted(text) + rest;
        assert s[1..] == Doubled(text, '"') + "\"" + rest;
        QuotedReads(text, '"', rest);
        TabCellText(c, text);
      } else {
        TabTextReads(text, c, rest);
        TabCellText(c, text);
        if text + rest != "" {
          FirstIsNoQuote(text, rest, c);
        }
      }
    }
  }

  lemma TabCellText(c: char, text: string)
    ensures CellText(Tabs, [c], text) == if IsTabQuoted(text) then Quoted(text) else text
  {
  }

  lemma FirstIsNoQuote(text: string, rest: string, c: char)
    requires !IsTabQuoted(text) && c != '"' && (rest == "" || rest[0] == '\n' || rest[0] == c) && text + rest != ""
    ensures (text + rest)[0] != '"'
  {
    assert text != "" ==> (text + rest)[0] == text[0] && text[0] in text;
  }

  /** Tab output reads back when a cell that holds the separator is quoted for another reason. */
  lemma TabsReadBack(lines: seq<seq<string>>, c: char)
    requires c !in {'"', '\n', '\r'} && NoEmptyLine(lines)
    requires forall row, text :: row in lines && text in row && c in text ==> IsTabQuoted(text)
    ensures ReadLines(LinesText(Tabs, [c], lines), [c], "\n") == Some(lines)
  {
    hide CellIsRead, LinesText, ReadLines, IsTabQuoted, NoEmptyLine, AllAsRead;
    forall row, text | row in lines && text in row
      ensures CellIsRead(Tabs, [c], text)
    {
      TabCellIsRead(c, text);
    }
    LinesReadBack(Tabs, lines, [c]);
    OnlyEmptyLinesChange(lines);
  }

  /** Otherwise it prints like the two cells on either side. */
  lemma TabsCollide(u: string, v: string, c: char)
    requires !IsTabQuoted(u + [c] + v)
    ensures LinesText(Tabs, [c], [[u + [c] + v]]) == LinesText(Tabs, [c], [[u, v]])
  {
    hide IsTabQuoted, CellText;
    TabCellText(c, u + [c] + v);
    PartsAreNotQuoted(u, c, v);
    TabCellText(c, u);
    TabCellText(c, v);
    var one, two := [u + [c] + v], [u, v];
    assert two[1..] == [v];
    assert RowText(Tabs, [c], one) == RowText(Tabs, [c], two);
  }

  lemma PartsAreNotQuoted(u: string, c: char, v: string)
    requires !IsTabQuoted(u + [c] + v)
    ensures !IsTabQuoted(u) && !IsTabQuoted(v)
  {
    assert forall d <- u :: d in u + [c] + v;
    assert forall d <- v :: d in u + [c] + v;
  }

  function RowTexts(separator: string, lines: seq<seq<string>>): seq<string> {
    seq(|lines|, i requires 0 <= i < |lines| => Join(lines[i], separator))
  }

  lemma {:induction false} ListRowIsJoin(separator: string, row: seq<string>)
    ensures RowText(List, separator, row) == Join(row, separator)
  {
    if |row| > 1 {
      ListRowIsJoin(separator, row[1..]);
    }
  }

  /** List output comes apart at its line ends and separators when no cell holds one. */
  lemma {:induction false} ListComesApart(lines: seq<seq<string>>, c: char)
    requires c != '\n' && NoEmptyLine(lines)
    requires forall row, text :: row in lines && text in row ==> c !in text && '\n' !in text
    ensures Split(LinesText(List, [c], lines), '\n') == RowTexts([c], lines) + [""]
    ensures forall i :: 0 <= i < |lines| ==> Split(RowTexts([c], lines)[i], c) == lines[i]
    decreases |lines|
  {
    hide RowText, Split;
    if lines == [] {
      assert RowTexts([c], lines) == [];
      assert LinesText(List, [c], lines) == "" by { LinesTextOfNothing(List, [c]); }
      SplitFirst("", '\n', "");
    } else {
      var row := lines[0];
      ListRowIsJoin([c], row);
      JoinSplits(row, c);
      JoinHasNo(row, c, '\n');
      SplitFirst(Join(row, [c]), '\n', LinesText(List, [c], lines[1..]));
      ListComesApart(lines[1..], c);
      assert RowTexts([c], lines) == [Join(row, [c])] + RowTexts([c], lines[1..]);
    }
  }

  lemma {:induction false} JoinHasNo(texts: seq<string>, c: char, d: char)
    requires c != d && forall t <- texts :: d !in t
    ensures d !in Join(texts, [c])
    decreases |texts|
  {
    if texts != [] {
      assert texts[0] in texts && forall t <- texts[1..] :: t in texts;
      JoinHasNo(texts[1..], c, d);
    }
  }
}
