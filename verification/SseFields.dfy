/** What the lines of an event stream mean, told from the parts they are written of. */
module SseFields {
  import opened Text
  import opened Sse

  // ---- trimming -----------------------------------------------------------------------------------

  predicate Solid(s: string) {
    s == "" || (!Whitespace(s[0]) && !Whitespace(s[|s| - 1]))
  }

  lemma {:induction false} StartTrimmed(a: string, s: string)
    requires AllWhitespace(a) && (s == "" || !Whitespace(s[0]))
    ensures TrimStart(a + s) == s
    decreases |a|
  {
    hide Whitespace;
    if a == "" {
      assert a + s == s;
    } else {
      assert Whitespace(a[0]) && (a + s)[1..] == a[1..] + s;
      StartTrimmed(a[1..], s);
    }
  }

  lemma {:induction false} EndTrimmed(s: string, b: string)
    requires AllWhitespace(b) && (s == "" || !Whitespace(s[|s| - 1]))
    ensures TrimEnd(s + b) == s
    decreases |b|
  {
    hide Whitespace;
    if b == "" {
      assert s + b == s;
    } else {
      var n := |b| - 1;
      assert Whitespace(b[n]) && (s + b)[..|s + b| - 1] == s + b[..n];
      EndTrimmed(s, b[..n]);
    }
  }

  /** Trimming takes the white space off both ends, and nothing else. */
  lemma Trimmed(a: string, s: string, b: string)
    requires AllWhitespace(a) && AllWhitespace(b) && Solid(s)
    ensures Trim(a + s + b) == s
  {
    hide Whitespace;
    assert a + s + b == a + (s + b);
    if s == "" {
      assert s + b == b + "";
      AllTrimmed(a + b);
      assert a + s + b == a + b;
    } else {
      StartTrimmed(a, s + b);
      EndTrimmed(s, b);
    }
  }

  lemma AllTrimmed(a: string)
    requires AllWhitespace(a)
    ensures Trim(a) == ""
  {
    hide Whitespace;
    StartTrimmed(a, "");
    assert a + "" == a;
  }

  lemma {:induction false} SpacesTrimmed(n: nat, s: string)
    requires s == "" || s[0] != ' '
    ensures TrimSpaces(Spaces(n) + s) == s
  {
    if n == 0 {
      assert Spaces(0) + s == s;
    } else {
      SpacesTrimmed(n - 1, s);
      assert (Spaces(n) + s)[1..] == Spaces(n - 1) + s;
    }
  }

  function Spaces(n: nat): (s: string)
    ensures |s| == n && forall c | c in s :: c == ' '
  {
    if n == 0 then "" else " " + Spaces(n - 1)
  }

  // ---- lines ------------------------------------------------------------------------------------------

  /** A line by what it says: a piece of data, the event's name with white space around it, or neither. */
  datatype Field = Data(spaces: nat, text: string) | Name(before: string, text: string, behind: string) | Neither(line: string)

  predicate Proper(f: Field) {
    match f
    case Data(_, text) => OneLine(text) && (text == "" || text[0] != ' ')
    case Name(before, text, behind) =>
      OneLine(before + text + behind) && AllWhitespace(before) && AllWhitespace(behind) && Solid(text)
    case Neither(line) => OneLine(line) && !("event:" <= line) && !("data:" <= line)
  }

  function Written(f: Field): string {
    match f
    case Data(spaces, text) => "data:" + Spaces(spaces) + text
    case Name(before, text, behind) => "event:" + before + text + behind
    case Neither(line) => line
  }

  datatype Row = Row(field: Field, ending: string)

  /** Every row is ended; only the last, unless it is blank, need not be. */
  predicate ProperRows(rows: seq<Row>) {
    forall i | 0 <= i < |rows| ::
      && Proper(rows[i].field)
      && (rows[i].ending in ["\n", "\r\n"] || (i == |rows| - 1 && rows[i].ending == "" && Written(rows[i].field) != ""))
  }

  function RowText(row: Row): string {
    Written(row.field) + row.ending
  }

  function RowTexts(rows: seq<Row>): (texts: seq<string>)
    ensures |texts| == |rows| && forall i | 0 <= i < |rows| :: texts[i] == RowText(rows[i])
  {
    seq(|rows|, i requires 0 <= i < |rows| => RowText(rows[i]))
  }

  function RowFields(rows: seq<Row>): (lines: seq<string>)
    ensures |lines| == |rows| && forall i | 0 <= i < |rows| :: lines[i] == Written(rows[i].field)
  {
    seq(|rows|, i requires 0 <= i < |rows| => Written(rows[i].field))
  }

  function BlockText(rows: seq<Row>): string {
    Concat(RowTexts(rows))
  }

  /** The data of the rows, in order. */
  function DataTexts(rows: seq<Row>): seq<string> {
    if rows == [] then []
    else
      var f := rows[|rows| - 1].field;
      DataTexts(rows[..|rows| - 1]) + if f.Data? then [f.text] else []
  }

  /** The name on the last row that gives one. */
  ghost predicate Named(rows: seq<Row>, name: Option<string>) {
    match name
    case None => forall i | 0 <= i < |rows| :: !rows[i].field.Name?
    case Some(text) =>
      exists i | 0 <= i < |rows| ::
        && rows[i].field.Name? && rows[i].field.text == text
        && forall j | i < j < |rows| :: !rows[j].field.Name?
  }

  /** A text cut at each of its line breaks. */
  function CutAtBreaks(s: string): (pieces: seq<string>)
    ensures pieces != []
  {
    if s == "" then [""]
    else
      var rest := CutAtBreaks(s[1..]);
      if s[0] == '\n' then [""] + rest else [[s[0]] + rest[0]] + rest[1..]
  }

  lemma WrittenIsOneLine(f: Field)
    requires Proper(f)
    ensures OneLine(Written(f))
  {
  }

  lemma {:induction false} RowIsLine(f: Field, ending: string)
    requires Proper(f) && (ending in ["\n", "\r\n"] || (ending == "" && Written(f) != ""))
    ensures IsLine(Written(f) + ending) && Content(Written(f) + ending) == Written(f)
    ensures ending != "" ==> Terminated(Written(f) + ending)
  {
    hide Written, Proper;
    WrittenIsOneLine(f);
    var s := Written(f) + ending;
    assert s[..|s| - |ending|] == Written(f);
    assert forall k | 0 <= k < |s| - |ending| :: s[k] == Written(f)[k];
    assert |s| > |ending| ==> s[|s| - |ending| - 1] in Written(f);
  }

  lemma RowsRead(rows: seq<Row>)
    requires ProperRows(rows)
    ensures Contents(Lines(BlockText(rows))) == RowFields(rows)
  {
    hide Lines, Concat, Content, IsLine, Terminated, Written, Proper;
    forall i | 0 <= i < |rows|
      ensures IsLine(RowText(rows[i])) && Content(RowText(rows[i])) == Written(rows[i].field)
      ensures i < |rows| - 1 ==> Terminated(RowText(rows[i]))
    {
      RowIsLine(rows[i].field, rows[i].ending);
    }
    LinesOfConcat(RowTexts(rows));
  }

  lemma FieldRead(f: Field)
    requires Proper(f)
    ensures HasPrefix(Written(f), EVENT) <==> f.Name?
    ensures !f.Name? ==> (HasPrefix(Written(f), DATA) <==> f.Data?)
    ensures f.Name? ==> Trim(Written(f)[|EVENT|..]) == f.text
    ensures f.Data? ==> TrimSpaces(Written(f)[|DATA|..]) == f.text
  {
    hide Whitespace, Trim, TrimSpaces;
    var s := Written(f);
    match f
    case Data(spaces, text) =>
      assert s[0] == 'd' && EVENT[0] == 'e';
      assert s[..5] == DATA && s[5..] == Spaces(spaces) + text;
      SpacesTrimmed(spaces, text);
    case Name(before, text, behind) =>
      assert s[..6] == EVENT && s[6..] == before + text + behind;
      Trimmed(before, text, behind);
    case Neither(line) =>
  }

  lemma {:induction false} DataRead(rows: seq<Row>)
    requires forall r | r in rows :: Proper(r.field)
    ensures DataOf(RowFields(rows)) == DataTexts(rows)
  {
    hide Written, Proper, TrimSpaces, HasPrefix;
    if rows != [] {
      var n := |rows| - 1;
      DataRead(rows[..n]);
      assert rows[n] in rows;
      FieldRead(rows[n].field);
      assert RowFields(rows)[..n] == RowFields(rows[..n]);
    }
  }

  lemma {:induction false} NameRead(rows: seq<Row>)
    requires forall r | r in rows :: Proper(r.field)
    ensures Named(rows, NameOf(RowFields(rows)))
  {
    hide Written, Proper, Trim, HasPrefix;
    if rows != [] {
      var n := |rows| - 1;
      NameRead(rows[..n]);
      assert rows[n] in rows;
      FieldRead(rows[n].field);
      assert RowFields(rows)[..n] == RowFields(rows[..n]);
      assert forall i | 0 <= i < n :: rows[..n][i] == rows[i];
    }
  }

  lemma {:induction false} CutJoined(lines: seq<string>)
    requires lines != [] && forall s | s in lines :: '\n' !in s
    ensures CutAtBreaks(Join(lines)) == lines
    decreases |lines|
  {
    if |lines| == 1 {
      assert lines == [lines[0]];
      CutOne(lines[0], "");
    } else {
      CutJoined(lines[1..]);
      CutFirst(lines[0], Join(lines[1..]));
      assert lines == [lines[0]] + lines[1..];
    }
  }

  lemma {:induction false} CutOne(s: string, rest: string)
    requires '\n' !in s && rest == ""
    ensures CutAtBreaks(s) == [s]
  {
    if s != "" {
      CutOne(s[1..], rest);
      assert [s[0]] + s[1..] == s;
    }
  }

  lemma {:induction false} CutFirst(s: string, rest: string)
    requires '\n' !in s
    ensures CutAtBreaks(s + "\n" + rest) == [s] + CutAtBreaks(rest)
  {
    var t := s + "\n" + rest;
    if s == "" {
      assert t[1..] == rest;
    } else {
      CutFirst(s[1..], rest);
      assert t[1..] == s[1..] + "\n" + rest;
      assert [s[0]] + s[1..] == s;
    }
  }

  lemma {:induction false} DataAreLines(rows: seq<Row>)
    requires forall r | r in rows :: Proper(r.field)
    ensures forall s | s in DataTexts(rows) :: '\n' !in s
  {
    if rows != [] {
      DataAreLines(rows[..|rows| - 1]);
      assert rows[|rows| - 1] in rows;
    }
  }

  /**
   * Any block of lines, each ended as one likes: without data it is no event; else the last name
   * given names the event, and its data, cut at the line breaks, is the data of the lines in order.
   */
  lemma FieldsAreRead(rows: seq<Row>)
    requires ProperRows(rows)
    ensures var e := ParseBlock(BlockText(rows));
      && (e.None? <==> forall i | 0 <= i < |rows| :: !rows[i].field.Data?)
      && (e.Some? ==> Named(rows, e.value.name) && CutAtBreaks(e.value.data) == DataTexts(rows))
  {
    hide Written, Proper, Lines, DataOf, NameOf, Join, Named, BlockText, CutAtBreaks;
    RowsRead(rows);
    ProperOnes(rows);
    DataRead(rows);
    NameRead(rows);
    DataAreLines(rows);
    NoData(rows);
    if DataTexts(rows) != [] {
      CutJoined(DataTexts(rows));
    }
  }

  lemma ProperOnes(rows: seq<Row>)
    requires ProperRows(rows)
    ensures forall r | r in rows :: Proper(r.field)
  {
    hide Proper, Written;
  }

  lemma {:induction false} NoData(rows: seq<Row>)
    ensures DataTexts(rows) == [] <==> forall i | 0 <= i < |rows| :: !rows[i].field.Data?
  {
    if rows != [] {
      var n := |rows| - 1;
      NoData(rows[..n]);
      assert forall i | 0 <= i < n :: rows[..n][i] == rows[i];
    }
  }

  // ---- line endings -----------------------------------------------------------------------------------

  datatype Ended = Ended(line: string, ending: string)

  /** Lines ended in any of three ways; a lone carriage return is not directly followed by a line feed. */
  predicate ProperEndings(lines: seq<Ended>) {
    forall i | 0 <= i < |lines| ::
      && OneLine(lines[i].line) && lines[i].ending in ["\n", "\r\n", "\r"]
      && (lines[i].ending == "\r" && i + 1 < |lines| && lines[i + 1].line == "" ==> lines[i + 1].ending != "\n")
  }

  function AsEnded(lines: seq<Ended>): string
    decreases |lines|
  {
    if lines == [] then "" else lines[0].line + lines[0].ending + AsEnded(lines[1..])
  }

  function WithBreaks(lines: seq<Ended>): string
    decreases |lines|
  {
    if lines == [] then "" else lines[0].line + "\n" + WithBreaks(lines[1..])
  }

  lemma {:induction false} LineKept(line: string, rest: string)
    requires OneLine(line)
    ensures ReplaceCrLf(line + rest) == line + ReplaceCrLf(rest)
  {
    if line == "" {
      assert line + rest == rest && line + ReplaceCrLf(rest) == ReplaceCrLf(rest);
    } else {
      LineKept(line[1..], rest);
      assert (line + rest)[1..] == line[1..] + rest;
      assert line + ReplaceCrLf(rest) == [line[0]] + (line[1..] + ReplaceCrLf(rest));
    }
  }

  lemma {:induction false} CrKept(a: string, b: string)
    ensures ReplaceCr(a + b) == ReplaceCr(a) + ReplaceCr(b)
  {
    if a == "" {
      assert a + b == b && ReplaceCr(a) + ReplaceCr(b) == ReplaceCr(b);
    } else {
      CrKept(a[1..], b);
      assert (a + b)[1..] == a[1..] + b;
    }
  }

  lemma EndingReplaced(ending: string, rest: string)
    requires ending in ["\n", "\r\n", "\r"] && (ending == "\r" && rest != "" ==> rest[0] != '\n')
    ensures ReplaceCrLf(ending + rest) == (if ending == "\r\n" then "\n" else ending) + ReplaceCrLf(rest)
  {
    var s := ending + rest;
    if ending == "\r\n" {
      assert s[2..] == rest;
    } else {
      assert s[1..] == rest;
    }
  }

  lemma {:induction false} BothReplaced(lines: seq<Ended>)
    requires ProperEndings(lines)
    ensures ReplaceCr(ReplaceCrLf(AsEnded(lines))) == WithBreaks(lines)
    decreases |lines|
  {
    hide ReplaceCr, ReplaceCrLf;
    if lines == [] {
      NothingReplaced();
    } else {
      var first, rest := lines[0], AsEnded(lines[1..]);
      forall i | 0 <= i < |lines[1..]| ensures lines[1..][i] == lines[i + 1] {
      }
      BothReplaced(lines[1..]);
      NextStarts(lines);
      FirstReplaced(first.line, first.ending, rest);
      assert AsEnded(lines) == first.line + first.ending + rest;
    }
  }

  lemma FirstReplaced(line: string, ending: string, rest: string)
    requires OneLine(line) && ending in ["\n", "\r\n", "\r"] && (ending == "\r" && rest != "" ==> rest[0] != '\n')
    ensures ReplaceCr(ReplaceCrLf(line + ending + rest)) == line + "\n" + ReplaceCr(ReplaceCrLf(rest))
  {
    hide ReplaceCr, ReplaceCrLf;
    var e, more := if ending == "\r\n" then "\n" else ending, ReplaceCrLf(rest);
    assert line + ending + rest == line + (ending + rest);
    LineKept(line, ending + rest);
    EndingReplaced(ending, rest);
    CrKept(line, e + more);
    CrKept(e, more);
    NoCrKept(line);
    EndingIsBreak(e);
    assert line + ("\n" + ReplaceCr(more)) == line + "\n" + ReplaceCr(more);
  }

  lemma EndingIsBreak(e: string)
    requires e in ["\n", "\r"]
    ensures ReplaceCr(e) == "\n"
  {
    assert e[1..] == "" && ReplaceCr("") == "";
  }

  lemma NothingReplaced()
    ensures ReplaceCr(ReplaceCrLf("")) == ""
  {
  }

  lemma NextStarts(lines: seq<Ended>)
    requires ProperEndings(lines) && lines != []
    ensures var rest := AsEnded(lines[1..]); lines[0].ending == "\r" && rest != "" ==> rest[0] != '\n'
  {
    if |lines| > 1 {
      var next := lines[1];
      assert lines[1..][0] == next;
      assert next.line != "" ==> next.line[0] in next.line;
    }
  }

  lemma {:induction false} CrLfKept(s: string)
    requires '\r' !in s
    ensures ReplaceCrLf(s) == s
  {
    if s != "" {
      assert forall c | c in s[1..] :: c in s;
      CrLfKept(s[1..]);
      assert s == [s[0]] + s[1..];
    }
  }

  /** How the lines of a stream are ended makes no difference to its blocks. */
  lemma EndingsMakeNoDifference(lines: seq<Ended>)
    requires ProperEndings(lines)
    ensures SplitBlocks(AsEnded(lines)) == SplitBlocks(WithBreaks(lines))
  {
    hide ReplaceCr, ReplaceCrLf, Blocks, Split;
    BothReplaced(lines);
    NoCrLeft(lines);
    if '\r' !in AsEnded(lines) {
      CrLfKept(AsEnded(lines));
      NoCrKept(AsEnded(lines));
    }
  }

  lemma {:induction false} NoCrLeft(lines: seq<Ended>)
    requires ProperEndings(lines)
    ensures '\r' !in WithBreaks(lines)
    decreases |lines|
  {
    if lines != [] {
      forall i | 0 <= i < |lines[1..]| ensures lines[1..][i] == lines[i + 1] {
      }
      NoCrLeft(lines[1..]);
    }
  }
}
