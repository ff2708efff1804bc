/** The JSON editor's index loops as they run, each tied to its specification. */
module JsonLoops {
  import opened Text
  import opened JsonLexer
  import opened JsonReader
  import opened JsonEdit

  // ---- the stripped copy ------------------------------------------------------------------

  /** Where the string ends that the loop is inside of, right behind a backslash or not. */
  function StringTail(t: string, i: nat, escaped: bool): (e: nat)
    requires i <= |t|
    ensures i <= e <= |t|
    decreases |t| - i
  {
    if i == |t| then i
    else if escaped then StringTail(t, i + 1, false)
    else
      match StringEnd(t, i)
      case Some(e) => e
      case None => |t|
  }

  lemma StringStep(t: string, i: nat, escaped: bool)
    requires i < |t|
    ensures StringTail(t, i, escaped)
         == if !escaped && t[i] == '"' then i + 1 else StringTail(t, i + 1, !escaped && t[i] == '\\')
  {
  }

  /** What the first pass still has to put out. */
  function CommentsLeft(t: string, i: nat, inString: bool, escaped: bool): string
    requires i <= |t|
  {
    if inString then
      var e := StringTail(t, i, escaped);
      t[i..e] + StripComments(t, e)
    else StripComments(t, i)
  }

  /** What the second pass still has to put out. */
  function CommasLeft(t: string, i: nat, inString: bool, escaped: bool): string
    requires i <= |t|
  {
    if inString then
      var e := StringTail(t, i, escaped);
      t[i..e] + StripCommas(t, e)
    else StripCommas(t, i)
  }

  lemma PushOne(t: string, i: nat, e: nat, rest: string)
    requires i < e <= |t|
    ensures t[i..e] + rest == [t[i]] + (t[i + 1..e] + rest)
  {
    assert t[i..e] == [t[i]] + t[i + 1..e];
  }

  /** Inside a string both passes copy one character. */
  lemma InString(t: string, i: nat, escaped: bool)
    requires i < |t|
    ensures var (closed, next) := (!escaped && t[i] == '"', !escaped && t[i] == '\\');
      && CommentsLeft(t, i, true, escaped) == [t[i]] + CommentsLeft(t, i + 1, !closed, next)
      && CommasLeft(t, i, true, escaped) == [t[i]] + CommasLeft(t, i + 1, !closed, next)
  {
    hide StripComments, StripCommas, StringTail;
    StringStep(t, i, escaped);
    var e := StringTail(t, i, escaped);
    PushOne(t, i, e, StripComments(t, e));
    PushOne(t, i, e, StripCommas(t, e));
    assert !escaped && t[i] == '"' ==> t[i + 1..e] == "";
  }

  /** A quote outside a string opens one. */
  lemma AtQuote(t: string, i: nat)
    requires i < |t| && t[i] == '"'
    ensures StripComments(t, i) == [t[i]] + CommentsLeft(t, i + 1, true, false)
    ensures StripCommas(t, i) == [t[i]] + CommasLeft(t, i + 1, true, false)
  {
    var e := StringStop(t, i);
    assert e == StringTail(t, i + 1, false);
    PushOne(t, i, e, StripComments(t, e));
    PushOne(t, i, e, StripCommas(t, e));
  }

  lemma Appended(output: string, a: string, b: string)
    ensures (output + a) + b == output + (a + b)
  {
  }

  method BlankLineComment(t: string, from: nat) returns (blank: string, index: nat)
    requires OpensComment(t, from) && t[from + 1] == '/'
    ensures from <= index <= |t| && index == LineEnd(t, from + 2) && blank == Blanked(t, from, index)
  {
    blank := [' ', ' '];
    index := from + 2;
    while index < |t| && t[index] != '\n'
      invariant from + 2 <= index <= |t|
      invariant LineEnd(t, index) == LineEnd(t, from + 2)
      invariant blank == Blanked(t, from, index)
    {
      blank := blank + [if t[index] == '\r' then '\r' else ' '];
      index := index + 1;
    }
  }

  lemma BlockEndStep(t: string, i: nat)
    requires i < |t|
    ensures BlockEnd(t, i) == if ClosesAt(t, i) then Some(i + 2) else BlockEnd(t, i + 1)
  {
  }

  lemma BlankedStep(t: string, from: nat, i: nat, n: nat)
    requires from <= i <= i + n <= |t|
    ensures Blanked(t, from, i + n) == Blanked(t, from, i) + Blanked(t, i, i + n)
  {
    var whole, parts := Blanked(t, from, i + n), Blanked(t, from, i) + Blanked(t, i, i + n);
    forall k | 0 <= k < |whole| ensures whole[k] == parts[k] {
    }
  }

  method BlankBlockComment(t: string, from: nat) returns (blank: string, index: nat)
    requires OpensComment(t, from) && t[from + 1] == '*'
    ensures BlockEnd(t, from + 2) == if BlockEnd(t, from + 2).Some? then Some(index) else None
    ensures BlockEnd(t, from + 2).None? ==> index == |t|
    ensures from <= index <= |t| && blank == Blanked(t, from, index)
  {
    hide BlockEnd;
    blank := [' ', ' '];
    index := from + 2;
    assert blank == Blanked(t, from, index);
    while index < |t| && !ClosesAt(t, index)
      invariant from + 2 <= index <= |t|
      invariant BlockEnd(t, index) == BlockEnd(t, from + 2)
      invariant blank == Blanked(t, from, index)
    {
      var c := [if LineBreak(t[index]) then t[index] else ' '];
      BlockEndStep(t, index);
      BlankedStep(t, from, index, 1);
      assert c == Blanked(t, index, index + 1);
      blank := blank + c;
      index := index + 1;
    }
    if index < |t| {
      BlockEndStep(t, index);
      BlankedStep(t, from, index, 2);
      assert [' ', ' '] == Blanked(t, index, index + 2);
      blank := blank + [' ', ' '];
      index := index + 2;
    }
  }

  method BlankComment(t: string, from: nat) returns (blank: string, index: nat)
    requires OpensComment(t, from)
    ensures index == CommentStop(t, from) && blank == Blanked(t, from, index)
  {
    if t[from + 1] == '/' {
      blank, index := BlankLineComment(t, from);
    } else {
      blank, index := BlankBlockComment(t, from);
    }
    assert index == CommentStop(t, from);
  }

  /** The first pass and, on its output, the second. */
  method StripJsoncPasses(src: string) returns (output: string)
    ensures output == StripJsonc(src)
  {
    hide StripComments, StripCommas, CommentsLeft, CommentStop, Blanked;
    output := "";
    var index, inString, escaped := 0, false, false;
    assert CommentsLeft(src, 0, false, false) == StripComments(src, 0) by { NotInString(src, 0); }
    while index < |src|
      invariant index <= |src| && (escaped ==> inString)
      invariant output + CommentsLeft(src, index, inString, escaped) == StripComments(src, 0)
    {
      var c := src[index];
      ghost var before := output;
      NotInString(src, index);
      if inString {
        InString(src, index, escaped);
        output := output + [c];
        if escaped {
          escaped := false;
        } else if c == '\\' {
          escaped := true;
        } else if c == '"' {
          inString := false;
        }
        index := index + 1;
        Appended(before, [c], CommentsLeft(src, index, inString, escaped));
      } else if c == '"' {
        AtQuote(src, index);
        inString := true;
        output := output + [c];
        index := index + 1;
        Appended(before, [c], CommentsLeft(src, index, true, false));
      } else if OpensComment(src, index) {
        AtComment(src, index);
        var blank, end := BlankComment(src, index);
        output := output + blank;
        index := end;
        NotInString(src, index);
        Appended(before, blank, StripComments(src, index));
      } else {
        AtPlain(src, index);
        output := output + [c];
        index := index + 1;
        NotInString(src, index);
        Appended(before, [c], StripComments(src, index));
      }
    }
    NothingLeft(src, inString, escaped);
    assert output + "" == output;
    assert output == StripComments(src, 0);
    output := StripTrailingCommas(output);
  }

  lemma NotInString(t: string, i: nat)
    requires i <= |t|
    ensures CommentsLeft(t, i, false, false) == StripComments(t, i)
    ensures CommasLeft(t, i, false, false) == StripCommas(t, i)
  {
  }

  lemma NothingLeft(t: string, inString: bool, escaped: bool)
    ensures CommentsLeft(t, |t|, inString, escaped) == "" && CommasLeft(t, |t|, inString, escaped) == ""
  {
  }

  lemma AtComment(t: string, i: nat)
    requires OpensComment(t, i)
    ensures StripComments(t, i) == Blanked(t, i, CommentStop(t, i)) + StripComments(t, CommentStop(t, i))
  {
  }

  lemma AtPlain(t: string, i: nat)
    requires i < |t| && t[i] != '"' && !OpensComment(t, i)
    ensures StripComments(t, i) == [t[i]] + StripComments(t, i + 1)
  {
  }

  lemma NextTokenStep(u: string, i: nat)
    requires i <= |u|
    ensures NextToken(u, i) == if i < |u| && AsciiWhitespace(u[i]) then NextToken(u, i + 1) else i
  {
  }

  method StripTrailingCommas(bytes: string) returns (output: string)
    ensures output == StripCommas(bytes, 0)
  {
    hide StripComments, StripCommas, CommasLeft, NextToken;
    output := "";
    var index, inString, escaped := 0, false, false;
    NotInString(bytes, 0);
    while index < |bytes|
      invariant index <= |bytes| && (escaped ==> inString)
      invariant output + CommasLeft(bytes, index, inString, escaped) == StripCommas(bytes, 0)
    {
      var c := bytes[index];
      ghost var before := output;
      NotInString(bytes, index);
      if inString {
        InString(bytes, index, escaped);
        output := output + [c];
        if escaped {
          escaped := false;
        } else if c == '\\' {
          escaped := true;
        } else if c == '"' {
          inString := false;
        }
      } else if c == '"' {
        AtQuote(bytes, index);
        inString := true;
        output := output + [c];
      } else if c == ',' {
        CommaOrBlank(bytes, index);
        var lookahead := index + 1;
        while lookahead < |bytes| && AsciiWhitespace(bytes[lookahead])
          invariant index < lookahead <= |bytes|
          invariant NextToken(bytes, lookahead) == NextToken(bytes, index + 1)
        {
          NextTokenStep(bytes, lookahead);
          lookahead := lookahead + 1;
        }
        NextTokenStep(bytes, lookahead);
        if lookahead < |bytes| && (bytes[lookahead] == '}' || bytes[lookahead] == ']') {
          output := output + [' '];
        } else {
          output := output + [c];
        }
      } else {
        CommaOrBlank(bytes, index);
        output := output + [c];
      }
      index := index + 1;
      NotInString(bytes, index);
      Appended(before, output[|before|..], CommasLeft(bytes, index, inString, escaped));
      assert output == before + output[|before|..];
    }
    NothingLeft(bytes, inString, escaped);
    assert output + "" == output;
  }

  lemma CommaOrBlank(u: string, i: nat)
    requires i < |u| && u[i] != '"'
    ensures StripCommas(u, i) == [if TrailingComma(u, i) then ' ' else u[i]] + StripCommas(u, i + 1)
  {
  }

  // ---- places around a member -----------------------------------------------------------------

  method ScanBlankRun(t: string, from: nat) returns (pos: nat)
    requires from <= |t|
    ensures pos == BlankRun(t, from, |t|)
  {
    pos := from;
    while pos < |t| && Blank(t[pos])
      invariant pos <= |t| && BlankRun(t, pos, |t|) == BlankRun(t, from, |t|)
    {
      pos := pos + 1;
    }
  }

  method ScanLine(t: string, from: nat) returns (pos: nat)
    requires from <= |t|
    ensures pos == LineEnd(t, from)
  {
    pos := from;
    while pos < |t| && t[pos] != '\n'
      invariant pos <= |t| && LineEnd(t, pos) == LineEnd(t, from)
    {
      pos := pos + 1;
    }
  }

  /** Stops at the closing star, or at the last character of a comment left open. */
  method ScanBlock(t: string, from: nat) returns (pos: nat)
    requires from <= |t|
    ensures from <= pos <= |t|
    ensures pos + 1 < |t| <==> BlockEnd(t, from).Some?
    ensures BlockEnd(t, from).Some? ==> BlockEnd(t, from) == Some(pos + 2)
    ensures BlockEnd(t, from).None? ==> pos == if from < |t| then |t| - 1 else from
  {
    pos := from;
    while pos + 1 < |t| && !ClosesAt(t, pos)
      invariant from <= pos <= |t| && (from < |t| ==> pos < |t|)
      invariant BlockEnd(t, pos) == BlockEnd(t, from)
    {
      pos := pos + 1;
    }
  }

  method FindMemberTailEnd(t: string, from: nat) returns (pos: nat)
    requires from <= |t|
    ensures pos == MemberTailEnd(t, from)
  {
    hide LineEnd, BlockEnd, BlankRun;
    pos := ScanBlankRun(t, from);
    if pos < |t| && t[pos] == ',' {
      pos := pos + 1;
    }
    pos := ScanBlankRun(t, pos);
    if pos + 1 < |t| && t[pos] == '/' && t[pos + 1] == '/' {
      pos := ScanLine(t, pos);
    } else if pos + 1 < |t| && t[pos] == '/' && t[pos + 1] == '*' {
      pos := ScanBlock(t, pos + 2);
      if pos + 1 < |t| {
        pos := pos + 2;
      }
    }
  }

  method FindNextSignificant(t: string, from: nat) returns (pos: nat)
    requires from <= |t|
    ensures pos == NextSignificant(t, from)
  {
    hide LineEnd, BlockEnd;
    pos := from;
    var done := false;
    while !done
      invariant pos <= |t| && NextSignificant(t, pos) == NextSignificant(t, from)
      invariant done ==> NextSignificant(t, pos) == pos
      decreases |t| - pos, !done
    {
      while pos < |t| && AsciiWhitespace(t[pos])
        invariant pos <= |t| && NextSignificant(t, pos) == NextSignificant(t, from)
      {
        pos := pos + 1;
      }
      if pos + 1 < |t| && t[pos] == '/' && t[pos + 1] == '/' {
        pos := ScanLine(t, pos + 2);
      } else if pos + 1 < |t| && t[pos] == '/' && t[pos + 1] == '*' {
        pos := ScanBlock(t, pos + 2);
        pos := if pos + 2 < |t| then pos + 2 else |t|;
      } else {
        done := true;
      }
    }
  }

  /** Back from the closing brace over blanks and carriage returns. */
  method FindInsert(t: string, closeLine: nat, close: nat) returns (insert: nat)
    requires closeLine <= close <= |t|
    ensures insert == TrimBack(t, closeLine, close)
  {
    insert := close;
    while insert > closeLine && InsertBlank(t[insert - 1])
      invariant closeLine <= insert <= close
      invariant TrimBack(t, closeLine, insert) == TrimBack(t, closeLine, close)
    {
      insert := insert - 1;
    }
  }

  /** The first line that is indented deeper than the one before it gives the unit. */
  method FindIndentUnit(t: string) returns (unit: string)
    ensures unit == DetectIndentUnit(t)
  {
    var lines := Lines(t);
    var previous: Option<nat> := None;
    var n := 0;
    while n < |lines|
      invariant n <= |lines|
      invariant DetectFrom(lines[n..], previous) == DetectIndentUnit(t)
    {
      var line := Content(lines[n]);
      var indent := ScanBlankRun(line, 0);
      assert lines[n..][0] == lines[n] && lines[n..][1..] == lines[n + 1..];
      if !AllWhitespace(line[indent..]) {
        if previous.Some? && indent > previous.value {
          return line[previous.value..indent];
        }
        previous := Some(indent);
      }
      n := n + 1;
    }
    return "  ";
  }
}
