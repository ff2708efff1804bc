/** Characters, lines and result types shared by the editors. */
module Text {

  datatype Option<+T> = None | Some(value: T) {
    predicate IsFailure() {
      None?
    }

    function PropagateFailure<U>(): Option<U>
      requires None?
    {
      None
    }

    function Extract(): T
      requires Some?
    {
      value
    }
  }

  datatype Result<+T, +E> = Ok(value: T) | Err(error: E) {
    predicate IsFailure() {
      Err?
    }

    function PropagateFailure<U>(): Result<U, E>
      requires Err?
    {
      Err(error)
    }

    function Extract(): T
      requires Ok?
    {
      value
    }
  }

  /** The byte order mark, as the one character it decodes to. */
  const BOM: char := '\U{FEFF}'

  predicate Blank(c: char) {
    c == ' ' || c == '\t'
  }

  predicate AsciiWhitespace(c: char) {
    c == ' ' || c == '\t' || c == '\n' || c == '\r' || c == '\U{C}'
  }

  /** The Unicode White_Space property, which `trim` and `is_whitespace` use. */
  predicate Whitespace(c: char) {
    || '\t' <= c <= '\r'
    || c == ' '
    || c == '\U{85}'
    || c == '\U{A0}'
    || c == '\U{1680}'
    || '\U{2000}' <= c <= '\U{200A}'
    || c == '\U{2028}'
    || c == '\U{2029}'
    || c == '\U{202F}'
    || c == '\U{205F}'
    || c == '\U{3000}'
  }

  /** `s.trim().is_empty()` */
  predicate AllWhitespace(s: string) {
    forall k | 0 <= k < |s| :: Whitespace(s[k])
  }

  predicate ContainsCrLf(s: string) {
    exists k | 0 <= k < |s| - 1 :: s[k] == '\r' && s[k + 1] == '\n'
  }

  /** The line ending an editor uses for the text it adds. */
  function NewlineStyle(s: string): string {
    if ContainsCrLf(s) then "\r\n" else "\n"
  }

  function SplitBom(s: string): (r: (string, string))
    ensures r.0 + r.1 == s
  {
    if |s| > 0 && s[0] == BOM then ([BOM], s[1..]) else ("", s)
  }

  function Concat(parts: seq<string>): string {
    if parts == [] then "" else parts[0] + Concat(parts[1..])
  }

  lemma ConcatStep(parts: seq<string>)
    ensures parts == [] ==> Concat(parts) == ""
    ensures parts != [] ==> Concat(parts) == parts[0] + Concat(parts[1..])
  {
  }

  lemma {:induction false} ConcatAppend(a: seq<string>, b: seq<string>)
    ensures Concat(a + b) == Concat(a) + Concat(b)
  {
    hide Concat;
    if a == [] {
      ConcatStep(a);
      assert a + b == b;
    } else {
      ConcatAppend(a[1..], b);
      ConcatStep(a);
      ConcatStep(a + b);
      assert (a + b)[0] == a[0] && (a + b)[1..] == a[1..] + b;
      var x, y, z := a[0], Concat(a[1..]), Concat(b);
      assert (x + y) + z == x + (y + z);
    }
  }

  /** `split_inclusive('\n')`: every line keeps its newline. */
  function Lines(s: string): (lines: seq<string>)
    ensures LinesOk(lines)
    ensures Concat(lines) == s
  {
    if s == "" then []
    else
      var n := LineLength(s);
      [s[..n]] + Lines(s[n..])
  }

  function LineLength(s: string): (n: nat)
    requires s != ""
    ensures 0 < n <= |s|
    ensures '\n' !in s[..n - 1]
    ensures n < |s| ==> s[n - 1] == '\n'
  {
    if s[0] == '\n' || |s| == 1 then 1
    else
      var n := LineLength(s[1..]) + 1;
      assert s[..n - 1] == [s[0]] + s[1..][..n - 2];
      n
  }

  predicate IsLine(line: string) {
    line != "" && '\n' !in line[..|line| - 1]
  }

  predicate Terminated(line: string) {
    line != "" && line[|line| - 1] == '\n'
  }

  /** What `split_inclusive` yields: only the last line may lack its newline. */
  predicate LinesOk(lines: seq<string>) {
    && (forall i | 0 <= i < |lines| :: IsLine(lines[i]))
    && (forall i | 0 <= i < |lines| - 1 :: Terminated(lines[i]))
  }

  /** A line without its ending, and the ending. */
  function SplitLineEnd(line: string): (r: (string, string))
    ensures r.0 + r.1 == line
    ensures IsLine(line) ==> '\n' !in r.0
    ensures r.1 in ["", "\n", "\r\n"]
  {
    var n := |line|;
    if n > 0 && line[n - 1] == '\n' then
      if n > 1 && line[n - 2] == '\r' then (line[..n - 2], "\r\n")
      else (line[..n - 1], "\n")
    else (line, "")
  }

  function Content(line: string): string {
    SplitLineEnd(line).0
  }

  lemma LineLengthOf(line: string, rest: string)
    requires IsLine(line)
    requires rest == "" || Terminated(line)
    ensures LineLength(line + rest) == |line|
  {
    var s := line + rest;
    var n := LineLength(s);
    assert s[|line| - 1] == line[|line| - 1];
    assert n <= |line| ==> s[n - 1] == line[n - 1];
  }

  /** Splitting what was joined gives the lines back. */
  lemma {:induction false} LinesOfConcat(lines: seq<string>)
    requires LinesOk(lines)
    ensures Lines(Concat(lines)) == lines
  {
    if lines != [] {
      var rest := Concat(lines[1..]);
      assert lines[1..] == [] ==> rest == "";
      LineLengthOf(lines[0], rest);
      LinesOfConcat(lines[1..]);
      assert (lines[0] + rest)[|lines[0]|..] == rest;
      assert lines == [lines[0]] + lines[1..];
    }
  }
}
