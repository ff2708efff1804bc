/** The format-preserving dotenv editor: `get`, `set` and `del` on one text. */
module DotEnv {
  import opened Text

  datatype Quote = Bare | Single | Double

  /** One `KEY=value` line; the value's span includes its quotes. */
  datatype Assignment = Assignment(key: string, start: nat, end: nat, quote: Quote)

  /** A value to write: a string, null, or any other JSON value by its text. */
  datatype Value = Str(text: string) | Null | Json(text: string)

  datatype KV = KV(path: string, value: Value)

  // ---- one line -------------------------------------------------------------

  function SkipBlanks(c: string, i: nat): (j: nat)
    requires i <= |c|
    ensures i <= j <= |c|
    ensures j < |c| ==> !Blank(c[j])
    ensures forall k | i <= k < j :: Blank(c[k])
    decreases |c| - i
  {
    if i < |c| && Blank(c[i]) then SkipBlanks(c, i + 1) else i
  }

  predicate ExportAt(c: string, i: nat) {
    i + 6 < |c| && c[i..i + 6] == "export" && Blank(c[i + 6])
  }

  predicate EndsKey(ch: char) {
    ch == '=' || ch == ' ' || ch == '\t' || ch == '#' || ch == '\r'
  }

  function KeyEnd(c: string, i: nat): (j: nat)
    requires i <= |c|
    ensures i <= j <= |c|
    ensures j < |c| ==> EndsKey(c[j])
    ensures forall k | i <= k < j :: !EndsKey(c[k])
    decreases |c| - i
  {
    if i < |c| && !EndsKey(c[i]) then KeyEnd(c, i + 1) else i
  }

  /** Just past the closing double quote, honouring backslashes; or the end. */
  function DoubleEnd(c: string, i: nat): (j: nat)
    requires i <= |c|
    ensures i <= j <= |c|
    decreases |c| - i
  {
    if i == |c| then i
    else if c[i] == '\\' then DoubleEnd(c, if i + 2 <= |c| then i + 2 else |c|)
    else if c[i] == '"' then i + 1
    else DoubleEnd(c, i + 1)
  }

  function SingleEnd(c: string, i: nat): (j: nat)
    requires i <= |c|
    ensures i <= j <= |c|
    decreases |c| - i
  {
    if i == |c| then i
    else if c[i] == '\'' then i + 1
    else SingleEnd(c, i + 1)
  }

  predicate CommentAt(c: string, start: nat, i: nat)
    requires start <= i < |c|
  {
    c[i] == '#' && (i == start || Blank(c[i - 1]))
  }

  /** Where an unquoted value's line ends: at an inline comment or at the end. */
  function BareStop(c: string, start: nat, i: nat): (j: nat)
    requires start <= i <= |c|
    ensures i <= j <= |c|
    ensures j < |c| ==> CommentAt(c, start, j)
    ensures forall k | i <= k < j :: !CommentAt(c, start, k)
    decreases |c| - i
  {
    if i == |c| || CommentAt(c, start, i) then i else BareStop(c, start, i + 1)
  }

  /** The end of `c[lo..hi]` without its trailing blanks. */
  function TrimBlanks(c: string, lo: nat, hi: nat): (j: nat)
    requires lo <= hi <= |c|
    ensures lo <= j <= hi
    ensures j > lo ==> !Blank(c[j - 1])
    ensures forall k | j <= k < hi :: Blank(c[k])
  {
    if lo < hi && Blank(c[hi - 1]) then TrimBlanks(c, lo, hi - 1) else hi
  }

  function QuoteAt(c: string, i: nat): Quote {
    if i < |c| && c[i] == '"' then Double
    else if i < |c| && c[i] == '\'' then Single
    else Bare
  }

  function ValueEnd(c: string, start: nat): (end: nat)
    requires start <= |c|
    ensures start <= end <= |c|
  {
    match QuoteAt(c, start)
    case Double => DoubleEnd(c, start + 1)
    case Single => SingleEnd(c, start + 1)
    case Bare => TrimBlanks(c, start, BareStop(c, start, start))
  }

  /** Where the key starts: past the indentation and an `export ` prefix. */
  function KeyStart(c: string): (ks: nat)
    ensures ks <= |c|
  {
    var i := SkipBlanks(c, 0);
    if ExportAt(c, i) then SkipBlanks(c, i + 6) else i
  }

  /** The key of an assignment, and where its value starts. */
  function ParseKey(c: string): (r: Option<(string, nat)>)
    ensures r.Some? ==> r.value.1 <= |c|
  {
    var i := SkipBlanks(c, 0);
    if i == |c| || c[i] == '#' then None
    else
      var ks := KeyStart(c);
      var ke := KeyEnd(c, ks);
      var eq := SkipBlanks(c, ke);
      if ke == ks || eq == |c| || c[eq] != '=' then None
      else Some((c[ks..ke], SkipBlanks(c, eq + 1)))
  }

  function ParseLine(c: string): (r: Option<Assignment>)
    ensures r.Some? ==> r.value.start <= r.value.end <= |c|
  {
    match ParseKey(c)
    case Some((key, start)) => Some(Assignment(key, start, ValueEnd(c, start), QuoteAt(c, start)))
    case None => None
  }

  // ---- quoting --------------------------------------------------------------

  function EscapeChar(ch: char): string {
    match ch
    case '\\' => "\\\\"
    case '"' => "\\\""
    case '\n' => "\\n"
    case '\r' => "\\r"
    case '\t' => "\\t"
    case _ => [ch]
  }

  function EscapeDouble(raw: string): string {
    if raw == "" then "" else EscapeChar(raw[0]) + EscapeDouble(raw[1..])
  }

  function UnescapeChar(ch: char): string {
    match ch
    case 'n' => "\n"
    case 'r' => "\r"
    case 't' => "\t"
    case '\\' => "\\"
    case '"' => "\""
    case '\'' => "'"
    case _ => ['\\', ch]
  }

  function UnescapeDouble(raw: string): string {
    if raw == "" then ""
    else if raw[0] != '\\' then [raw[0]] + UnescapeDouble(raw[1..])
    else if |raw| == 1 then "\\"
    else UnescapeChar(raw[1]) + UnescapeDouble(raw[2..])
  }

  predicate NeedsQuotes(raw: string) {
    || raw == ""
    || exists k | 0 <= k < |raw| :: Whitespace(raw[k]) || raw[k] in "#\"'\\"
  }

  function Quoted(raw: string): string {
    "\"" + EscapeDouble(raw) + "\""
  }

  function QuoteEnv(raw: string): string {
    if NeedsQuotes(raw) then Quoted(raw) else raw
  }

  /** `strip_prefix(q)` then `strip_suffix(q)`, or the text unchanged. */
  function StripQuotes(s: string, q: char): string {
    if |s| >= 2 && s[0] == q && s[|s| - 1] == q then s[1..|s| - 1] else s
  }

  function ValueOf(c: string, a: Assignment): string
    requires a.start <= a.end <= |c|
  {
    var raw := c[a.start..a.end];
    match a.quote
    case Double => UnescapeDouble(StripQuotes(raw, '"'))
    case Single => StripQuotes(raw, '\'')
    case Bare => raw
  }

  function NewValueText(quote: Quote, raw: string): string {
    match quote
    case Double => Quoted(raw)
    case Single =>
      if '\'' in raw || '\n' in raw || '\r' in raw then Quoted(raw) else "'" + raw + "'"
    case Bare => QuoteEnv(raw)
  }

  function ReplaceValue(c: string, a: Assignment, raw: string): string
    requires a.start <= a.end <= |c|
  {
    c[..a.start] + NewValueText(a.quote, raw) + c[a.end..]
  }

  // ---- a text, as lines ------------------------------------------------------

  predicate Assigns(line: string, key: string) {
    var a := ParseLine(Content(line));
    a.Some? && a.value.key == key
  }

  function LastWhere<T>(xs: seq<T>, p: T -> bool): (r: Option<nat>)
    ensures r.Some? ==> r.value < |xs| && p(xs[r.value])
    ensures r.Some? ==> forall k | r.value < k < |xs| :: !p(xs[k])
    ensures r.None? ==> forall k | 0 <= k < |xs| :: !p(xs[k])
  {
    if xs == [] then None
    else if p(xs[|xs| - 1]) then Some(|xs| - 1)
    else LastWhere(xs[..|xs| - 1], p)
  }

  function LastAssignment(lines: seq<string>, key: string): (r: Option<nat>)
    ensures r.Some? ==> r.value < |lines| && Assigns(lines[r.value], key)
  {
    LastWhere(lines, line => Assigns(line, key))
  }

  function ReadLine(line: string): string
    requires ParseLine(Content(line)).Some?
  {
    ValueOf(Content(line), ParseLine(Content(line)).value)
  }

  /** The value `get` reads: the last assignment of `key` wins. */
  function GetLines(lines: seq<string>, key: string): Option<string> {
    match LastAssignment(lines, key)
    case Some(i) => Some(ReadLine(lines[i]))
    case None => None
  }

  function ReplaceInLine(line: string, raw: string): string
    requires ParseLine(Content(line)).Some?
  {
    var (content, ending) := SplitLineEnd(line);
    ReplaceValue(content, ParseLine(content).value, raw) + ending
  }

  function EnsureTerminated(lines: seq<string>, newline: string): (r: seq<string>)
    ensures |r| == |lines|
  {
    if lines != [] && !Terminated(lines[|lines| - 1])
    then lines[|lines| - 1 := lines[|lines| - 1] + newline]
    else lines
  }

  function RawValue(value: Value): string {
    match value
    case Str(text) => text
    case Null => ""
    case Json(text) => text
  }

  function AppendedLine(key: string, raw: string, newline: string): string {
    key + "=" + QuoteEnv(raw) + newline
  }

  function SetKey(lines: seq<string>, key: string, raw: string, newline: string): seq<string> {
    match LastAssignment(lines, key)
    case Some(i) => lines[i := ReplaceInLine(lines[i], raw)]
    case None => EnsureTerminated(lines, newline) + [AppendedLine(key, raw, newline)]
  }

  function SetLines(lines: seq<string>, kvs: seq<KV>, newline: string): seq<string> {
    if kvs == [] then lines
    else
      var kv := kvs[|kvs| - 1];
      SetKey(SetLines(lines, kvs[..|kvs| - 1], newline), kv.path, RawValue(kv.value), newline)
  }

  predicate Removed(line: string, keys: seq<string>) {
    var a := ParseLine(Content(line));
    a.Some? && a.value.key in keys
  }

  function DelLines(lines: seq<string>, keys: seq<string>): seq<string> {
    if lines == [] then []
    else
      var last := lines[|lines| - 1];
      DelLines(lines[..|lines| - 1], keys) + if Removed(last, keys) then [] else [last]
  }

  function Get(original: string, key: string): Option<string> {
    GetLines(Lines(SplitBom(original).1), key)
  }

  function Set(original: string, kvs: seq<KV>): string {
    var (bom, body) := SplitBom(original);
    bom + Concat(SetLines(Lines(body), kvs, NewlineStyle(body)))
  }

  function Del(original: string, keys: seq<string>): string {
    var (bom, body) := SplitBom(original);
    bom + Concat(DelLines(Lines(body), keys))
  }
}
