/** The JSON editor: `set` and `del` as string surgery along a parsed tree. */
module JsonEdit {
  import opened Text
  import opened JsonLexer
  import opened JsonStrict
  import opened JsonParser
  import opened JsonReader
  import opened JsonCompose

  datatype EditError =
    | NotJson | Syntax(error: ParseError) | EmptyPath | RootNotObject | NotAnObject(key: string)

  /** One assignment: a dotted path and the value's compact JSON text. */
  datatype KV = KV(path: string, text: string)

  // ---- places in the text -----------------------------------------------------------

  function LineStart(t: string, pos: nat): (start: nat)
    requires pos <= |t|
    ensures start <= pos
    ensures forall k | start <= k < pos :: t[k] != '\n'
    ensures start > 0 ==> t[start - 1] == '\n'
  {
    if pos == 0 || t[pos - 1] == '\n' then pos else LineStart(t, pos - 1)
  }

  function BlankRun(t: string, i: nat, end: nat): (j: nat)
    requires i <= end <= |t|
    ensures i <= j <= end
    ensures forall k | i <= k < j :: Blank(t[k])
    ensures j < end ==> !Blank(t[j])
    decreases end - i
  {
    if i < end && Blank(t[i]) then BlankRun(t, i + 1, end) else i
  }

  predicate Blanks(s: string) {
    forall k | 0 <= k < |s| :: Blank(s[k])
  }

  function LineIndent(t: string, pos: nat): (indent: string)
    requires pos <= |t|
    ensures Blanks(indent)
  {
    t[LineStart(t, pos)..BlankRun(t, LineStart(t, pos), pos)]
  }

  function MemberIndent(t: string, node: Node, unit: string): (indent: string)
    requires WellFormed(t, node)
    ensures Blanks(unit) ==> Blanks(indent)
  {
    if node.kind.Object? && node.kind.members != [] && '\n' in Slice(t, node.start, node.kind.members[0].keyStart)
    then
      LaidOrder(t, node.kind.members, node.start + 1, node.end - 1, 0);
      LineIndent(t, node.kind.members[0].keyStart)
    else LineIndent(t, node.start) + unit
  }

  function DetectFrom(lines: seq<string>, previous: Option<nat>): (unit: string)
    ensures Blanks(unit)
  {
    if lines == [] then "  "
    else
      var line := Content(lines[0]);
      var indent := BlankRun(line, 0, |line|);
      if AllWhitespace(line[indent..]) then DetectFrom(lines[1..], previous)
      else if previous.Some? && indent > previous.value then line[previous.value..indent]
      else DetectFrom(lines[1..], Some(indent))
  }

  /** The first deeper indentation of the document, or two spaces. */
  function DetectIndentUnit(t: string): (unit: string)
    ensures Blanks(unit)
  {
    DetectFrom(Lines(t), None)
  }

  function NextCommentEnd(t: string, i: nat): (e: nat)
    requires OpensComment(t, i)
    ensures i < e <= |t|
  {
    match CommentEnd(t, i)
    case Some(e) => e
    case None => |t|
  }

  function NextSignificant(t: string, i: nat): (j: nat)
    requires i <= |t|
    ensures i <= j <= |t|
    decreases |t| - i
  {
    if i == |t| then i
    else if AsciiWhitespace(t[i]) then NextSignificant(t, i + 1)
    else if OpensComment(t, i) then NextSignificant(t, NextCommentEnd(t, i))
    else i
  }

  predicate CommaAt(t: string, i: nat) {
    i < |t| && t[i] == ','
  }

  /** Past one comma and one comment on the member's line. */
  function MemberTailEnd(t: string, pos: nat): (end: nat)
    requires pos <= |t|
    ensures pos <= end <= |t|
  {
    var a := BlankRun(t, pos, |t|);
    var b := BlankRun(t, if CommaAt(t, a) then a + 1 else a, |t|);
    if !OpensComment(t, b) then b
    else
      match CommentEnd(t, b)
      case Some(e) => e
      case None => if b + 2 < |t| then |t| - 1 else b + 2
  }

  function ExtendLineEnd(t: string, pos: nat): (end: nat)
    requires pos <= |t|
    ensures pos <= end <= |t|
  {
    var a := if pos < |t| && t[pos] == '\r' then pos + 1 else pos;
    if a < |t| && t[a] == '\n' then a + 1 else a
  }

  function Splice(t: string, i: nat, j: nat, replacement: string): string
    requires i <= j <= |t|
  {
    t[..i] + replacement + t[j..]
  }

  // ---- paths ----------------------------------------------------------------------

  function Pieces(path: string): (pieces: seq<string>)
    ensures pieces != []
  {
    if path == "" then [""]
    else
      var rest := Pieces(path[1..]);
      if path[0] == '.' then [""] + rest else [[path[0]] + rest[0]] + rest[1..]
  }

  function NonEmpty(pieces: seq<string>): (kept: seq<string>)
    ensures "" !in kept
  {
    if pieces == [] then []
    else (if pieces[0] == "" then [] else [pieces[0]]) + NonEmpty(pieces[1..])
  }

  function Segments(path: string): seq<string> {
    NonEmpty(Pieces(path))
  }

  // ---- set --------------------------------------------------------------------------

  function FindMember(ms: seq<Member>, key: string): (r: Option<nat>)
    ensures r.Some? ==> r.value < |ms| && ms[r.value].key == key
    ensures r.Some? ==> forall i | 0 <= i < r.value :: ms[i].key != key
    ensures r.None? ==> forall i | 0 <= i < |ms| :: ms[i].key != key
  {
    if ms == [] then None
    else if ms[0].key == key then Some(0)
    else
      match FindMember(ms[1..], key)
      case Some(i) => Some(i + 1)
      case None => None
  }

  function BuildMember(key: string, tail: seq<string>, v: string, indent: string, newline: string, unit: string): string
    decreases |tail|
  {
    if tail == [] then Quote(key) + ": " + v
    else
      var childIndent := indent + unit;
      Quote(key) + ": {" + newline + childIndent
      + BuildMember(tail[0], tail[1..], v, childIndent, newline, unit)
      + newline + indent + "}"
  }

  predicate InsertBlank(c: char) {
    c == ' ' || c == '\t' || c == '\r'
  }

  function TrimBack(t: string, lo: nat, hi: nat): (j: nat)
    requires lo <= hi <= |t|
    ensures lo <= j <= hi
    ensures forall k | j <= k < hi :: InsertBlank(t[k])
    ensures j > lo ==> !InsertBlank(t[j - 1])
  {
    if lo < hi && InsertBlank(t[hi - 1]) then TrimBack(t, lo, hi - 1) else hi
  }

  /** The closing brace stands alone on its line, under at least one member. */
  predicate OwnLineClose(t: string, node: Node)
    requires WellFormed(t, node) && node.kind.Object?
  {
    && node.kind.members != []
    && AllWhitespace(t[LineStart(t, node.end - 1)..node.end - 1])
  }

  /** Where a new member's line goes in, and where the old text goes on. */
  function InsertSpan(t: string, node: Node): (span: (nat, nat))
    requires WellFormed(t, node) && node.kind.Object?
    ensures span.0 <= span.1 < node.end
  {
    var close := node.end - 1;
    var closeLine := LineStart(t, close);
    if OwnLineClose(t, node) then (closeLine, closeLine)
    else (TrimBack(t, closeLine, close), close)
  }

  /** The text that goes in at the insert span. */
  function InsertText(t: string, node: Node, memberText: string, newline: string, unit: string): string
    requires WellFormed(t, node) && node.kind.Object?
  {
    var at := InsertSpan(t, node).0;
    var line := MemberIndent(t, node, unit) + memberText + (if TrailingCommaOf(t, node) then "," else "") + newline;
    if OwnLineClose(t, node) then line
    else
      (if at == 0 || t[at - 1] == '\n' then "" else newline) + line + LineIndent(t, node.end - 1)
  }

  predicate TrailingCommaOf(t: string, node: Node)
    requires WellFormed(t, node) && node.kind.Object?
  {
    && node.kind.members != []
    && var last := node.kind.members[|node.kind.members| - 1];
       LaidOrder(t, node.kind.members, node.start + 1, node.end - 1, |node.kind.members| - 1);
       CommaAt(t, NextSignificant(t, last.value.end))
  }

  lemma LastMember(t: string, node: Node)
    requires WellFormed(t, node) && node.kind.Object? && node.kind.members != []
    ensures var end := node.kind.members[|node.kind.members| - 1].value.end;
      node.start < end - 1 && end < node.end <= |t| && !AsciiWhitespace(t[end - 1])
  {
    hide Laid;
    var ms := node.kind.members;
    LaidOrder(t, ms, node.start + 1, node.end - 1, |ms| - 1);
    assert WellFormedMember(t, ms[|ms| - 1]);
    NodeBounds(t, ms[|ms| - 1].value);
  }

  lemma TrimBackPast(t: string, lo: nat, hi: nat, end: nat)
    requires lo <= hi <= |t| && 0 < end <= hi && !InsertBlank(t[end - 1])
    ensures end <= lo || end <= TrimBack(t, lo, hi)
  {
  }

  lemma InsertAfterLast(t: string, node: Node)
    requires WellFormed(t, node) && node.kind.Object? && node.kind.members != []
    requires !OwnLineClose(t, node)
    ensures node.kind.members[|node.kind.members| - 1].value.end <= InsertSpan(t, node).0
  {
    hide WellFormed, OwnLineClose, TrimBack, LineStart;
    LastMember(t, node);
    TrimBackPast(t, LineStart(t, node.end - 1), node.end - 1, node.kind.members[|node.kind.members| - 1].value.end);
  }

  /** What the insertion makes of the text, before the comma that may have to follow the last value. */
  function WithLine(t: string, node: Node, memberText: string, newline: string, unit: string): (result: string)
    requires WellFormed(t, node) && node.kind.Object?
    ensures node.kind.members != [] ==> node.kind.members[|node.kind.members| - 1].value.end <= |result|
  {
    var (at, resume) := InsertSpan(t, node);
    var result := Splice(t, at, resume, InsertText(t, node, memberText, newline, unit));
    assert node.kind.members != [] ==> node.kind.members[|node.kind.members| - 1].value.end <= |result| by {
      hide WellFormed, OwnLineClose, InsertText;
      if node.kind.members != [] {
        LastMember(t, node);
        if !OwnLineClose(t, node) {
          InsertAfterLast(t, node);
        }
      }
    }
    result
  }

  function InsertMember(t: string, node: Node, memberText: string, newline: string, unit: string): string
    requires WellFormed(t, node) && node.kind.Object?
  {
    var ms := node.kind.members;
    var result := WithLine(t, node, memberText, newline, unit);
    if ms == [] || TrailingCommaOf(t, node) then result
    else Splice(result, ms[|ms| - 1].value.end, ms[|ms| - 1].value.end, ",")
  }

  function EditObject(t: string, node: Node, segments: seq<string>, v: string, newline: string, unit: string)
    : Result<string, EditError>
    requires WellFormed(t, node) && segments != []
    decreases |segments|
  {
    if !node.kind.Object? then Err(NotAnObject(segments[0]))
    else
      var ms, key := node.kind.members, segments[0];
      match FindMember(ms, key)
      case None =>
        var indent := MemberIndent(t, node, unit);
        Ok(InsertMember(t, node, BuildMember(key, segments[1..], v, indent, newline, unit), newline, unit))
      case Some(k) =>
        var value := ms[k].value;
        assert WellFormedMember(t, ms[k]);
        if |segments| == 1 then
          LaidOrder(t, ms, node.start + 1, node.end - 1, k);
          if t[value.start..value.end] == v then Ok(t)
          else Ok(Splice(t, value.start, value.end, v))
        else if value.kind.Object? then EditObject(t, value, segments[1..], v, newline, unit)
        else Err(NotAnObject(key))
  }

  function SetOne(t: string, kv: KV): Result<string, EditError> {
    if !Accepts(t) then Err(NotJson)
    else
      var segments := Segments(kv.path);
      if segments == [] then Err(EmptyPath)
      else
        match ParseDocument(t)
        case Err(e) => Err(Syntax(e))
        case Ok(root) =>
          if !root.kind.Object? then Err(RootNotObject)
          else
            ParsedDocumentIsWellFormed(t);
            EditObject(t, root, segments, kv.text, NewlineStyle(t), DetectIndentUnit(t))
  }

  function SetAll(t: string, kvs: seq<KV>): Result<string, EditError>
    decreases |kvs|
  {
    if kvs == [] then Ok(t)
    else
      match SetOne(t, kvs[0])
      case Ok(u) => SetAll(u, kvs[1..])
      case Err(e) => Err(e)
  }

  function Set(original: string, kvs: seq<KV>): Result<string, EditError> {
    var (bom, body) := SplitBom(original);
    if kvs == [] then if Accepts(body) then Ok(original) else Err(NotJson)
    else
      var normalized := if AllWhitespace(StripJsonc(body)) then "{}" else body;
      if !Accepts(normalized) then Err(NotJson)
      else
        match SetAll(normalized, kvs)
        case Ok(u) => Ok(bom + u)
        case Err(e) => Err(e)
  }

  // ---- del --------------------------------------------------------------------------

  /** A member that starts its own line inside the object. */
  predicate OnOwnLine(t: string, node: Node, m: Member)
    requires m.keyStart <= |t|
  {
    var line := LineStart(t, m.keyStart);
    line > node.start && AllWhitespace(t[line..m.keyStart])
  }

  predicate HasComment(s: string) {
    exists k | 0 <= k < |s| :: OpensComment(s, k)
  }

  function RemoveOnly(t: string, node: Node): string
    requires WellFormed(t, node) && node.kind.Object? && |node.kind.members| == 1
  {
    var m := node.kind.members[0];
    LaidOrder(t, node.kind.members, node.start + 1, node.end - 1, 0);
    if !HasComment(t[node.start + 1..node.end - 1]) then Splice(t, node.start, node.end, "{}")
    else
      var line := LineStart(t, m.keyStart);
      var start := if OnOwnLine(t, node, m) then line else m.keyStart;
      var end := MemberTailEnd(t, m.value.end);
      Splice(t, start, if start == line then ExtendLineEnd(t, end) else end, "")
  }

  function RemoveMember(t: string, node: Node, k: nat): string
    requires WellFormed(t, node) && node.kind.Object? && k < |node.kind.members|
  {
    var ms := node.kind.members;
    MembersOrdered(t, node, k);
    var m := ms[k];
    if |ms| == 1 then RemoveOnly(t, node)
    else if k + 1 < |ms| then
      if OnOwnLine(t, node, m) then
        Splice(t, LineStart(t, m.keyStart), ExtendLineEnd(t, MemberTailEnd(t, m.value.end)), "")
      else Splice(t, m.keyStart, ms[k + 1].keyStart, "")
    else
      var previous := ms[k - 1].value.end;
      var result := Splice(t, previous, MemberTailEnd(t, m.value.end), "");
      if CommaAt(t, NextSignificant(t, m.value.end)) then Splice(result, previous, previous, ",") else result
  }

  function DelPath(t: string, node: Node, segments: seq<string>): string
    requires WellFormed(t, node) && segments != []
    decreases |segments|
  {
    if !node.kind.Object? then t
    else
      match FindMember(node.kind.members, segments[0])
      case None => t
      case Some(k) =>
        var value := node.kind.members[k].value;
        assert WellFormedMember(t, node.kind.members[k]);
        if |segments| == 1 then RemoveMember(t, node, k)
        else if value.kind.Object? then DelPath(t, value, segments[1..])
        else t
  }

  function DelOne(t: string, path: string): Result<string, EditError> {
    if !Accepts(t) then Err(NotJson)
    else
      var segments := Segments(path);
      if segments == [] then Err(EmptyPath)
      else
        match ParseDocument(t)
        case Err(e) => Err(Syntax(e))
        case Ok(root) =>
          if !root.kind.Object? then Err(RootNotObject)
          else
            ParsedDocumentIsWellFormed(t);
            Ok(DelPath(t, root, segments))
  }

  function DelAll(t: string, paths: seq<string>): Result<string, EditError>
    decreases |paths|
  {
    if paths == [] then Ok(t)
    else
      match DelOne(t, paths[0])
      case Ok(u) => DelAll(u, paths[1..])
      case Err(e) => Err(e)
  }

  function Del(original: string, paths: seq<string>): Result<string, EditError> {
    var (bom, body) := SplitBom(original);
    if AllWhitespace(StripJsonc(body)) then Ok(original)
    else if !Accepts(body) then Err(NotJson)
    else
      match DelAll(body, paths)
      case Ok(u) => Ok(bom + u)
      case Err(e) => Err(e)
  }
}
