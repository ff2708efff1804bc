/**
 * `strip_jsonc` and the reader behind it. The guard of every edit is that the
 * stripped copy is JSON; what it says about the original is `Document`.
 */
module JsonReader {
  import opened Text
  import opened JsonLexer
  import opened JsonStrict

  // ---- the stripped copy ------------------------------------------------------------

  predicate LineBreak(c: char) {
    c == '\n' || c == '\r'
  }

  function Blanked(t: string, i: nat, j: nat): (b: string)
    requires i <= j <= |t|
    ensures |b| == j - i
    ensures forall k | 0 <= k < |b| :: b[k] == if LineBreak(t[i + k]) then t[i + k] else ' '
  {
    seq(j - i, k requires 0 <= k < j - i => if LineBreak(t[i + k]) then t[i + k] else ' ')
  }

  function StringStop(t: string, i: nat): (j: nat)
    requires i < |t|
    ensures i < j <= |t|
  {
    match StringEnd(t, i + 1)
    case Some(e) => e
    case None => |t|
  }

  function CommentStop(t: string, i: nat): (j: nat)
    requires OpensComment(t, i)
    ensures i < j <= |t|
  {
    match CommentEnd(t, i)
    case Some(e) => e
    case None => |t|
  }

  /** The first pass from `i` on, outside any string: comments become blanks. */
  function StripComments(t: string, i: nat): (r: string)
    requires i <= |t|
    ensures |r| == |t| - i
    decreases |t| - i
  {
    if i == |t| then ""
    else if t[i] == '"' then
      var e := StringStop(t, i);
      t[i..e] + StripComments(t, e)
    else if OpensComment(t, i) then
      var e := CommentStop(t, i);
      Blanked(t, i, e) + StripComments(t, e)
    else [t[i]] + StripComments(t, i + 1)
  }

  function NextToken(u: string, i: nat): (j: nat)
    requires i <= |u|
    ensures i <= j <= |u|
    ensures j < |u| ==> !AsciiWhitespace(u[j])
    ensures forall k | i <= k < j :: AsciiWhitespace(u[k])
    decreases |u| - i
  {
    if i < |u| && AsciiWhitespace(u[i]) then NextToken(u, i + 1) else i
  }

  predicate TrailingComma(u: string, i: nat)
    requires i < |u|
  {
    var j := NextToken(u, i + 1);
    u[i] == ',' && j < |u| && (u[j] == '}' || u[j] == ']')
  }

  /** The second pass from `i` on: a comma before a closing bracket becomes a blank. */
  function StripCommas(u: string, i: nat): (r: string)
    requires i <= |u|
    ensures |r| == |u| - i
    decreases |u| - i
  {
    if i == |u| then ""
    else if u[i] == '"' then
      var e := StringStop(u, i);
      u[i..e] + StripCommas(u, e)
    else
      [if TrailingComma(u, i) then ' ' else u[i]] + StripCommas(u, i + 1)
  }

  function StripJsonc(t: string): (s: string)
    ensures |s| == |t|
  {
    StripCommas(StripComments(t, 0), 0)
  }

  // ---- the reader: RFC 8259 -----------------------------------------------------------

  function ReadSkip(s: string, i: nat): (j: nat)
    requires i <= |s|
    ensures i <= j <= |s|
    ensures j < |s| ==> !JsonWs(s[j])
    ensures forall k | i <= k < j :: JsonWs(s[k])
    decreases |s| - i
  {
    if i < |s| && JsonWs(s[i]) then ReadSkip(s, i + 1) else i
  }

  function ReadSeparator(s: string, p: nat, first: bool, close: char): (r: Option<nat>)
    requires p <= |s|
    ensures r.Some? ==> p <= r.value < |s|
  {
    var q := ReadSkip(s, p);
    if q == |s| then None
    else if s[q] == close || first then Some(q)
    else if s[q] == ',' then
      var r := ReadSkip(s, q + 1);
      if r == |s| || s[r] == close then None else Some(r)
    else None
  }

  function ReadValue(s: string, i: nat): (r: Option<nat>)
    ensures r.Some? ==> i < r.value <= |s|
    decreases |s| - i, 0
  {
    if i >= |s| then None
    else if s[i] == '{' then ReadMembers(s, i + 1, true)
    else if s[i] == '[' then ReadElements(s, i + 1, true)
    else ScalarEnd(s, i)
  }

  function ReadMember(s: string, q: nat): (r: Option<nat>)
    requires q < |s|
    ensures r.Some? ==> q < r.value <= |s|
    decreases |s| - q, 1
  {
    if s[q] != '"' then None
    else
      match StringEnd(s, q + 1)
      case None => None
      case Some(e) =>
        var colon := ReadSkip(s, e);
        if Decode(s[q + 1..e - 1]).None? || colon == |s| || s[colon] != ':' then None
        else ReadValue(s, ReadSkip(s, colon + 1))
  }

  function ReadMembers(s: string, p: nat, first: bool): (r: Option<nat>)
    requires p <= |s|
    ensures r.Some? ==> p < r.value <= |s|
    decreases |s| - p, 2
  {
    match ReadSeparator(s, p, first, '}')
    case None => None
    case Some(q) =>
      if s[q] == '}' then Some(q + 1)
      else
        match ReadMember(s, q)
        case None => None
        case Some(e) => ReadMembers(s, e, false)
  }

  function ReadElements(s: string, p: nat, first: bool): (r: Option<nat>)
    requires p <= |s|
    ensures r.Some? ==> p < r.value <= |s|
    decreases |s| - p, 1
  {
    match ReadSeparator(s, p, first, ']')
    case None => None
    case Some(q) =>
      if s[q] == ']' then Some(q + 1)
      else
        match ReadValue(s, q)
        case None => None
        case Some(e) => ReadElements(s, e, false)
  }

  predicate IsJson(s: string) {
    match ReadValue(s, ReadSkip(s, 0))
    case Some(e) => ReadSkip(s, e) == |s|
    case None => false
  }

  /** `parse_json(text).is_ok()` */
  predicate Accepts(t: string) {
    IsJson(StripJsonc(SplitBom(t).1))
  }
}
