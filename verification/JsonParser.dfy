/**
 * The editor's own parser. It is laxer than JSON (stray commas, missing commas,
 * any bare word), so its tree means something only for text the reader accepted.
 */
module JsonParser {
  import opened Text
  import opened JsonLexer
  import opened JsonStrict

  datatype Reason =
    | EmptyDocument | TrailingData | UnexpectedEnd | UnexpectedCharacter
    | UnterminatedObject | UnterminatedArray | UnterminatedString
    | ExpectedColon | ExpectedKey | BadKey

  datatype ParseError = ParseError(reason: Reason, at: nat)

  /** Where the parser leaves a comment; one left open ends before the last character. */
  function LooseCommentEnd(t: string, i: nat): (e: nat)
    requires OpensComment(t, i)
    ensures i + 2 <= e <= |t|
  {
    match CommentEnd(t, i)
    case Some(e) => e
    case None => if i + 2 < |t| then |t| - 1 else i + 2
  }

  function LooseSkip(t: string, i: nat): (j: nat)
    requires i <= |t|
    ensures i <= j <= |t|
    ensures j < |t| ==> !AsciiWhitespace(t[j]) && !OpensComment(t, j)
    decreases |t| - i
  {
    if i == |t| then i
    else if AsciiWhitespace(t[i]) then LooseSkip(t, i + 1)
    else if OpensComment(t, i) then LooseSkip(t, LooseCommentEnd(t, i))
    else i
  }

  function ParseValue(t: string, i: nat): (r: Result<Node, ParseError>)
    requires i <= |t|
    ensures r.Ok? ==> r.value.start == LooseSkip(t, i) < r.value.end <= |t|
    decreases |t| - i, 0
  {
    var start := LooseSkip(t, i);
    if start == |t| then Err(ParseError(UnexpectedEnd, start))
    else if t[start] == '{' then
      match ParseMembers(t, start + 1)
      case Ok(r) => Ok(Node(Object(r.0), start, r.1))
      case Err(e) => Err(e)
    else if t[start] == '[' then
      match ParseElements(t, start + 1)
      case Ok(end) => Ok(Node(Array, start, end))
      case Err(e) => Err(e)
    else if t[start] == '"' then
      match StringEnd(t, start + 1)
      case Some(end) => Ok(Node(Scalar, start, end))
      case None => Err(ParseError(UnterminatedString, |t|))
    else
      var end := BareEnd(t, start);
      if end == start then Err(ParseError(UnexpectedCharacter, start))
      else Ok(Node(Scalar, start, end))
  }

  function ParseKey(t: string, q: nat): (r: Result<(string, nat), ParseError>)
    requires q < |t|
    ensures r.Ok? ==> q < r.value.1 <= |t|
  {
    match StringEnd(t, q + 1)
    case None => Err(ParseError(UnterminatedString, |t|))
    case Some(e) =>
      match Decode(t[q + 1..e - 1])
      case None => Err(ParseError(BadKey, e))
      case Some(key) =>
        var colon := LooseSkip(t, e);
        if colon == |t| || t[colon] != ':' then Err(ParseError(ExpectedColon, colon))
        else Ok((key, colon + 1))
  }

  function ParseMember(t: string, q: nat): (r: Result<Member, ParseError>)
    requires q < |t|
    ensures r.Ok? ==> r.value.keyStart == q < r.value.value.start < r.value.value.end <= |t|
    decreases |t| - q, 1
  {
    match ParseKey(t, q)
    case Err(e) => Err(e)
    case Ok(head) =>
      match ParseValue(t, head.1)
      case Err(e) => Err(e)
      case Ok(value) => Ok(Member(head.0, q, value))
  }

  function ParseMembers(t: string, p: nat): (r: Result<(seq<Member>, nat), ParseError>)
    requires p <= |t|
    ensures r.Ok? ==> p < r.value.1 <= |t| && t[r.value.1 - 1] == '}'
    decreases |t| - p, 2
  {
    var q := LooseSkip(t, p);
    if q == |t| then Err(ParseError(UnterminatedObject, q))
    else if t[q] == '}' then Ok(([], q + 1))
    else if t[q] == ',' then ParseMembers(t, q + 1)
    else if t[q] == '"' then
      match ParseMember(t, q)
      case Err(e) => Err(e)
      case Ok(member) => Prepend([member], ParseMembers(t, member.value.end))
    else Err(ParseError(ExpectedKey, q))
  }

  function Prepend(ms: seq<Member>, r: Result<(seq<Member>, nat), ParseError>)
    : (all: Result<(seq<Member>, nat), ParseError>)
    ensures all.Ok? <==> r.Ok?
    ensures r.Ok? ==> all.value.1 == r.value.1
  {
    match r
    case Ok(v) => Ok((ms + v.0, v.1))
    case Err(e) => Err(e)
  }

  function ParseElements(t: string, p: nat): (r: Result<nat, ParseError>)
    requires p <= |t|
    ensures r.Ok? ==> p < r.value <= |t| && t[r.value - 1] == ']'
    decreases |t| - p, 1
  {
    var q := LooseSkip(t, p);
    if q == |t| then Err(ParseError(UnterminatedArray, q))
    else if t[q] == ']' then Ok(q + 1)
    else if t[q] == ',' then ParseElements(t, q + 1)
    else
      match ParseValue(t, q)
      case Err(e) => Err(e)
      case Ok(value) => ParseElements(t, value.end)
  }

  function ParseDocument(t: string): (r: Result<Node, ParseError>)
    ensures r.Ok? ==> r.value.start < r.value.end <= |t|
  {
    var start := LooseSkip(t, 0);
    if start == |t| then Err(ParseError(EmptyDocument, start))
    else
      match ParseValue(t, start)
      case Err(e) => Err(e)
      case Ok(root) =>
        var end := LooseSkip(t, root.end);
        if end == |t| then Ok(root) else Err(ParseError(TrailingData, end))
  }

  // ---- the spans a parse hands to the editor ------------------------------------------

  /** Nothing but trivia and commas between `a` and `b`. */
  predicate Filler(t: string, a: nat, b: nat)
    requires b <= |t|
    decreases b - a
  {
    if a >= b then a == b
    else if AsciiWhitespace(t[a]) || t[a] == ',' then Filler(t, a + 1, b)
    else OpensComment(t, a) && Filler(t, LooseCommentEnd(t, a), b)
  }

  /** One member: its quoted key, a colon among trivia, its value. */
  predicate MemberShape(t: string, m: Member) {
    && m.keyStart < m.value.start < m.value.end <= |t| && t[m.keyStart] == '"'
    && var e := StringEnd(t, m.keyStart + 1);
       && e.Some?
       && Decode(t[m.keyStart + 1..e.value - 1]) == Some(m.key)
       && var colon := LooseSkip(t, e.value);
          && colon < m.value.start && t[colon] == ':'
          && LooseSkip(t, colon + 1) == m.value.start
  }

  /** Members in order from `lo`, only filler between them and up to the brace at `hi`. */
  predicate Laid(t: string, ms: seq<Member>, lo: nat, hi: nat)
    requires hi <= |t|
  {
    if ms == [] then lo <= hi && Filler(t, lo, hi)
    else
      && lo <= ms[0].keyStart && MemberShape(t, ms[0]) && ms[0].value.end <= hi
      && Filler(t, lo, ms[0].keyStart)
      && Laid(t, ms[1..], ms[0].value.end, hi)
  }

  predicate WellFormed(t: string, n: Node)
    decreases n
  {
    && n.start < n.end <= |t| && !AsciiWhitespace(t[n.end - 1])
    && match n.kind {
      case Object(ms) =>
        && t[n.start] == '{' && t[n.end - 1] == '}'
        && n.start + 1 <= n.end - 1
        && Laid(t, ms, n.start + 1, n.end - 1)
        && forall i | 0 <= i < |ms| :: assert ms[i] in ms; WellFormedMember(t, ms[i])
      case Array => t[n.start] == '[' && t[n.end - 1] == ']'
      case Scalar => true
    }
  }

  predicate WellFormedMember(t: string, m: Member)
    decreases m
  {
    WellFormed(t, m.value)
  }

  lemma {:induction false} SkipIsFiller(t: string, a: nat, b: nat)
    requires a <= |t| && LooseSkip(t, a) <= b <= |t| && Filler(t, LooseSkip(t, a), b)
    ensures Filler(t, a, b)
    decreases |t| - a
  {
    if a < |t| {
      if AsciiWhitespace(t[a]) {
        SkipIsFiller(t, a + 1, b);
      } else if OpensComment(t, a) {
        SkipIsFiller(t, LooseCommentEnd(t, a), b);
      }
    }
  }

  lemma KeyIsShaped(t: string, q: nat)
    requires q < |t| && ParseKey(t, q).Ok?
    ensures var (key, after) := ParseKey(t, q).value;
      && StringEnd(t, q + 1).Some?
      && Decode(t[q + 1..StringEnd(t, q + 1).value - 1]) == Some(key)
      && var colon := LooseSkip(t, StringEnd(t, q + 1).value);
         colon < |t| && t[colon] == ':' && after == colon + 1
  {
    hide LooseSkip, Decode, StringEnd;
  }

  lemma ValueStartsBehindFiller(t: string, i: nat)
    requires i <= |t| && ParseValue(t, i).Ok?
    ensures ParseValue(t, i).value.start == LooseSkip(t, i)
  {
    hide LooseSkip, ParseMembers, ParseElements, StringEnd, BareEnd;
  }

  lemma MemberIsShaped(t: string, q: nat)
    requires q < |t| && t[q] == '"' && ParseMember(t, q).Ok?
    ensures MemberShape(t, ParseMember(t, q).value)
  {
    hide ParseValue, ParseKey, LooseSkip, Decode, StringEnd;
    KeyIsShaped(t, q);
    ValueStartsBehindFiller(t, ParseKey(t, q).value.1);
  }

  /** Every value the parser returns has nested, ordered spans with only filler around them. */
  lemma {:induction false} ParsedValueIsWellFormed(t: string, i: nat)
    requires i <= |t| && ParseValue(t, i).Ok?
    ensures WellFormed(t, ParseValue(t, i).value)
    decreases |t| - i, 0
  {
    hide Laid, LooseSkip, ParseElements, StringEnd;
    var start := LooseSkip(t, i);
    if t[start] == '{' {
      ParsedMembersAreLaid(t, start + 1);
    }
  }

  lemma LaidCons(t: string, m: Member, rest: seq<Member>, lo: nat, hi: nat)
    requires hi <= |t| && lo <= m.keyStart && MemberShape(t, m) && m.value.end <= hi
    requires Filler(t, lo, m.keyStart) && Laid(t, rest, m.value.end, hi)
    ensures Laid(t, [m] + rest, lo, hi)
  {
    assert ([m] + rest)[1..] == rest;
  }

  /** A start moved back over filler. */
  lemma LaidFrom(t: string, ms: seq<Member>, p: nat, q: nat, hi: nat)
    requires p <= q <= |t| && hi <= |t| && LooseSkip(t, p) < |t| && t[LooseSkip(t, p)] == ',' && q == LooseSkip(t, p) + 1
    requires Laid(t, ms, q, hi)
    ensures Laid(t, ms, p, hi)
  {
    hide LooseSkip;
    if ms == [] {
      SkipIsFiller(t, p, hi);
    } else {
      SkipIsFiller(t, p, ms[0].keyStart);
    }
  }

  lemma LaidEmpty(t: string, p: nat)
    requires p <= |t|
    ensures Laid(t, [], p, LooseSkip(t, p))
  {
    hide LooseSkip;
    SkipIsFiller(t, p, LooseSkip(t, p));
  }

  lemma {:induction false} ParsedMembersAreLaid(t: string, p: nat)
    requires p <= |t| && ParseMembers(t, p).Ok?
    ensures p <= ParseMembers(t, p).value.1 - 1
    ensures Laid(t, ParseMembers(t, p).value.0, p, ParseMembers(t, p).value.1 - 1)
    ensures forall m | m in ParseMembers(t, p).value.0 :: WellFormedMember(t, m)
    decreases |t| - p, 2
  {
    hide LooseSkip, ParseMember, StringEnd, Decode, WellFormed, Laid, Filler, MemberShape;
    var q := LooseSkip(t, p);
    var (ms, end) := ParseMembers(t, p).value;
    if t[q] == '}' {
      LaidEmpty(t, p);
    } else if t[q] == ',' {
      ParsedMembersAreLaid(t, q + 1);
      LaidFrom(t, ms, p, q + 1, end - 1);
    } else {
      var m := ParseMember(t, q).value;
      var rest := ParseMembers(t, m.value.end).value.0;
      MemberIsShaped(t, q);
      FillerBefore(t, p, q);
      ParsedMemberIsWellFormed(t, q);
      ParsedMembersAreLaid(t, m.value.end);
      assert ms == [m] + rest;
      LaidCons(t, m, rest, p, end - 1);
    }
  }

  lemma FillerBefore(t: string, p: nat, q: nat)
    requires p <= |t| && q == LooseSkip(t, p)
    ensures Filler(t, p, q)
  {
    hide LooseSkip;
    SkipIsFiller(t, p, q);
  }

  lemma ParsedMemberIsWellFormed(t: string, q: nat)
    requires q < |t| && ParseMember(t, q).Ok?
    ensures WellFormedMember(t, ParseMember(t, q).value)
    decreases |t| - q, 1
  {
    hide WellFormed, ParseKey;
    ParsedValueIsWellFormed(t, ParseKey(t, q).value.1);
  }

  lemma ParsedDocumentIsWellFormed(t: string)
    requires ParseDocument(t).Ok?
    ensures WellFormed(t, ParseDocument(t).value)
    ensures Filler(t, 0, ParseDocument(t).value.start)
    ensures Filler(t, ParseDocument(t).value.end, |t|)
  {
    hide WellFormed, ParseValue;
    var root := ParseDocument(t).value;
    ParsedValueIsWellFormed(t, LooseSkip(t, 0));
    LooseSkipTwice(t, 0);
    SkipIsFiller(t, 0, root.start);
    SkipIsFiller(t, root.end, |t|);
  }

  lemma {:induction false} LooseSkipTwice(t: string, i: nat)
    requires i <= |t|
    ensures LooseSkip(t, LooseSkip(t, i)) == LooseSkip(t, i)
  {
  }
}
