/** What an edit leaves of the text itself: comments, order and formatting outside one spot. */
module JsonFrame {
  import opened Text
  import opened JsonLexer
  import opened JsonStrict
  import opened JsonParser
  import opened JsonReader
  import opened JsonCompose
  import opened JsonEdit
  import opened JsonMember
  import opened JsonSet
  import opened JsonSetLaws
  import opened JsonDocument
  import opened JsonStripLaws

  /** The text of one value replaced, everything else untouched. */
  ghost predicate ReplacesValue(t: string, u: string, v: string) {
    exists c: Node :: c.start <= c.end <= |t| && Value(t, c.start) == Some(c) && u == Splice(t, c.start, c.end, v)
  }

  /**
   * One text put in, a comma put in before it, and between them only blanks of the closing
   * brace's line dropped: every other character stays, in order. What is put in starts and ends a line.
   */
  ghost predicate Inserts(t: string, u: string, newline: string) {
    exists e: nat, at: nat, resume: nat, comma: string, line: string ::
      && e <= at <= resume <= |t| && (comma == "" || comma == ",")
      && (forall k | at <= k < resume :: InsertBlank(t[k]))
      && u == t[..e] + comma + t[e..at] + line + t[resume..]
      && OwnLines(at == 0 || t[at - 1] == '\n', line, newline)
  }

  /** Lines of their own: a line ending first, unless one stands there already, and one behind, before blanks only. */
  ghost predicate OwnLines(begun: bool, line: string, newline: string) {
    && (begun || newline <= line)
    && exists k: nat :: (if begun then 0 else |newline|) < k && LastBreak(line, newline, k)
  }

  predicate LastBreak(line: string, newline: string, k: nat) {
    k + |newline| <= |line| && line[k..k + |newline|] == newline && Blanks(line[k + |newline|..])
  }

  lemma JoinedSplices(t: string, e: nat, at: nat, resume: nat, line: string)
    requires e <= at <= resume <= |t|
    ensures var w := Splice(t, at, resume, line);
      && e <= |w|
      && w == t[..e] + "" + t[e..at] + line + t[resume..]
      && Splice(w, e, e, ",") == t[..e] + "," + t[e..at] + line + t[resume..]
  {
    var w := Splice(t, at, resume, line);
    assert t[..at] == t[..e] + t[e..at];
    assert w[..e] == t[..e] && w[e..] == t[e..at] + line + t[resume..];
  }

  lemma InsertLeavesRest(t: string, i: nat, member: string, newline: string, unit: string)
    requires Value(t, i).Some? && Value(t, i).value.kind.Object? && WellFormed(t, Value(t, i).value)
    requires member != ""
    ensures Inserts(t, InsertMember(t, Value(t, i).value, member, newline, unit), newline)
  {
    hide Value, WellFormed, LineStart, Splice, InsertText, Inserts, OwnLineClose, TrailingCommaOf, LineIndent, OwnLines;
    var node := Value(t, i).value;
    var (at, resume) := InsertSpan(t, node);
    var line, u := InsertText(t, node, member, newline, unit), InsertMember(t, node, member, newline, unit);
    SpanIsBlank(t, i);
    JoinedSplices(t, LastEnd(node), at, resume, line);
    var comma := if node.kind.members == [] || TrailingCommaOf(t, node) then "" else ",";
    TextHasLines(t, node, member, newline, unit);
    InsertedSo(t, u, newline, LastEnd(node), at, resume, comma, line);
  }

  lemma {:induction false} TextHasLines(t: string, node: Node, member: string, newline: string, unit: string)
    requires WellFormed(t, node) && node.kind.Object? && member != ""
    ensures var at := InsertSpan(t, node).0;
      at <= |t| && OwnLines(at == 0 || t[at - 1] == '\n', InsertText(t, node, member, newline, unit), newline)
  {
    hide WellFormed, OwnLineClose, MemberIndent, TrailingCommaOf, LineIndent, InsertText, InsertSpan, OwnLines;
    NodeBounds(t, node);
    TextIs(t, node, member, newline, unit);
    var text := MemberIndent(t, node, unit) + member + (if TrailingCommaOf(t, node) then "," else "");
    var at := InsertSpan(t, node).0;
    if OwnLineClose(t, node) {
      LineBegins(t, node);
      LinesAre("", text, newline, "");
      assert "" + text + newline + "" == text + newline;
    } else {
      LinesAre(if at == 0 || t[at - 1] == '\n' then "" else newline, text, newline, LineIndent(t, node.end - 1));
    }
  }

  lemma {:induction false} TextIs(t: string, node: Node, member: string, newline: string, unit: string)
    requires WellFormed(t, node) && node.kind.Object?
    ensures var at := InsertSpan(t, node).0;
      var text := MemberIndent(t, node, unit) + member + (if TrailingCommaOf(t, node) then "," else "");
      && at <= node.end && node.end <= |t|
      && InsertText(t, node, member, newline, unit)
         == if OwnLineClose(t, node) then text + newline
            else (if at == 0 || t[at - 1] == '\n' then "" else newline) + text + newline + LineIndent(t, node.end - 1)
  {
    hide WellFormed, OwnLineClose, MemberIndent, TrailingCommaOf, LineIndent, InsertSpan;
    NodeBounds(t, node);
    var text := MemberIndent(t, node, unit) + member + (if TrailingCommaOf(t, node) then "," else "");
    ThreeParts(if InsertSpan(t, node).0 == 0 || t[InsertSpan(t, node).0 - 1] == '\n' then "" else newline,
               text, newline, LineIndent(t, node.end - 1));
  }

  lemma ThreeParts(a: string, b: string, c: string, d: string)
    ensures a + (b + c) + d == a + b + c + d
  {
  }

  lemma {:induction false} LineBegins(t: string, node: Node)
    requires WellFormed(t, node) && node.kind.Object? && OwnLineClose(t, node)
    ensures var at := InsertSpan(t, node).0; at <= |t| && (at == 0 || t[at - 1] == '\n')
  {
    hide WellFormed, AllWhitespace;
    NodeBounds(t, node);
  }

  lemma {:induction false} LinesAre(front: string, text: string, newline: string, close: string)
    requires text != "" && Blanks(close) && front in ["", newline]
    ensures OwnLines(front == "", front + text + newline + close, newline)
    ensures front == newline ==> OwnLines(false, front + text + newline + close, newline)
  {
    var line, k := front + text + newline + close, |front + text|;
    assert line[k..k + |newline|] == newline && line[k + |newline|..] == close;
    assert front <= line;
    assert LastBreak(line, newline, k);
  }

  lemma InsertedSo(t: string, u: string, newline: string, e: nat, at: nat, resume: nat, comma: string, line: string)
    requires e <= at <= resume <= |t| && (comma == "" || comma == ",")
    requires forall k | at <= k < resume :: InsertBlank(t[k])
    requires u == t[..e] + comma + t[e..at] + line + t[resume..] && OwnLines(at == 0 || t[at - 1] == '\n', line, newline)
    ensures Inserts(t, u, newline)
  {
  }

  lemma BuiltNotEmpty(key: string, tail: seq<string>, v: string, indent: string, newline: string, unit: string)
    ensures BuildMember(key, tail, v, indent, newline, unit) != ""
  {
  }

  lemma {:induction false} EditLeavesRest(t: string, i: nat, segments: seq<string>, v: string, newline: string, unit: string)
    requires Value(t, i).Some? && WellFormed(t, Value(t, i).value) && segments != []
    requires EditObject(t, Value(t, i).value, segments, v, newline, unit).Ok?
    ensures var u := EditObject(t, Value(t, i).value, segments, v, newline, unit).value;
      u == t || ReplacesValue(t, u, v) || Inserts(t, u, newline)
    decreases |segments|
  {
    hide Value, WellFormed, InsertMember, BuildMember, MemberIndent, Inserts, Splice, FindMember;
    var node := Value(t, i).value;
    match FindMember(node.kind.members, segments[0])
    case None =>
      var indent := MemberIndent(t, node, unit);
      BuiltNotEmpty(segments[0], segments[1..], v, indent, newline, unit);
      InsertLeavesRest(t, i, BuildMember(segments[0], segments[1..], v, indent, newline, unit), newline, unit);
    case Some(k) =>
      var c := node.kind.members[k].value;
      MemberPlace(t, i, k);
      if |segments| > 1 && c.kind.Object? {
        EditLeavesRest(t, c.start, segments[1..], v, newline, unit);
      }
  }

  /** Nothing, one value's text, or one member is changed or put in. */
  ghost predicate LeavesRest(t: string, u: string, v: string) {
    u == t || ReplacesValue(t, u, v) || Inserts(t, u, NewlineStyle(t))
  }

  /** `set` of one path changes nothing, or one value's text, or puts one member in. */
  lemma SetLeavesRest(t: string, kv: KV)
    requires SetOne(t, kv).Ok?
    ensures LeavesRest(t, SetOne(t, kv).value, kv.text)
  {
    hide Value, WellFormed, ParseDocument, Accepts, EditObject, ReplacesValue, Inserts, Segments, DetectIndentUnit, NewlineStyle;
    var root := ParseDocument(t).value;
    EditableText(t);
    EditLeavesRest(t, root.start, Segments(kv.path), kv.text, NewlineStyle(t), DetectIndentUnit(t));
  }

  // ---- a whole list of assignments --------------------------------------------------------------

  /** `u` is `t` edited once for every assignment, each time an object that is left as it was elsewhere. */
  ghost predicate Edited(t: string, u: string, kvs: seq<KV>)
    decreases |kvs|
  {
    if kvs == [] then u == t
    else
      && Accepts(t) && ObjectDocument(t)
      && exists m :: LeavesRest(t, m, kvs[0].text) && Edited(m, u, kvs[1..])
  }

  lemma {:induction false} SetAllEdits(t: string, kvs: seq<KV>)
    requires SetAll(t, kvs).Ok?
    ensures Edited(t, SetAll(t, kvs).value, kvs)
    decreases |kvs|
  {
    hide SetOne, Accepts, ObjectDocument, LeavesRest;
    if kvs != [] {
      SetLeavesRest(t, kvs[0]);
      SetNeedsObject(t, kvs[0]);
      SetAllEdits(SetOne(t, kvs[0]).value, kvs[1..]);
    }
  }

  lemma SetNeedsObject(t: string, kv: KV)
    requires SetOne(t, kv).Ok?
    ensures Accepts(t) && ObjectDocument(t)
  {
    hide Accepts, EditObject, ParseDocument;
  }

  // ---- texts without content ----------------------------------------------------------------------

  predicate Contentless(body: string) {
    AllWhitespace(StripJsonc(body))
  }

  /** All texts without content are alike to `set`, whatever their comments say. */
  lemma ContentlessAlike(a: string, b: string, kvs: seq<KV>)
    requires SplitBom(a).0 == SplitBom(b).0 && kvs != []
    requires Contentless(SplitBom(a).1) && Contentless(SplitBom(b).1)
    ensures Set(a, kvs) == Set(b, kvs)
  {
  }

  /** A file that holds nothing but a comment loses it. */
  lemma OnlyCommentIsLost(kvs: seq<KV>)
    requires kvs != []
    ensures HasComment("// note\n")
    ensures Set("// note\n", kvs) == Set("", kvs)
  {
    hide LineEnd, StripCommas, SetAll;
    var t := "// note\n";
    assert OpensComment(t, 0);
    forall k | 0 <= k < |t| ensures Whitespace(StripJsonc(t)[k]) {
      NoteRegion(t, k);
      StripKeepsPlace(t, k);
    }
    assert StripJsonc("") == "";
    ContentlessAlike(t, "", kvs);
  }

  lemma NoteRegion(t: string, k: nat)
    requires t == "// note\n" && k < |t|
    ensures k < 7 ==> RegionAt(t, 0, k) == InComment
    ensures k == 7 ==> t[k] == '\n'
  {
    LineEndsAt(t, 2, 7);
  }

  lemma LineEndsAt(t: string, i: nat, j: nat)
    requires i <= j < |t| && t[j] == '\n' && forall k | i <= k < j :: t[k] != '\n'
    ensures LineEnd(t, i) == j
  {
  }

  lemma {:induction false} NothingToStrip(t: string, i: nat)
    requires i <= |t| && !HasComment(t)
    ensures StripComments(t, i) == t[i..]
    decreases |t| - i
  {
    hide StringEnd;
    if i < |t| {
      if t[i] == '"' {
        var e := StringStop(t, i);
        NothingToStrip(t, e);
        assert t[i..e] + t[e..] == t[i..];
      } else {
        assert !OpensComment(t, i);
        NothingToStrip(t, i + 1);
        assert [t[i]] + t[i + 1..] == t[i..];
      }
    }
  }

  lemma {:induction false} NoLostComma(u: string, i: nat)
    requires i <= |u| && AllWhitespace(StripCommas(u, i))
    ensures AllWhitespace(u[i..])
    decreases |u| - i
  {
    hide NextToken, StringStop;
    if i < |u| {
      var s := StripCommas(u, i);
      StripCommasFirst(u, i);
      assert Whitespace(s[0]);
      assert AllWhitespace(s[1..]) by {
        assert forall k | 0 <= k < |s[1..]| :: s[1..][k] == s[k + 1];
      }
      NoLostComma(u, i + 1);
      BracketBehind(u, i);
      assert forall k | 0 < k < |u[i..]| :: u[i..][k] == u[i + 1..][k - 1];
    }
  }

  lemma StripCommasFirst(u: string, i: nat)
    requires i < |u|
    ensures var s := StripCommas(u, i);
      && |s| == |u| - i
      && (u[i] == '"' ==> !Whitespace(s[0]))
      && (u[i] != '"' ==> s[0] == (if TrailingComma(u, i) then ' ' else u[i]) && s[1..] == StripCommas(u, i + 1))
  {
    if u[i] == '"' {
      assert u[i..StringStop(u, i)][0] == '"';
    }
  }

  lemma BracketBehind(u: string, i: nat)
    requires i < |u|
    ensures TrailingComma(u, i) ==> !AllWhitespace(u[i + 1..])
  {
    var j := NextToken(u, i + 1);
    assert j < |u| ==> u[i + 1..][j - (i + 1)] == u[j];
  }

  /** Without content and without comments there is nothing but white space. */
  lemma ContentlessIsBlank(body: string)
    requires Contentless(body)
    ensures HasComment(body) <==> !AllWhitespace(body)
  {
    hide StripComments, StripCommas;
    if !HasComment(body) {
      NothingToStrip(body, 0);
      assert body[0..] == body;
      NoLostComma(body, 0);
    } else {
      var k :| 0 <= k < |body| && OpensComment(body, k);
      assert !Whitespace(body[k]);
    }
  }

  lemma WhiteIsNoValue(s: string, i: nat)
    requires i < |s| && Whitespace(s[i])
    ensures ReadValue(s, i).None?
  {
    hide StringEnd, BareEnd, IsLiteral, ReadMembers, ReadElements;
    var x := s[i..BareEnd(s, i)];
    if IsLiteral(x) {
      LiteralChars(x);
    }
  }

  lemma ContentlessIsNoDocument(body: string)
    requires Contentless(body)
    ensures !(Accepts(body) && ObjectDocument(body))
  {
    hide StripJsonc, ReadValue, ParseDocument;
    if body != "" && body[0] == BOM {
      BomIsNoObject(body);
    } else {
      var s := StripJsonc(body);
      var i := ReadSkip(s, 0);
      if i < |s| {
        WhiteIsNoValue(s, i);
      } else {
        NoValueAtEnd(s);
      }
    }
  }

  lemma NoValueAtEnd(s: string)
    ensures ReadValue(s, |s|).None?
  {
  }

  /**
   * What `set` keeps of the text over a whole list: everything but the one edit of each assignment,
   * exactly when the text has content, or no comment that could get lost.
   */
  lemma SetKeepsText(original: string, kvs: seq<KV>)
    requires ValueTexts(kvs) && kvs != [] && Set(original, kvs).Ok?
    ensures var (body, u) := (SplitBom(original).1, SplitBom(Set(original, kvs).value).1);
      Edited(body, u, kvs) || AllWhitespace(body) <==> !Contentless(body) || !HasComment(body)
  {
    hide Accepts, SetAll, ObjectDocument, LeavesRest, AllWhitespace, StripJsonc, HasComment, IsValueText,
      AllSettable, MeetsComma;
    var (bom, body) := SplitBom(original);
    if Contentless(body) {
      ContentlessIsBlank(body);
      ContentlessIsNoDocument(body);
    } else {
      var u := SetAll(body, kvs).value;
      SetAllEdits(body, kvs);
      SetLaw(original, kvs);
      SetAllLaw(body, kvs);
      JoinedBom(bom, u);
    }
  }
}
