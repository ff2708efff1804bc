/** `set` on one object: the text changes by one member, and so does the tree. */
module JsonSet {
  import opened Text
  import opened JsonLexer
  import opened JsonStrict
  import opened JsonParser
  import opened JsonLocality
  import opened JsonCompose
  import opened JsonEdit
  import opened JsonMember
  import opened JsonInsert

  // ---- where the line goes ------------------------------------------------------------------

  lemma {:induction false} NextSame(t: string, p: nat)
    requires p <= |t| && Skip(t, p) < |t| && !AsciiWhitespace(t[Skip(t, p)])
    ensures NextSignificant(t, p) == Skip(t, p)
    decreases |t| - p
  {
    hide CommentEnd;
    if JsonWs(t[p]) {
      NextSame(t, p + 1);
    } else if OpensComment(t, p) {
      NextSame(t, CommentEnd(t, p).value);
    }
  }

  lemma EndsVisible(t: string, i: nat)
    requires Value(t, i).Some?
    ensures !Whitespace(t[Value(t, i).value.end - 1])
  {
    hide Members, Elements, IsLiteral, Decode;
    var end := Value(t, i).value.end;
    if t[i] == '[' {
      ElementsClose(t, i + 1, true);
    } else if t[i] != '{' && t[i] != '"' {
      LiteralChars(t[i..end]);
      assert LiteralChar(t[i..end][end - 1 - i]);
    }
  }

  lemma {:induction false} ElementsClose(t: string, p: nat, first: bool)
    requires p <= |t| && Elements(t, p, first).Some?
    ensures t[Elements(t, p, first).value - 1] == ']'
    decreases |t| - p
  {
    hide Separator, Value;
    var q := Separator(t, p, first, ']').value;
    if t[q] != ']' {
      ElementsClose(t, Value(t, q).value.end, false);
    }
  }

  /** The end of the last member, or the place behind the opening brace. */
  function LastEnd(node: Node): nat
    requires node.kind.Object?
  {
    After(node.kind.members, node.start + 1, |node.kind.members|)
  }

  /** An object without members that holds a comma, which the guard overlooks. */
  predicate StrayComma(t: string, node: Node) {
    && node.kind.Object? && node.kind.members == []
    && node.start + 1 <= |t|
    && Skip(t, node.start + 1) != node.end - 1
  }

  lemma {:induction false} ClosingZone(t: string, i: nat)
    requires Value(t, i).Some? && Value(t, i).value.kind.Object?
    ensures var node := Value(t, i).value;
      var (ms, e, close) := (node.kind.members, LastEnd(node), node.end - 1);
      && i < e <= close < |t| && t[close] == '}'
      && Separator(t, e, ms == [], '}') == Some(close)
      && (ms != [] ==> Value(t, ms[|ms| - 1].value.start) == Some(ms[|ms| - 1].value))
  {
    hide Members, Value, Separator, After, LastEnd;
    ObjectMembers(t, i);
    var (ms, end) := Members(t, i + 1, true).value;
    MembersFrom(t, i + 1, true, |ms|);
    assert ms[|ms|..] == [];
    LastEndIs(Value(t, i).value);
    NoMembers(t, LastEnd(Value(t, i).value), ms == [], end);
    if ms != [] {
      LastIsValue(t, i);
    }
  }

  lemma LastEndIs(node: Node)
    requires node.kind.Object?
    ensures var ms := node.kind.members;
      && LastEnd(node) == After(ms, node.start + 1, |ms|)
      && LastEnd(node) == if ms == [] then node.start + 1 else ms[|ms| - 1].value.end
  {
  }

  lemma {:induction false} LastIsValue(t: string, i: nat)
    requires Value(t, i).Some? && Value(t, i).value.kind.Object? && Value(t, i).value.kind.members != []
    ensures var ms := Value(t, i).value.kind.members;
      i < ms[|ms| - 1].value.end && Value(t, ms[|ms| - 1].value.start) == Some(ms[|ms| - 1].value)
  {
    hide Members, Value, Laid, MemberAt, After, Separator;
    ObjectMembers(t, i);
    var (ms, end) := Members(t, i + 1, true).value;
    var n := |ms| - 1;
    MembersAreLaid(t, i + 1, true);
    LaidOrder(t, ms, i + 1, end - 1, n);
    MembersFrom(t, i + 1, true, n);
    MembersStep(t, After(ms, i + 1, n), n == 0);
    MemberValue(t, ms[n].keyStart);
  }

  lemma NoMembers(t: string, p: nat, first: bool, end: nat)
    requires p <= |t| && Members(t, p, first) == Some(([], end))
    ensures p < end <= |t| && t[end - 1] == '}' && Separator(t, p, first, '}') == Some(end - 1)
  {
    hide Separator, MemberAt;
  }

  lemma MemberValue(t: string, q: nat)
    requires q < |t| && MemberAt(t, q).Some?
    ensures Value(t, MemberAt(t, q).value.value.start) == Some(MemberAt(t, q).value.value)
  {
    hide MemberHead, Value;
  }

  /** From the insert position on, only blanks up to the brace; and no member behind it. */
  lemma SpanIsBlank(t: string, i: nat)
    requires Value(t, i).Some? && Value(t, i).value.kind.Object?
    requires WellFormed(t, Value(t, i).value)
    ensures var node := Value(t, i).value;
      var (at, resume) := InsertSpan(t, node);
      LastEnd(node) <= at <= resume <= node.end - 1 < |t| && BlankTo(t, at, node.end - 1)
  {
    hide Value, WellFormed, AllWhitespace, Skip, TrimBack, Separator;
    var node := Value(t, i).value;
    var ms, e, close := node.kind.members, LastEnd(node), node.end - 1;
    ClosingZone(t, i);
    NodeBounds(t, node);
    if OwnLineClose(t, node) {
      OwnLineIsBlank(t, node, e);
    } else if ms == [] {
      ValueOpens(t, i);
      TrimBackPast(t, LineStart(t, close), close, i + 1);
    } else {
      InsertAfterLast(t, node);
    }
  }

  lemma ValueOpens(t: string, i: nat)
    requires Value(t, i).Some? && Value(t, i).value.kind.Object?
    ensures t[i] == '{' && Value(t, i).value.start == i
  {
    ObjectMembers(t, i);
  }

  lemma AllWhitespaceAt(t: string, i: nat, j: nat)
    requires i <= j <= |t| && AllWhitespace(t[i..j])
    ensures forall k | i <= k < j :: Whitespace(t[k])
  {
    hide Whitespace;
    forall k | i <= k < j ensures Whitespace(t[k]) {
      assert t[i..j][k - i] == t[k];
    }
  }

  lemma OwnLineIsBlank(t: string, node: Node, e: nat)
    requires WellFormed(t, node) && node.kind.Object? && OwnLineClose(t, node)
    requires e == LastEnd(node) <= node.end - 1 < |t| && t[node.end - 1] == '}'
    requires Separator(t, e, false, '}') == Some(node.end - 1)
    requires var last := node.kind.members[|node.kind.members| - 1].value;
      Value(t, last.start) == Some(last)
    ensures e <= LineStart(t, node.end - 1)
    ensures BlankTo(t, LineStart(t, node.end - 1), node.end - 1)
  {
    hide Value, WellFormed, Skip, LineStart, AllWhitespace;
    var close := node.end - 1;
    var x := LineStart(t, close);
    AllWhitespaceAt(t, x, close);
    EndsVisible(t, node.kind.members[|node.kind.members| - 1].value.start);
    var c := Skip(t, e);
    if c == close {
      BlankZone(t, e, x, close);
    } else {
      assert !Whitespace(',');
      BlankZone(t, c + 1, x, close);
    }
  }

  // ---- the text after an insertion ------------------------------------------------------------

  function Lead(t: string, node: Node, newline: string, unit: string): string
    requires WellFormed(t, node) && node.kind.Object?
  {
    var at := InsertSpan(t, node).0;
    (if OwnLineClose(t, node) || at == 0 || t[at - 1] == '\n' then "" else newline) + MemberIndent(t, node, unit)
  }

  function Trail(t: string, node: Node, newline: string): string
    requires WellFormed(t, node) && node.kind.Object?
  {
    (if TrailingCommaOf(t, node) then "," else "") + newline
    + (if OwnLineClose(t, node) then "" else LineIndent(t, node.end - 1))
  }

  function AddedComma(t: string, node: Node): string
    requires WellFormed(t, node) && node.kind.Object?
  {
    if node.kind.members == [] || TrailingCommaOf(t, node) then "" else ","
  }

  lemma RegroupLine(pre: string, indent: string, member: string, comma: string, newline: string, below: string)
    ensures pre + (indent + member + comma + newline) + below
         == (pre + indent) + (member + (comma + newline + below))
  {
    var tail := comma + newline + below;
    assert indent + member + comma + newline + below == indent + (member + tail);
  }

  lemma {:induction false} InsertTextParts(t: string, node: Node, member: string, newline: string, unit: string)
    requires WellFormed(t, node) && node.kind.Object?
    ensures InsertText(t, node, member, newline, unit)
         == Lead(t, node, newline, unit) + (member + Trail(t, node, newline))
  {
    hide WellFormed, OwnLineClose, TrailingCommaOf, MemberIndent, LineIndent, InsertSpan;
    NodeBounds(t, node);
    var indent := MemberIndent(t, node, unit);
    var comma := if TrailingCommaOf(t, node) then "," else "";
    if OwnLineClose(t, node) {
      RegroupLine("", indent, member, comma, newline, "");
      NothingAround(indent, comma + newline);
    } else {
      var at := InsertSpan(t, node).0;
      RegroupLine(if at == 0 || t[at - 1] == '\n' then "" else newline, indent, member, comma, newline,
                  LineIndent(t, node.end - 1));
    }
  }

  lemma NothingAround(a: string, b: string)
    ensures "" + a == a && b + "" == b
    ensures forall x: string :: "" + x + "" == x
  {
  }

  lemma InsertIsInserted(t: string, node: Node, member: string, newline: string, unit: string)
    requires WellFormed(t, node) && node.kind.Object?
    requires LastEnd(node) <= InsertSpan(t, node).0 <= InsertSpan(t, node).1 < |t|
    ensures Inserted(t, InsertMember(t, node, member, newline, unit), LastEnd(node), AddedComma(t, node),
                     InsertSpan(t, node).0, Lead(t, node, newline, unit), member,
                     Trail(t, node, newline), InsertSpan(t, node).1)
  {
    hide WellFormed, OwnLineClose, TrailingCommaOf, Lead, Trail, InsertSpan, InsertText, Inserted;
    var (at, resume) := InsertSpan(t, node);
    var e, line := LastEnd(node), InsertText(t, node, member, newline, unit);
    var w, u := WithLine(t, node, member, newline, unit), InsertMember(t, node, member, newline, unit);
    InsertTextParts(t, node, member, newline, unit);
    SpliceAgree(t, w, at, resume, line);
    assert e <= |w|;
    SpliceAgree(w, u, e, e, AddedComma(t, node)) by { JoinAt(w, u, e, AddedComma(t, node)); }
    TwoSplices(t, w, u, e, AddedComma(t, node), at, Lead(t, node, newline, unit), member,
               Trail(t, node, newline), resume);
  }

  lemma JoinAt(w: string, u: string, e: nat, x: string)
    requires e <= |w| && ((u == w && x == "") || u == w[..e] + x + w[e..])
    ensures u == w[..e] + x + w[e..]
  {
    if u == w && x == "" {
      assert w == w[..e] + "" + w[e..];
    }
  }

  // ---- the object after an insertion ------------------------------------------------------------

  predicate BlankUnits(newline: string, unit: string) {
    (newline == "\n" || newline == "\r\n") && Blanks(unit)
  }

  lemma PartsAreBlank(t: string, node: Node, newline: string, unit: string)
    requires WellFormed(t, node) && node.kind.Object? && BlankUnits(newline, unit)
    ensures JsonBlank(Lead(t, node, newline, unit))
    ensures var trail := Trail(t, node, newline);
      && trail != "" && JsonBlank(trail[1..])
      && (TrailingCommaOf(t, node) ==> trail[0] == ',')
      && (!TrailingCommaOf(t, node) ==> JsonWs(trail[0]))
  {
    hide WellFormed, OwnLineClose, TrailingCommaOf, MemberIndent, LineIndent, InsertSpan;
    NodeBounds(t, node);
  }

  lemma TrailingCommaIs(t: string, i: nat)
    requires Value(t, i).Some? && Value(t, i).value.kind.Object?
    requires WellFormed(t, Value(t, i).value)
    ensures var node := Value(t, i).value;
      var (e, close) := (LastEnd(node), node.end - 1);
      && e <= close < |t| && e <= Skip(t, e) <= close
      && (TrailingCommaOf(t, node) <==> node.kind.members != [] && Skip(t, e) < close)
      && (Skip(t, e) < close ==> t[Skip(t, e)] == ',')
  {
    hide Value, WellFormed, Skip, NextSignificant;
    var node := Value(t, i).value;
    ClosingZone(t, i);
    if node.kind.members != [] {
      NextSame(t, LastEnd(node));
    }
  }

  /** The object into which a member's text was inserted. */
  lemma {:induction false} InsertedObject(t: string, i: nat, member: string, newline: string, unit: string)
    requires Value(t, i).Some? && Value(t, i).value.kind.Object?
    requires WellFormed(t, Value(t, i).value) && BlankUnits(newline, unit)
    requires member != "" && member[0] == '"'
    ensures var node := Value(t, i).value;
      var u := InsertMember(t, node, member, newline, unit);
      var (e, q) := (LastEnd(node), InsertSpan(t, node).0 + |AddedComma(t, node)| + |Lead(t, node, newline, unit)|);
      && i < e <= |t| && Agree(t, u, 0, e, 0)
      && node.end - 1 < |t| && Agree(t, u, node.end - 1, |t|, |u| - |t|)
      && (node.kind.members != [] ==> Delimited(u, e))
      && Stands(u, q, member) && Delimited(u, q + |member|)
      && Members(u, q + |member|, false) == Some(([], node.end + (|u| - |t|)))
      && Separator(u, e, node.kind.members == [], '}') == (if StrayComma(t, node) then None else Some(q))
      && u[q] == '"'
  {
    hide Value, WellFormed, OwnLineClose, TrailingCommaOf, Lead, Trail, InsertSpan, InsertMember, Separator, Members, Skip, Agree;
    var node := Value(t, i).value;
    var (at, resume) := InsertSpan(t, node);
    var e, close, comma := LastEnd(node), node.end - 1, AddedComma(t, node);
    var lead, trail := Lead(t, node, newline, unit), Trail(t, node, newline);
    var u := InsertMember(t, node, member, newline, unit);
    ValueOpens(t, i);
    ClosingZone(t, i);
    SpanIsBlank(t, i);
    TrailingCommaIs(t, i);
    PartsAreBlank(t, node, newline, unit);
    InsertIsInserted(t, node, member, newline, unit);
    AfterInserted(t, u, e, comma, at, lead, member, trail, resume, close);
    InsertedSeparator(t, u, e, comma, at, lead, member, trail, resume, close, node.kind.members == []);
    Within(t, u, resume, |t|, |u| - |t|, close, |t|);
    InsertedDelimiter(t, u, e, comma, at, lead, member, trail, resume, close, node.kind.members == []);
  }

  lemma {:induction false} InsertedDelimiter(t: string, u: string, e: nat, comma: string, at: nat, lead: string,
                          member: string, trail: string, resume: nat, close: nat, first: bool)
    requires Inserted(t, u, e, comma, at, lead, member, trail, resume)
    requires at <= close < |t| && BlankTo(t, at, close)
    requires Separator(t, e, first, '}') == Some(close)
    requires comma == if !first && Skip(t, e) == close then "," else ""
    ensures !first ==> Delimited(u, e)
  {
    if !first {
      if comma == "," {
        StandsAt(u, e, ",", 0);
      } else {
        DelimitedAfter(t, e, '}');
        CommaBefore(t, e, at, close);
        assert u[e + 0] == t[e];
      }
    }
  }

  lemma BuiltStarts(key: string, tail: seq<string>, v: string, indent: string, newline: string, unit: string)
    ensures var m := BuildMember(key, tail, v, indent, newline, unit); m != "" && m[0] == '"'
  {
  }

  lemma BlankIndent(indent: string)
    requires Blanks(indent)
    ensures JsonBlank(indent)
  {
  }

  lemma NoSeparator(u: string, p: nat, first: bool)
    requires p <= |u| && Separator(u, p, first, '}').None?
    ensures Members(u, p, first).None?
  {
    hide Separator, MemberAt;
  }

  /** Inserting a built member appends exactly that member to the object's tree. */
  lemma InsertedTree(t: string, i: nat, key: string, tail: seq<string>, v: string, newline: string, unit: string)
    requires Value(t, i).Some? && Value(t, i).value.kind.Object?
    requires WellFormed(t, Value(t, i).value) && BlankUnits(newline, unit) && IsValueText(v)
    ensures var node := Value(t, i).value;
      var member := BuildMember(key, tail, v, MemberIndent(t, node, unit), newline, unit);
      var u := InsertMember(t, node, member, newline, unit);
      && (Value(u, i).None? <==> StrayComma(t, node))
      && (Value(u, i).Some? ==>
            && Value(u, i).value.end == node.end + (|u| - |t|)
            && Value(u, i).value.kind.Object?
            && TreeOf(u, Value(u, i).value)
               == Branch(MemberTrees(t, node.kind.members) + [(key, Chain(tail, ValueTree(v)))]))
  {
    hide Value, WellFormed, MemberIndent, BuildMember, InsertMember, InsertSpan, AddedComma, Lead,
      Separator, Members, MemberAt, Agree, Stands, StrayComma, TreeOf, ValueTree, Chain, IsValueText;
    var node := Value(t, i).value;
    var indent := MemberIndent(t, node, unit);
    var member := BuildMember(key, tail, v, indent, newline, unit);
    var u := InsertMember(t, node, member, newline, unit);
    var ms, e := node.kind.members, LastEnd(node);
    var q := InsertSpan(t, node).0 + |AddedComma(t, node)| + |Lead(t, node, newline, unit)|;
    BuiltStarts(key, tail, v, indent, newline, unit);
    InsertedObject(t, i, member, newline, unit);
    ValueOpens(t, i);
    Within(t, u, 0, e, 0, i, e);
    AgreeBounds(t, u, 0, e, 0);
    KeepPrefix(t, u, i, |ms|);
    if StrayComma(t, node) {
      NoSeparator(u, e, ms == []);
    } else {
      BlankIndent(indent);
      BlankIndent(unit);
      BuiltMemberParses(u, q, key, tail, v, indent, newline, unit);
      var m := MemberAt(u, q).value;
      MembersCons(u, e, ms == [], m);
      assert [m] + [] == [m];
      AppendedTree(t, u, ms, m, i, node.end + (|u| - |t|));
    }
  }

  lemma AppendedTree(t: string, u: string, ms: seq<Member>, m: Member, i: nat, end: nat)
    requires MemberTrees(u, ms[..|ms|]) == MemberTrees(t, ms)[..|ms|]
    ensures TreeOf(u, Node(Object(ms[..|ms|] + [m]), i, end))
         == Branch(MemberTrees(t, ms) + [(m.key, TreeOf(u, m.value))])
  {
    var n := Node(Object(ms[..|ms|] + [m]), i, end);
    assert TreeOf(u, n) == Branch(MemberTrees(u, ms[..|ms|] + [m]));
    MemberTreesAppend(u, ms[..|ms|], [m]);
    assert MemberTrees(u, [m]) == [(m.key, TreeOf(u, m.value))];
  }
}
