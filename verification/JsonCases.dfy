/** Inputs at which the laws of the JSON editor take their other branch. */
module JsonCases {
  import opened Text
  import opened JsonLexer
  import opened JsonStrict
  import opened JsonParser
  import opened JsonLocality
  import opened JsonAgreement
  import opened JsonReader
  import opened JsonCompose
  import opened JsonEdit
  import opened JsonMember
  import opened JsonValues
  import opened JsonSetLaws
  import opened JsonDocument
  import opened JsonDel
  import opened JsonDelLaws
  import opened JsonReading
  import opened JsonUndo
  import opened JsonComments
  import opened JsonDelFrame
  import opened JsonFrame
  import opened JsonInsert
  import opened JsonEmptied

  // ---- objects of no members --------------------------------------------------------------------

  lemma PathA()
    ensures Segments("a") == ["a"]
  {
    var path := "a";
    assert path[1..] == "";
    var rest := Pieces(path[1..]);
    assert rest == [""] && |rest[1..]| == 0 && [path[0]] + rest[0] == path;
    var pieces := Pieces(path);
    assert pieces == [path] && pieces[1..] == [];
  }

  lemma Visible(t: string, i: nat)
    requires i < |t| && (t[i] == '{' || t[i] == '}' || t[i] == ',' || t[i] == '"')
    ensures Skip(t, i) == i
  {
  }

  /** `inner` is nothing or a comma between the braces, `rest` what follows them. */
  lemma EmptyObject(t: string, inner: string, rest: string)
    requires t == "{" + inner + "}" + rest && (inner == "" || inner == ",")
    ensures SplitBom(t) == ("", t)
    ensures Value(t, 0) == Some(Node(Object([]), 0, |inner| + 2)) && Skip(t, 0) == 0
    ensures Skip(t, 1) == 1
  {
    var close := |inner| + 1;
    assert t[0] == '{' && t[close] == '}' && (inner == "," ==> t[1] == ',');
    hide Skip;
    Visible(t, 0);
    Visible(t, 1);
    Visible(t, close);
    assert Separator(t, 1, true, '}') == Some(close);
    assert Members(t, 1, true) == Some(([], close + 1));
  }

  lemma EmptyDocument(t: string, inner: string)
    requires t == "{" + inner + "}" && (inner == "" || inner == ",")
    ensures Accepts(t) && ObjectDocument(t) && ParseDocument(t) == Ok(Node(Object([]), 0, |t|))
  {
    hide Value, ParseDocument, Accepts;
    assert t == t + "";
    EmptyObject(t, inner, "");
    assert Skip(t, |t|) == |t| && !LeftOpen(t, |t|);
    AcceptsIsStrict(t);
    AcceptedTextParses(t);
  }

  /** `set` into an object that holds only a comma writes text that is no longer accepted. */
  lemma StrayCommaStays(v: string)
    requires IsValueText(v)
    ensures SetOne("{,}", KV("a", v)).Ok? && !Accepts(SetOne("{,}", KV("a", v)).value)
  {
    hide Accepts, ParseDocument, SetOne, IsValueText, Segments;
    var t := "{,}";
    EmptyDocument(t, ",");
    assert t == t + "";
    EmptyObject(t, ",", "");
    PathA();
    RootOnly(t, 3);
    SetOneLaw(t, KV("a", v));
  }

  /** Of an object without members every path of one segment can be set. */
  lemma RootOnly(t: string, end: nat)
    requires end >= 2 && |t| >= 1
    ensures var root := Node(Object([]), 0, end);
      && Settable(TreeOf(t, root), ["a"])
      && (StrayAt(t, root, ["a"]) <==> Skip(t, 1) != end - 1)
      && (FreshAt(t, root, ["a"]) <==> Skip(t, 1) == end - 1)
  {
    hide Skip;
  }

  /** A comment left open behind the object: the guard passes, the parser fails, and so does `set`. */
  lemma OpenCommentFails(v: string)
    ensures Accepts("{}/*x") && SetOne("{}/*x", KV("a", v)).Err? && SetOne("{}/*x", KV("a", v)).error.Syntax?
  {
    hide Accepts, ParseDocument, Value;
    var t := "{}/*x";
    assert t == "{" + "" + "}" + "/*x";
    EmptyObject(t, "", "/*x");
    assert OpensComment(t, 2) && BlockEnd(t, 4) == None;
    assert Skip(t, 2) == |t| && LeftOpen(t, 2);
    AcceptsIsStrict(t);
    AcceptedTextParses(t);
    PathA();
  }

  lemma CommentsBehind(a: string, b: string)
    requires '/' !in a
    ensures HasComment(a + b) <==> HasComment(b)
  {
    var s := a + b;
    assert forall k | 0 <= k < |b| :: s[|a| + k] == b[k];
    if HasComment(b) {
      var k :| 0 <= k < |b| && OpensComment(b, k);
      assert OpensComment(s, |a| + k);
    }
    if HasComment(s) {
      var k :| 0 <= k < |s| && OpensComment(s, k);
      assert forall n | 0 <= n < |a| :: s[n] == a[n] && a[n] in a;
      assert OpensComment(b, k - |a|);
    }
  }

  lemma MemberA(v: string, indent: string, newline: string, unit: string)
    ensures HasComment(BuildMember("a", [], v, indent, newline, unit)) <==> HasComment(v)
  {
    assert "a"[1..] == "" && Encode("a") == "a";
    CommentsBehind(Quote("a") + ": ", v);
  }

  /** `set` and `del` on `{}` give it back, unless the value looks like a comment: a URL does. */
  lemma EmptyComesBack(v: string)
    requires IsValueText(v)
    ensures SetOne("{}", KV("a", v)).Ok?
    ensures DelOne(SetOne("{}", KV("a", v)).value, "a") == Ok("{}") <==> !HasComment(v)
  {
    hide Accepts, ParseDocument, SetOne, DelOne, IsValueText, Segments, DetectIndentUnit, NewlineStyle, MemberIndent,
      BuildMember, FreshAt;
    var t, kv := "{}", KV("a", v);
    EmptyDocument(t, "");
    assert t == "{" + "" + "}" + "";
    EmptyObject(t, "", "");
    PathA();
    RootOnly(t, 2);
    SetOneLaw(t, kv);
    DelUndoesSet(t, kv);
    BracesClose(t, NewMember(t, Node(Object([]), 0, 2), ["a"], v, NewlineStyle(t), DetectIndentUnit(t)), NewlineStyle(t));
    MemberA(v, MemberIndent(t, Node(Object([]), 0, 2), DetectIndentUnit(t)), NewlineStyle(t), DetectIndentUnit(t));
  }

  lemma CommentFurtherOn(a: string, b: string)
    requires HasComment(b)
    ensures HasComment(a + b)
  {
    var k :| 0 <= k < |b| && OpensComment(b, k);
    assert (a + b)[|a| + k..] == b[k..];
    assert OpensComment(a + b, |a| + k);
  }

  lemma {:induction false} SlashesStay(s: string, i: nat, rest: string)
    requires i + 1 < |s| && s[i] == '/' && s[i + 1] == '/'
    ensures HasComment(Encode(s) + rest)
  {
    hide HasComment;
    if i == 0 {
      EncodedSlashes(s);
      SlashesOpen(Encode(s[2..]) + rest);
      assert Encode(s) + rest == "//" + (Encode(s[2..]) + rest);
    } else {
      hide EncodeChar;
      SlashesStay(s[1..], i - 1, rest);
      CommentFurtherOn(EncodeChar(s[0]), Encode(s[1..]) + rest);
      assert Encode(s) + rest == EncodeChar(s[0]) + (Encode(s[1..]) + rest);
    }
  }

  lemma EncodedSlashes(s: string)
    requires |s| >= 2 && s[0] == '/' && s[1] == '/'
    ensures Encode(s) == "//" + Encode(s[2..])
  {
    assert s[1..][1..] == s[2..];
    assert Encode(s[1..]) == "/" + Encode(s[2..]);
    assert Encode(s) == "/" + ("/" + Encode(s[2..]));
  }

  lemma SlashesOpen(more: string)
    ensures HasComment("//" + more)
  {
    assert OpensComment("//" + more, 0);
  }

  /** Every string with two slashes in it, as any URL, is such a value: the braces are left on two lines. */
  lemma UrlLeavesBraces(s: string, i: nat)
    requires i + 1 < |s| && s[i] == '/' && s[i + 1] == '/'
    ensures IsValueText(Quote(s)) && SetOne("{}", KV("a", Quote(s))).Ok?
    ensures DelOne(SetOne("{}", KV("a", Quote(s))).value, "a") != Ok("{}")
  {
    hide IsValueText, SetOne, DelOne, HasComment, Encode;
    SerializedIsValueText(Str(s));
    SlashesStay(s, i, "\"");
    CommentFurtherOn("\"", Encode(s) + "\"");
    assert "\"" + (Encode(s) + "\"") == Quote(s);
    EmptyComesBack(Quote(s));
  }

  lemma BracesClose(t: string, member: string, newline: string)
    requires t == "{}"
    ensures var p := Node(Object([]), 0, 2);
      WellFormed(t, p) && (Closes(t, p, member, newline) <==> !HasComment(member))
  {
    var p := Node(Object([]), 0, 2);
    assert Filler(t, 1, 1) && Laid(t, [], 1, 1);
    assert t[1..1] == "" && t[0..2] == t;
    assert LineStart(t, 1) == 0 && t[0..1][0] == '{';
  }

  // ---- objects of two members -------------------------------------------------------------------

  /** `"key": v` */
  function Line(key: string, v: string): string {
    Quote(key) + ": " + v
  }

  /** Two members, with what stands before each and behind them. */
  datatype Pair = Pair(front: string, a: string, v: string, gap: string, b: string, w: string, tail: string)

  function Written(p: Pair): string {
    "{" + (p.front + (Line(p.a, p.v) + ("," + (p.gap + (Line(p.b, p.w) + p.tail)))))
  }

  /** White space with a line comment in it. */
  function Note(before: string, note: string, behind: string): string {
    before + ("//" + (note + ("\n" + behind)))
  }

  ghost predicate IsGap(gap: string) {
    || JsonBlank(gap)
    || exists before, note, behind ::
         gap == Note(before, note, behind) && JsonBlank(before) && JsonBlank(behind) && '\n' !in note
  }

  /** Closed behind white space, or behind a comma on the next line. */
  predicate Tail(tail: string) {
    tail == "\n,}" || (tail != "" && tail[|tail| - 1] == '}' && JsonBlank(tail[..|tail| - 1]))
  }

  ghost predicate WellWritten(p: Pair) {
    IsValueText(p.v) && IsValueText(p.w) && IsGap(p.front) && IsGap(p.gap) && Tail(p.tail)
  }

  lemma TailEnds(t: string, p: nat, tail: string)
    requires p + |tail| == |t| && Stands(t, p, tail) && Tail(tail)
    ensures Members(t, p, false) == Some(([], |t|)) && Delimited(t, p)
  {
    hide Skip, Members;
    var n := |tail| - 1;
    StandsAt(t, p, tail, 0);
    StandsAt(t, p, tail, n);
    MembersStepwise(t, p, false);
    if tail == "\n,}" {
      StandsAt(t, p, tail, 1);
      SkipRun(t, p, p + 1);
      Visible(t, p + 2);
    } else {
      forall k | p <= k < p + n ensures JsonWs(t[k]) {
        StandsAt(t, p, tail, k - p);
        assert tail[..n][k - p] == tail[k - p];
      }
      SkipRun(t, p, p + n);
      assert n > 0 ==> tail[..n][0] == tail[0];
    }
  }

  lemma GapSkips(t: string, p: nat, gap: string)
    requires Stands(t, p, gap) && IsGap(gap) && p + |gap| < |t| && t[p + |gap|] == '"'
    ensures Skip(t, p) == p + |gap|
  {
    hide JsonBlank, Stands, Skip;
    if JsonBlank(gap) {
      SkipBlankText(t, p, gap);
    } else {
      var before, note, behind :|
        gap == Note(before, note, behind) && JsonBlank(before) && JsonBlank(behind) && '\n' !in note;
      NoteStands(t, p, before, note, behind);
      var n := p + |before|;
      var e := n + 2 + |note|;
      SkipBlanksTo(t, p, before);
      CommentSkipped(t, n);
      SkipBlankText(t, e + 1, behind);
      PastNewline(t, e);
    }
  }

  lemma PastNewline(t: string, e: nat)
    requires e < |t| && t[e] == '\n'
    ensures Skip(t, e) == Skip(t, e + 1)
  {
  }

  lemma {:induction false} SkipBlanksTo(t: string, p: nat, blank: string)
    requires Stands(t, p, blank) && JsonBlank(blank)
    ensures Skip(t, p) == Skip(t, p + |blank|)
    decreases |blank|
  {
    if blank != "" {
      StandsAt(t, p, blank, 0);
      assert forall k | 0 <= k < |blank[1..]| :: blank[1..][k] == blank[k + 1] && t[p + (k + 1)] == blank[k + 1];
      SkipBlanksTo(t, p + 1, blank[1..]);
    }
  }

  lemma NoteParts(t: string, p: nat, before: string, note: string, behind: string)
    requires Stands(t, p, Note(before, note, behind))
    ensures var n := p + |before|;
      var e := n + 2 + |note|;
      && Stands(t, p, before) && Stands(t, n, "//") && Stands(t, n + 2, note) && Stands(t, e, "\n") && Stands(t, e + 1, behind)
  {
    hide Stands;
    var n := p + |before|;
    var last := "\n" + behind;
    StandsPart(t, p, before, "//" + (note + last));
    StandsPart(t, n, "//", note + last);
    StandsPart(t, n + 2, note, last);
    StandsPart(t, n + 2 + |note|, "\n", behind);
  }

  lemma LineNote(t: string, n: nat, note: string)
    requires Stands(t, n, "//") && Stands(t, n + 2, note) && Stands(t, n + 2 + |note|, "\n") && '\n' !in note
    ensures var e := n + 2 + |note|;
      e < |t| && OpensComment(t, n) && t[n + 1] == '/' && CommentEnd(t, n) == Some(e) && t[e] == '\n'
  {
    hide Stands, LineEnd, BlockEnd;
    var e := n + 2 + |note|;
    StandsAt(t, n, "//", 0);
    StandsAt(t, n, "//", 1);
    StandsAt(t, e, "\n", 0);
    forall k | n + 2 <= k < e ensures t[k] != '\n' {
      StandsAt(t, n + 2, note, k - (n + 2));
      assert note[k - (n + 2)] in note;
    }
    LineEndsAt(t, n + 2, e);
  }

  /** Where the comment of a note stands. */
  lemma NoteStands(t: string, p: nat, before: string, note: string, behind: string)
    requires Stands(t, p, Note(before, note, behind)) && '\n' !in note
    ensures var n := p + |before|;
      var e := n + 2 + |note|;
      && e < |t| && Stands(t, p, before) && OpensComment(t, n) && t[n + 1] == '/' && CommentEnd(t, n) == Some(e)
      && t[n..e] == "//" + note && t[e] == '\n' && Stands(t, e + 1, behind)
  {
    hide Stands, CommentEnd, Note;
    var n := p + |before|;
    NoteParts(t, p, before, note, behind);
    LineNote(t, n, note);
    StandsSlice(t, n, "//");
    StandsSlice(t, n + 2, note);
    assert t[n..n + 2 + |note|] == t[n..n + 2] + t[n + 2..n + 2 + |note|];
  }

  /** A member's line, in front of a list that is known. */
  lemma LineParses(t: string, p: nat, q: nat, first: bool, key: string, v: string)
    requires p <= q < |t| && IsValueText(v) && Stands(t, q, Line(key, v)) && Delimited(t, q + |Line(key, v)|)
    requires if first then Skip(t, p) == q else p < |t| && t[p] == ',' && Skip(t, p + 1) == q
    requires Members(t, q + |Line(key, v)|, false).Some?
    ensures t[q] == '"' && MemberAt(t, q).Some?
    ensures var m := MemberAt(t, q).value;
      && m.key == key && m.keyStart == q && m.value.end == q + |Line(key, v)| && TreeOf(t, m.value) == ValueTree(v)
      && var r := Members(t, q + |Line(key, v)|, false).value;
         Members(t, p, first) == Some(([m] + r.0, r.1))
  {
    hide Skip, MemberAt, Members, Stands, TreeOf, IsValueText;
    assert BuildMember(key, [], v, "", "\n", "") == Line(key, v);
    BuiltMemberParses(t, q, key, [], v, "", "\n", "");
    if !first {
      Visible(t, p);
    }
    MembersCons(t, p, first, MemberAt(t, q).value);
  }

  function FirstKey(p: Pair): nat {
    1 + |p.front|
  }

  function FirstEnd(p: Pair): nat {
    FirstKey(p) + |Line(p.a, p.v)|
  }

  function SecondKey(p: Pair): nat {
    FirstEnd(p) + 1 + |p.gap|
  }

  function SecondEnd(p: Pair): nat {
    SecondKey(p) + |Line(p.b, p.w)|
  }

  /** What stands where. */
  lemma PartsStand(p: Pair)
    ensures var t := Written(p);
      && |t| == SecondEnd(p) + |p.tail|
      && Stands(t, 0, "{") && Stands(t, 1, p.front) && Stands(t, FirstKey(p), Line(p.a, p.v))
      && Stands(t, FirstEnd(p), ",") && Stands(t, FirstEnd(p) + 1, p.gap)
      && Stands(t, SecondKey(p), Line(p.b, p.w)) && Stands(t, SecondEnd(p), p.tail)
  {
    hide Stands, Line;
    var x, y := Line(p.a, p.v), Line(p.b, p.w);
    var e := y + p.tail;
    var d := p.gap + e;
    var c := "," + d;
    var b := x + c;
    var a := p.front + b;
    var t := "{" + a;
    WholeStands(t);
    StandsPart(t, 0, "{", a);
    StandsPart(t, 1, p.front, b);
    StandsPart(t, FirstKey(p), x, c);
    StandsPart(t, FirstEnd(p), ",", d);
    StandsPart(t, FirstEnd(p) + 1, p.gap, e);
    StandsPart(t, SecondKey(p), y, p.tail);
  }

  /** What the pair parses to. */
  lemma PairParses(p: Pair)
    requires WellWritten(p)
    ensures var t := Written(p);
      && t[0] == '{' && Value(t, 0).Some? && Value(t, 0).value.kind.Object? && Value(t, 0).value.end == |t|
      && var ms := Value(t, 0).value.kind.members;
         && |ms| == 2
         && ms[0].key == p.a && ms[0].keyStart == FirstKey(p) && ms[0].value.end == FirstEnd(p)
         && ms[1].key == p.b && ms[1].keyStart == SecondKey(p) && ms[1].value.end == SecondEnd(p)
         && MemberTrees(t, ms) == [(p.a, ValueTree(p.v)), (p.b, ValueTree(p.w))]
  {
    hide Value, Skip, MemberAt, Members, Stands, TreeOf, IsValueText, Line, ValueTree, Written, MemberTrees, IsGap, Tail;
    var t := Written(p);
    PartsStand(p);
    LineStarts(p.a, p.v);
    LineStarts(p.b, p.w);
    StandsAt(t, 0, "{", 0);
    StandsAt(t, FirstKey(p), Line(p.a, p.v), 0);
    StandsAt(t, FirstEnd(p), ",", 0);
    StandsAt(t, SecondKey(p), Line(p.b, p.w), 0);
    GapSkips(t, 1, p.front);
    GapSkips(t, FirstEnd(p) + 1, p.gap);
    TailEnds(t, SecondEnd(p), p.tail);
    LineParses(t, FirstEnd(p), SecondKey(p), false, p.b, p.w);
    LineParses(t, 1, FirstKey(p), true, p.a, p.v);
    ObjectValue(t, 0);
    TreesOfTwo(t, MemberAt(t, FirstKey(p)).value, MemberAt(t, SecondKey(p)).value);
  }

  lemma TreesOfTwo(t: string, m: Member, n: Member)
    ensures [m] + ([n] + []) == [m, n]
    ensures MemberTrees(t, [m, n]) == [(m.key, TreeOf(t, m.value)), (n.key, TreeOf(t, n.value))]
  {
    hide TreeOf;
  }

  lemma WholeStands(t: string)
    ensures Stands(t, 0, t)
  {
  }

  lemma LineStarts(key: string, v: string)
    ensures Line(key, v) != "" && Line(key, v)[0] == '"'
  {
  }

  lemma PairDocument(p: Pair)
    requires WellWritten(p)
    ensures var t := Written(p);
      && Accepts(t) && Value(t, 0).Some? && ParseDocument(t) == Ok(Value(t, 0).value) && ObjectDocument(t)
      && DocumentTree(t) == Branch([(p.a, ValueTree(p.v)), (p.b, ValueTree(p.w))])
  {
    hide Value, Accepts, ParseDocument, MemberTrees, Written, WellWritten, ValueTree;
    var t := Written(p);
    PairParses(p);
    Visible(t, 0);
    AtTheEnd(t);
    BranchTree(t, Value(t, 0).value);
    AcceptsIsStrict(t);
    AcceptedTextParses(t);
  }

  lemma AtTheEnd(t: string)
    ensures Skip(t, |t|) == |t| && !LeftOpen(t, |t|)
  {
  }

  /** A key that stands twice: `set` changes the first, a map reader goes on finding the last. */
  lemma DoubledKey(p: Pair, x: string, below: Below)
    requires WellWritten(p) && p.a == p.b && Segments(p.a) == [p.a] && IsValueText(x)
    ensures var (t, kv) := (Written(p), KV(p.a, x));
      && SetOne(t, kv).Ok? && ObjectDocument(SetOne(t, kv).value)
      && TreeGet(DocumentTree(SetOne(t, kv).value), [p.a], below) == Some(ValueTree(p.w))
  {
    hide Accepts, ParseDocument, SetOne, IsValueText, ValueTree, Segments, Written, TreeOf, Value;
    var t, kv, key := Written(p), KV(p.a, x), p.a;
    PairDocument(p);
    PairParses(p);
    var ms := [(key, ValueTree(p.v)), (key, ValueTree(p.w))];
    FindLastIs(ms, key, 1);
    assert FindKey(ms, key) == Some(0) && [key][1..] == [];
    assert FindMember(Value(t, 0).value.kind.members, key) == Some(0);
    SetOneLaw(t, kv);
    SetReadsBack(t, kv, [], below);
  }

  /** A last member whose comma stands on the next line: without the member the comma is left over. */
  lemma CommaOnNextLine(p: Pair)
    requires WellWritten(p) && p.tail == "\n,}" && p.a != p.b && Segments(p.b) == [p.b]
    ensures DelOne(Written(p), p.b).Ok? && !Accepts(DelOne(Written(p), p.b).value)
  {
    hide Accepts, ParseDocument, DelOne, Segments, Written, TreeOf, Value, WellFormed, WellWritten, Line;
    var t := Written(p);
    PairDocument(p);
    PairParses(p);
    PartsStand(p);
    var root, e := Value(t, 0).value, SecondEnd(p);
    EditableText(t);
    StandsAt(t, e, "\n,}", 0);
    StandsAt(t, e, "\n,}", 1);
    DetachedComma(t, e);
    assert FindMember(root.kind.members, p.b) == Some(1);
    DelOneLaw(t, p.b);
  }

  lemma DetachedComma(t: string, e: nat)
    requires e + 1 < |t| && t[e] == '\n' && t[e + 1] == ','
    ensures !CommaAttached(t, e) && NextSignificant(t, e) == e + 1
  {
    assert NextSignificant(t, e + 1) == e + 1;
  }

  // ---- comments that `del` takes along ----------------------------------------------------------

  /** A pair with one comment, between the members. */
  ghost predicate Noted(p: Pair, before: string, note: string, behind: string) {
    && WellWritten(p) && p.gap == Note(before, note, behind)
    && JsonBlank(before) && JsonBlank(behind) && '\n' !in note
    && '/' !in p.front && '/' !in Line(p.a, p.v) && '/' !in note && '/' !in Line(p.b, p.w) && '/' !in p.tail
  }

  /** The only slashes are those of the comment. */
  lemma OnlyNote(p: Pair, before: string, note: string, behind: string)
    requires Noted(p, before, note, behind)
    ensures var (t, n) := (Written(p), FirstEnd(p) + 1 + |before|);
      && n + 2 + |note| < SecondKey(p) <= SecondEnd(p) <= |t|
      && forall k | 0 <= k < |t| && k != n && k != n + 1 :: t[k] != '/'
  {
    hide Line, IsGap, IsValueText, Tail;
    var t, x, y := Written(p), Line(p.a, p.v), Line(p.b, p.w);
    assert |t| == SecondEnd(p) + |p.tail|;
    forall k | 0 <= k < |t| && k != FirstEnd(p) + 1 + |before| && k != FirstEnd(p) + 2 + |before| ensures t[k] != '/' {
      if k == 0 {
      } else if k < FirstKey(p) {
        assert t[k] == p.front[k - 1];
      } else if k < FirstEnd(p) {
        assert t[k] == x[k - FirstKey(p)];
      } else if k == FirstEnd(p) {
      } else if k < SecondKey(p) {
        assert t[k] == p.gap[k - FirstEnd(p) - 1];
        NoteSlashes(before, note, behind, k - FirstEnd(p) - 1);
      } else if k < SecondEnd(p) {
        assert t[k] == y[k - SecondKey(p)];
      } else {
        assert t[k] == p.tail[k - SecondEnd(p)];
      }
    }
  }

  lemma NoteSlashes(before: string, note: string, behind: string, k: nat)
    requires JsonBlank(before) && JsonBlank(behind) && '/' !in note && k < |Note(before, note, behind)|
    requires k != |before| && k != |before| + 1
    ensures Note(before, note, behind)[k] != '/'
  {
    var n := |before|;
    assert Note(before, note, behind)[k] == if k < n then before[k] else if k < n + 2 + |note| then note[k - n - 2]
                                            else if k == n + 2 + |note| then '\n' else behind[k - n - 3 - |note|];
  }

  lemma {:induction false} NoSlashNoComment(t: string, i: nat)
    requires i <= |t| && forall k | i <= k < |t| :: t[k] != '/'
    ensures Comments(t, i) == []
    decreases |t| - i
  {
    hide StringEnd;
    if i < |t| {
      NoSlashNoComment(t, if t[i] == '"' then StringStop(t, i) else i + 1);
    }
  }

  /** The comment of the pair. */
  lemma {:induction false} NoteIsComment(p: Pair, before: string, note: string, behind: string)
    requires Noted(p, before, note, behind)
    ensures Value(Written(p), 0).Some? && Comments(Written(p), 0) == ["//" + note]
  {
    hide Written, Line, IsGap, Comments, CommentsIn, Clean, Value, Stands, JsonBlank, Note, After, WellWritten;
    var t, e := Written(p), FirstEnd(p);
    var n := e + 1 + |before|;
    PairParses(p);
    PartsStand(p);
    OnlyNote(p, before, note, behind);
    NoteStands(t, e + 1, before, note, behind);
    CleanHere(t, 0);
    PlaceIsClean(t, Value(t, 0).value, 1);
    AfterStart(Value(t, 0).value, 1);
    CommentsFrom(t, 0, e);
    NoSlashWithin(t, 0, e);
    StandsAt(t, e, ",", 0);
    CleanChar(t, e);
    BlankIsClean(t, e + 1, before);
    CommentsFrom(t, e + 1, n);
    CommentsStep(t, n);
    NoSlashNoComment(t, n + 2 + |note|);
  }

  lemma NoSlashWithin(t: string, i: nat, j: nat)
    requires Clean(t, i, j) && j <= |t| && forall k | i <= k < j :: t[k] != '/'
    ensures CommentsIn(t, i, j) == []
  {
    hide Clean, CommentsIn;
    if CommentsIn(t, i, j) != [] {
      var k := CommentInside(t, i, j);
    }
  }

  lemma BlankIsClean(t: string, p: nat, blank: string)
    requires Stands(t, p, blank) && JsonBlank(blank)
    ensures p + |blank| <= |t| && Clean(t, p, p + |blank|) && CommentsIn(t, p, p + |blank|) == []
  {
    hide Clean, CommentsIn;
    StandsBlank(t, p, blank);
    RunClean(t, p, p + |blank|);
  }

  lemma SplicedSlashes(t: string, a: nat, b: nat, x: string)
    requires a <= b <= |t| && x in ["", ",", "{}"]
    requires forall k | 0 <= k < |t| && !(a <= k < b) :: t[k] != '/'
    ensures Comments(Splice(t, a, b, x), 0) == []
  {
    var u := Splice(t, a, b, x);
    assert forall k | 0 <= k < |u| :: u[k] == if k < a then t[k] else if k < a + |x| then x[k - a] else t[k - a - |x| + b];
    NoSlashNoComment(u, 0);
  }

  /** The last member takes along the comment behind the member before it. */
  lemma LastTakesComment(p: Pair, before: string, note: string, behind: string)
    requires Noted(p, before, note, behind) && p.a != p.b && Segments(p.b) == [p.b]
    ensures var (t, root) := (Written(p), ParseDocument(Written(p)));
      && Comments(t, 0) == ["//" + note]
      && DelOne(t, p.b).Ok? && Comments(DelOne(t, p.b).value, 0) == []
      && root.Ok? && Addressed(root.value, [p.b]) == Some(Place(root.value, 1)) && TakesComment(t, root.value, 1)
  {
    hide Accepts, ParseDocument, DelOne, Segments, Written, TreeOf, Value, WellFormed, WellWritten, Line, Comments,
      RemoveMember, OnOwnLine, MemberTailEnd, Splice, Clean, Note;
    var t := Written(p);
    PairDocument(p);
    PairParses(p);
    PartsStand(p);
    NoteIsComment(p, before, note, behind);
    OnlyNote(p, before, note, behind);
    NoteStands(t, FirstEnd(p) + 1, before, note, behind);
    var root := Value(t, 0).value;
    assert FindMember(root.kind.members, p.b) == Some(1);
    DelOneLaw(t, p.b);
    RootAddresses(t, p.b);
    var a, b, x := RemoveCuts(t, root, 1);
    SplicedSlashes(t, a, b, x);
    SlicedComment(t, FirstEnd(p), SecondKey(p), FirstEnd(p) + 1 + |before|);
  }

  lemma SlicedComment(t: string, p: nat, q: nat, n: nat)
    requires p <= n && n + 1 < q <= |t| && OpensComment(t, n)
    ensures HasComment(Slice(t, p, q))
  {
    assert OpensComment(t[p..q], n - p);
  }

  /** A member that shares the brace's line takes along the comment on the line above the next one. */
  lemma InlineTakesComment(p: Pair, before: string, note: string, behind: string)
    requires Noted(p, before, note, behind) && p.a != p.b && Segments(p.a) == [p.a]
    requires '\n' !in p.front && before != "" && before[0] == '\n'
    ensures var (t, root) := (Written(p), ParseDocument(Written(p)));
      && Comments(t, 0) == ["//" + note]
      && DelOne(t, p.a).Ok? && Comments(DelOne(t, p.a).value, 0) == []
      && root.Ok? && Addressed(root.value, [p.a]) == Some(Place(root.value, 0)) && TakesComment(t, root.value, 0)
  {
    hide Accepts, ParseDocument, DelOne, Segments, Written, TreeOf, Value, WellFormed, WellWritten, Line, Comments,
      RemoveMember, OnOwnLine, MemberTailEnd, Splice, Clean, Note;
    var t := Written(p);
    PairDocument(p);
    PairParses(p);
    PartsStand(p);
    NoteIsComment(p, before, note, behind);
    OnlyNote(p, before, note, behind);
    NoteStands(t, FirstEnd(p) + 1, before, note, behind);
    var root := Value(t, 0).value;
    assert FindMember(root.kind.members, p.a) == Some(0);
    DelOneLaw(t, p.a);
    RootAddresses(t, p.a);
    BraceLine(t, root, p.front);
    StandsAt(t, FirstEnd(p), ",", 0);
    StandsAt(t, FirstEnd(p) + 1, before, 0);
    TailEndsAtBreak(t, FirstEnd(p), ",");
    var a, b, x := RemoveCuts(t, root, 0);
    SplicedSlashes(t, a, b, x);
    SlicedComment(t, FirstEnd(p) + 1, SecondKey(p), FirstEnd(p) + 1 + |before|);
  }

  /** On the line of the opening brace no member has a line of its own. */
  lemma BraceLine(t: string, node: Node, front: string)
    requires node.kind.Object? && node.kind.members != [] && node.start == 0 && t != "" && t[0] == '{'
    requires node.kind.members[0].keyStart == 1 + |front| <= |t| && Stands(t, 1, front) && '\n' !in front
    ensures !OnOwnLine(t, node, node.kind.members[0])
  {
    hide LineStart;
    forall k | 0 <= k < 1 + |front| ensures t[k] != '\n' {
      if k > 0 {
        StandsAt(t, 1, front, k - 1);
      }
    }
  }
}
