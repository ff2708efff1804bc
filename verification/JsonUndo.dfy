/** `del` after `set` of a fresh key: exactly when the text comes back character for character. */
module JsonUndo {
  import opened Text
  import opened JsonLexer
  import opened JsonStrict
  import opened JsonParser
  import opened JsonLocality
  import opened JsonReader
  import opened JsonCompose
  import opened JsonEdit
  import opened JsonMember
  import opened JsonInsert
  import opened JsonSet
  import opened JsonSetLaws
  import opened JsonDocument
  import opened JsonDel
  import opened JsonDelLaws
  import opened JsonEmptied

  // ---- what the two edits leave ---------------------------------------------------------------

  /** The comma that the last member keeps, if it had one. */
  function KeptComma(t: string, node: Node): string
    requires WellFormed(t, node) && node.kind.Object?
  {
    if TrailingCommaOf(t, node) then "," else ""
  }

  /** What stands between the last member and the rest of the text afterwards. */
  function LeftBehind(t: string, node: Node, newline: string): string
    requires WellFormed(t, node) && node.kind.Object?
  {
    KeptComma(t, node) + (newline + (if OwnLineClose(t, node) then "" else LineIndent(t, node.end - 1)))
  }

  /** The text after inserting a member and removing it again. */
  function Undone(t: string, node: Node, newline: string): string
    requires WellFormed(t, node) && node.kind.Object?
    requires LastEnd(node) <= InsertSpan(t, node).1 <= |t|
  {
    Splice(t, LastEnd(node), InsertSpan(t, node).1, LeftBehind(t, node, newline))
  }

  /** The last member, its comma, one line ending, and a closing brace on its own line. */
  predicate ClosesPlainly(t: string, node: Node, newline: string)
    requires WellFormed(t, node) && node.kind.Object?
  {
    && OwnLineClose(t, node)
    && LastEnd(node) <= LineStart(t, node.end - 1) <= |t|
    && t[LastEnd(node)..LineStart(t, node.end - 1)] == KeptComma(t, node) + newline
  }

  /** A line that starts with the close's indentation is blank up to the close. */
  lemma IndentedClose(t: string, e: nat, close: nat, head: string, indent: string)
    requires e <= close <= |t| && t[e..close] == head + indent
    requires head != "" && head[|head| - 1] == '\n' && Blanks(indent)
    ensures AllWhitespace(t[LineStart(t, close)..close])
  {
    var s := t[e..close];
    var n := close - |indent|;
    assert s[|head| - 1] == '\n' && t[n - 1] == s[|head| - 1];
    forall k | n <= k < close ensures Blank(t[k]) && t[k] != '\n' {
      assert t[k] == s[k - e] == indent[k - n];
    }
    var line := LineStart(t, close);
    assert line == n;
    forall k | 0 <= k < |t[line..close]| ensures Whitespace(t[line..close][k]) {
      assert Blank(t[line + k]);
    }
  }

  lemma NeverSame(t: string, node: Node, e: nat, tc: string, newline: string)
    requires WellFormed(t, node) && node.kind.Object? && node.kind.members != [] && !OwnLineClose(t, node)
    requires e <= node.end - 1 && (newline == "\n" || newline == "\r\n")
    ensures t[e..node.end - 1] != tc + (newline + LineIndent(t, node.end - 1))
  {
    hide WellFormed, LineStart, LineIndent, AllWhitespace;
    NodeBounds(t, node);
    var indent := LineIndent(t, node.end - 1);
    assert tc + (newline + indent) == (tc + newline) + indent;
    if t[e..node.end - 1] == (tc + newline) + indent {
      IndentedClose(t, e, node.end - 1, tc + newline, indent);
    }
  }

  lemma UndoneIsSame(t: string, node: Node, newline: string)
    requires WellFormed(t, node) && node.kind.Object? && node.kind.members != []
    requires LastEnd(node) <= InsertSpan(t, node).1 <= |t|
    requires newline == "\n" || newline == "\r\n"
    ensures Undone(t, node, newline) == t <==> ClosesPlainly(t, node, newline)
  {
    hide WellFormed, TrailingCommaOf, LineStart, TrimBack, OwnLineClose, Splice, LineIndent, LastEnd;
    NodeBounds(t, node);
    SpliceIsSame(t, LastEnd(node), InsertSpan(t, node).1, LeftBehind(t, node, newline));
    if OwnLineClose(t, node) {
      assert newline + "" == newline;
    } else {
      NeverSame(t, node, LastEnd(node), KeptComma(t, node), newline);
    }
  }

  // ---- one object -----------------------------------------------------------------------------

  lemma FreshIsLast(ms: seq<Member>, m: Member)
    requires FindMember(ms, m.key).None?
    ensures FindMember(ms + [m], m.key) == Some(|ms|)
  {
    var r := FindMember(ms + [m], m.key);
    assert (ms + [m])[|ms|] == m;
    assert forall q | 0 <= q < |ms| :: (ms + [m])[q] == ms[q];
  }

  /** `u` holds the object at `i` with one more member, `key`, standing from `q` to `end`. */
  ghost predicate Grown(t: string, u: string, i: nat, q: nat, key: string, end: nat) {
    && Value(t, i).Some? && Value(t, i).value.kind.Object?
    && q < |u| && MemberAt(u, q).Some?
    && var (node, m) := (Value(t, i).value, MemberAt(u, q).value);
       && m.key == key && m.value.end == end
       && Value(u, i).Some?
       && Value(u, i).value.kind == Object(node.kind.members + [m])
       && Value(u, i).value.end == node.end + (|u| - |t|)
  }

  /** Where the new member starts. */
  function NewKey(t: string, node: Node, newline: string, unit: string): nat
    requires WellFormed(t, node) && node.kind.Object?
  {
    InsertSpan(t, node).0 + |AddedComma(t, node)| + |Lead(t, node, newline, unit)|
  }

  /** The object with the new member as its last. */
  lemma GrownObject(t: string, i: nat, key: string, v: string, newline: string, unit: string)
    requires Value(t, i).Some? && Value(t, i).value.kind.Object?
    requires WellFormed(t, Value(t, i).value) && !StrayComma(t, Value(t, i).value)
    requires BlankUnits(newline, unit) && IsValueText(v)
    ensures var node := Value(t, i).value;
      var member := BuildMember(key, [], v, MemberIndent(t, node, unit), newline, unit);
      var u := InsertMember(t, node, member, newline, unit);
      var q := NewKey(t, node, newline, unit);
      Grown(t, u, i, q, key, q + |member|)
  {
    hide Value, WellFormed, MemberIndent, BuildMember, InsertMember, InsertSpan, AddedComma, Lead,
      Separator, Members, MemberAt, Agree, Stands, TreeOf, ValueTree, Chain, IsValueText, StrayComma;
    var node := Value(t, i).value;
    var indent := MemberIndent(t, node, unit);
    var member := BuildMember(key, [], v, indent, newline, unit);
    var u := InsertMember(t, node, member, newline, unit);
    var ms, e := node.kind.members, LastEnd(node);
    var q := NewKey(t, node, newline, unit);
    BuiltStarts(key, [], v, indent, newline, unit);
    InsertedObject(t, i, member, newline, unit);
    ValueOpens(t, i);
    Within(t, u, 0, e, 0, i, e);
    AgreeBounds(t, u, 0, e, 0);
    KeepPrefix(t, u, i, |ms|);
    BlankIndent(indent);
    BlankIndent(unit);
    BuiltMemberParses(u, q, key, [], v, indent, newline, unit);
    MembersCons(u, e, ms == [], MemberAt(u, q).value);
    assert ms[..|ms|] == ms;
    assert [MemberAt(u, q).value] + [] == [MemberAt(u, q).value];
  }

  /** Right behind the new member stand the kept comma and a line ending, where its tail ends. */
  lemma NewTail(t: string, u: string, e: nat, comma: string, at: nat, lead: string, member: string,
                tc: string, gap: string, resume: nat)
    requires Inserted(t, u, e, comma, at, lead, member, tc + gap, resume)
    requires gap != "" && (gap[0] == '\n' || gap[0] == '\r') && (tc == "" || tc == ",")
    ensures var r := at + |comma| + |lead| + |member|;
      && r + |tc| <= |u|
      && MemberTailEnd(u, r) == r + |tc|
      && Splice(u, e, r + |tc|, tc) == Splice(t, e, resume, tc + gap)
  {
    hide CommentEnd, Agree, Stands, Splice, MemberTailEnd;
    var r := at + |comma| + |lead| + |member|;
    StandsPart(u, r, tc, gap);
    StandsAt(u, r + |tc|, gap, 0);
    if tc == "," {
      StandsAt(u, r, tc, 0);
    }
    TailEndsAtBreak(u, r, tc);
    StandsSlice(u, r + |tc|, gap);
    SameHead(t, u, e);
    SameTail(t, u, resume, |u| - |t|);
    JoinedTail(u, r + |tc|, gap);
    SplicesMeet(t, u, e, r + |tc|, resume, tc, gap);
  }

  lemma SplicesMeet(t: string, u: string, e: nat, from: nat, resume: nat, tc: string, gap: string)
    requires e <= resume <= |t| && e <= from <= |u| && u[..e] == t[..e] && u[from..] == gap + t[resume..]
    ensures Splice(u, e, from, tc) == Splice(t, e, resume, tc + gap)
  {
    assert t[..e] + tc + (gap + t[resume..]) == t[..e] + (tc + gap) + t[resume..];
  }

  lemma JoinedTail(u: string, i: nat, gap: string)
    requires i + |gap| <= |u| && u[i..i + |gap|] == gap
    ensures u[i..] == gap + u[i + |gap|..]
  {
  }

  lemma SameHead(t: string, u: string, e: nat)
    requires Agree(t, u, 0, e, 0)
    ensures e <= |t| && e <= |u| && u[..e] == t[..e]
  {
    assert forall k | 0 <= k < e :: u[k + 0] == t[k];
  }

  lemma SameTail(t: string, u: string, resume: nat, d: int)
    requires Agree(t, u, resume, |t|, d) && |u| == |t| + d
    ensures 0 <= resume + d <= |u| && u[resume + d..] == t[resume..]
  {
    forall q | 0 <= q < |t| - resume ensures u[resume + d..][q] == t[resume..][q] {
      assert u[(resume + q) + d] == t[resume + q];
    }
  }

  lemma TrailIs(t: string, node: Node, newline: string)
    requires WellFormed(t, node) && node.kind.Object?
    ensures Trail(t, node, newline) == LeftBehind(t, node, newline)
  {
    hide WellFormed, OwnLineClose, TrailingCommaOf, LineIndent;
    NodeBounds(t, node);
    var indent := if OwnLineClose(t, node) then "" else LineIndent(t, node.end - 1);
    assert KeptComma(t, node) + newline + indent == KeptComma(t, node) + (newline + indent);
  }

  /** The new member has a comma behind it just if the last one had. */
  lemma NewComma(t: string, i: nat, member: string, newline: string, unit: string)
    requires Value(t, i).Some? && Value(t, i).value.kind.Object?
    requires WellFormed(t, Value(t, i).value) && BlankUnits(newline, unit)
    requires member != "" && member[0] == '"'
    ensures var node := Value(t, i).value;
      var u := InsertMember(t, node, member, newline, unit);
      var r := NewKey(t, node, newline, unit) + |member|;
      && r <= |u| && (CommaAt(u, NextSignificant(u, r)) <==> TrailingCommaOf(t, node))
  {
    hide Value, WellFormed, OwnLineClose, TrailingCommaOf, Lead, Trail, InsertSpan, InsertMember, Members, Skip,
      Agree, AddedComma, Separator, Stands, JsonBlank;
    var node := Value(t, i).value;
    var (at, resume) := InsertSpan(t, node);
    var trail := Trail(t, node, newline);
    var u := InsertMember(t, node, member, newline, unit);
    var r := NewKey(t, node, newline, unit) + |member|;
    SpanIsBlank(t, i);
    ClosingZone(t, i);
    PartsAreBlank(t, node, newline, unit);
    InsertIsInserted(t, node, member, newline, unit);
    StandsAt(u, r, trail, 0);
    if TrailingCommaOf(t, node) {
      SkipAtComma(u, r);
    } else {
      HeadBlank(trail);
      StandsBlank(u, r, trail);
      BlankTail(t, u, r, resume, node.end - 1, |u| - |t|);
    }
    NextSame(u, r);
  }

  lemma HeadBlank(s: string)
    requires s != "" && JsonWs(s[0]) && JsonBlank(s[1..])
    ensures JsonBlank(s)
  {
    forall k | 0 <= k < |s| ensures JsonWs(s[k]) {
      if k > 0 {
        assert s[k] == s[1..][k - 1];
      }
    }
  }

  /** Inserting a fresh member and removing it. */
  lemma InsertedThenRemoved(t: string, i: nat, key: string, v: string, newline: string, unit: string)
    requires Value(t, i).Some? && Value(t, i).value.kind.Object?
    requires WellFormed(t, Value(t, i).value) && Value(t, i).value.kind.members != []
    requires FindMember(Value(t, i).value.kind.members, key).None?
    requires BlankUnits(newline, unit) && IsValueText(v)
    ensures var node := Value(t, i).value;
      var u := InsertMember(t, node, BuildMember(key, [], v, MemberIndent(t, node, unit), newline, unit), newline, unit);
      && LastEnd(node) <= InsertSpan(t, node).1 <= |t|
      && Value(u, i).Some? && Value(u, i).value.kind.Object? && WellFormed(u, Value(u, i).value)
      && DelPath(u, Value(u, i).value, [key]) == Undone(t, node, newline)
  {
    hide Value, WellFormed, MemberIndent, BuildMember, InsertMember, InsertSpan, AddedComma, Lead, Trail, TrailingCommaOf,
      Members, MemberAt, IsValueText, RemoveMember, NextSignificant, MemberTailEnd, OwnLineClose, Inserted, OnOwnLine,
      ExtendLineEnd, LineStart, LineIndent, RemoveOnly, Splice, FindMember;
    var node := Value(t, i).value;
    var ms := node.kind.members;
    var member := BuildMember(key, [], v, MemberIndent(t, node, unit), newline, unit);
    var u := InsertMember(t, node, member, newline, unit);
    GrownObject(t, i, key, v, newline, unit);
    StrictIsWellFormed(u, i);
    BuiltStarts(key, [], v, MemberIndent(t, node, unit), newline, unit);
    SpanIsBlank(t, i);
    InsertIsInserted(t, node, member, newline, unit);
    TrailIs(t, node, newline);
    NewComma(t, i, member, newline, unit);
    NodeBounds(t, node);
    NewTail(t, u, LastEnd(node), AddedComma(t, node), InsertSpan(t, node).0, Lead(t, node, newline, unit), member,
            KeptComma(t, node), newline + (if OwnLineClose(t, node) then "" else LineIndent(t, node.end - 1)),
            InsertSpan(t, node).1);
    var q := NewKey(t, node, newline, unit);
    FreshIsLast(ms, MemberAt(u, q).value);
    RemoveShape(u, Value(u, i).value, |ms|);
  }

  /** ... into an object without members. */
  lemma FirstThenRemoved(t: string, i: nat, key: string, v: string, newline: string, unit: string)
    requires Value(t, i).Some? && Value(t, i).value.kind.Object? && WellFormed(t, Value(t, i).value)
    requires Value(t, i).value.kind.members == [] && !StrayComma(t, Value(t, i).value)
    requires BlankUnits(newline, unit) && IsValueText(v)
    ensures var node := Value(t, i).value;
      var member := BuildMember(key, [], v, MemberIndent(t, node, unit), newline, unit);
      var u := InsertMember(t, node, member, newline, unit);
      && Value(u, i).Some? && Value(u, i).value.kind.Object? && WellFormed(u, Value(u, i).value)
      && DelPath(u, Value(u, i).value, [key]) == LeftEmpty(t, node, member, newline)
  {
    hide Value, WellFormed, MemberIndent, BuildMember, InsertMember, InsertSpan, Lead, MemberAt, IsValueText,
      RemoveOnly, FindMember, StrayComma, LeftEmpty, BlankUnits;
    var node := Value(t, i).value;
    var member := BuildMember(key, [], v, MemberIndent(t, node, unit), newline, unit);
    var u := InsertMember(t, node, member, newline, unit);
    GrownObject(t, i, key, v, newline, unit);
    StrictIsWellFormed(u, i);
    BuiltStarts(key, [], v, MemberIndent(t, node, unit), newline, unit);
    var m := MemberAt(u, NewKey(t, node, newline, unit)).value;
    FreshIsLast([], m);
    assert [] + [m] == [m];
    FirstMemberRemoved(t, i, member, newline, unit, Value(u, i).value, m);
  }

  /** What `set` of a fresh member and its removal make of the object's text. */
  function Left(t: string, node: Node, member: string, newline: string): string
    requires WellFormed(t, node) && node.kind.Object?
    requires LastEnd(node) <= InsertSpan(t, node).1 <= |t|
  {
    if node.kind.members == [] then LeftEmpty(t, node, member, newline) else Undone(t, node, newline)
  }

  /** When that is nothing. */
  predicate Closes(t: string, node: Node, member: string, newline: string)
    requires WellFormed(t, node) && node.kind.Object?
  {
    if node.kind.members == [] then ClosesEmpty(t, node, member) else ClosesPlainly(t, node, newline)
  }

  // ---- along the path -------------------------------------------------------------------------

  /** The path ends in a new key of an object, not beside a stray comma; all objects before exist. */
  predicate FreshAt(t: string, node: Node, segments: seq<string>)
    requires segments != []
    decreases |segments|
  {
    && node.kind.Object?
    && match FindMember(node.kind.members, segments[0])
       case None => |segments| == 1 && !StrayComma(t, node)
       case Some(k) => |segments| > 1 && FreshAt(t, node.kind.members[k].value, segments[1..])
  }

  /** The object that gets the new key. */
  function Parent(node: Node, segments: seq<string>): Node
    requires segments != []
    decreases |segments|
  {
    if |segments| == 1 || !node.kind.Object? then node
    else
      match FindMember(node.kind.members, segments[0])
      case None => node
      case Some(k) => Parent(node.kind.members[k].value, segments[1..])
  }

  lemma {:induction false} ParentIsValue(t: string, i: nat, segments: seq<string>)
    requires Value(t, i).Some? && segments != [] && FreshAt(t, Value(t, i).value, segments)
    ensures var p := Parent(Value(t, i).value, segments);
      && Value(t, p.start) == Some(p) && WellFormed(t, p) && p.kind.Object?
      && p.start < LastEnd(p) <= InsertSpan(t, p).0 <= InsertSpan(t, p).1 <= |t|
    decreases |segments|
  {
    hide Value, WellFormed, InsertSpan;
    StrictIsWellFormed(t, i);
    ValueOpens(t, i);
    var node := Value(t, i).value;
    match FindMember(node.kind.members, segments[0])
    case None =>
      ClosingZone(t, i);
      SpanIsBlank(t, i);
    case Some(k) =>
      MemberPlace(t, i, k);
      ParentIsValue(t, node.kind.members[k].value.start, segments[1..]);
  }

  lemma {:induction false} FreshIsSound(t: string, node: Node, segments: seq<string>)
    requires segments != [] && FreshAt(t, node, segments)
    ensures !StrayAt(t, node, segments)
    decreases |segments|
  {
    match FindMember(node.kind.members, segments[0])
    case None =>
    case Some(k) => FreshIsSound(t, node.kind.members[k].value, segments[1..]);
  }

  lemma FoundAgain(ms: seq<Member>, k: nat, m: Member, rest: seq<Member>)
    requires FindMember(ms, m.key) == Some(k)
    ensures FindMember(ms[..k] + ([m] + rest), m.key) == Some(k)
  {
    var ns := ms[..k] + ([m] + rest);
    var r := FindMember(ns, m.key);
    assert ns[k] == m;
    assert forall q | 0 <= q < k :: ns[q] == ms[q];
  }

  /** What `del` makes of an edited text, seen from the object at `i`. */
  ghost predicate DelLeaves(u: string, i: nat, segments: seq<string>, left: string) {
    && segments != []
    && Value(u, i).Some? && Value(u, i).value.kind.Object? && WellFormed(u, Value(u, i).value)
    && DelPath(u, Value(u, i).value, segments) == left
  }

  /** `del` finds its way to a member's value through the edited object. */
  lemma {:induction false} DelThrough(t: string, u: string, i: nat, k: nat, segments: seq<string>, left: string)
    requires Value(t, i).Some? && Value(t, i).value.kind.Object? && |segments| > 1
    requires FindMember(Value(t, i).value.kind.members, segments[0]) == Some(k)
    requires var c := Value(t, i).value.kind.members[k].value;
      && Outside(t, u, c.start, c.end)
      && DelLeaves(u, c.start, segments[1..], left)
      && Value(u, c.start).value.end == c.end + (|u| - |t|)
    ensures DelLeaves(u, i, segments, left)
  {
    hide Value, WellFormed, Agree, TreeOf, Members, FindMember, RemoveMember;
    var node := Value(t, i).value;
    var ms, c := node.kind.members, node.kind.members[k].value;
    var d := |u| - |t|;
    MemberPlace(t, i, k);
    Within(t, u, 0, c.start + 1, 0, i, c.start);
    Within(t, u, 0, c.start + 1, 0, c.start, c.start + 1);
    AgreeFirst(t, u, c.start, c.start + 1, 0);
    Within(t, u, c.end - 1, |t|, d, c.end, node.end);
    SolidSame(t, u, c.start);
    RevaluedList(t, u, i, k, d);
    KeepPrefix(t, u, i, k);
    var m := Member(ms[k].key, ms[k].keyStart, Value(u, c.start).value);
    FoundAgain(ms, k, m, Members(u, m.value.end, false).value.0);
    StrictIsWellFormed(u, i);
    FoundMember(Value(u, i).value.kind.members, ms[..k], m, Members(u, m.value.end, false).value.0, k);
  }

  lemma FoundMember(ns: seq<Member>, before: seq<Member>, m: Member, rest: seq<Member>, k: nat)
    requires ns == before + ([m] + rest) && |before| == k
    ensures k < |ns| && ns[k] == m
  {
  }

  /** The member that `set` puts in. */
  function NewMember(t: string, p: Node, segments: seq<string>, v: string, newline: string, unit: string): string
    requires WellFormed(t, p) && segments != []
  {
    BuildMember(segments[|segments| - 1], [], v, MemberIndent(t, p, unit), newline, unit)
  }

  lemma NewMemberBelow(t: string, p: Node, segments: seq<string>, v: string, newline: string, unit: string)
    requires WellFormed(t, p) && |segments| > 1
    ensures NewMember(t, p, segments[1..], v, newline, unit) == NewMember(t, p, segments, v, newline, unit)
  {
    assert segments[1..][|segments| - 2] == segments[|segments| - 1];
  }

  lemma {:induction false} SetThenDel(t: string, i: nat, segments: seq<string>, v: string, newline: string, unit: string)
    requires Value(t, i).Some? && WellFormed(t, Value(t, i).value)
    requires segments != [] && FreshAt(t, Value(t, i).value, segments)
    requires BlankUnits(newline, unit) && IsValueText(v)
    ensures var node := Value(t, i).value;
      var (p, r) := (Parent(node, segments), EditObject(t, node, segments, v, newline, unit));
      && r.Ok? && WellFormed(t, p) && p.kind.Object? && LastEnd(p) <= InsertSpan(t, p).1 <= |t|
      && DelLeaves(r.value, i, segments, Left(t, p, NewMember(t, p, segments, v, newline, unit), newline))
    decreases |segments|
  {
    hide Value, WellFormed, Outside, BecomesTree, ValueTree, IsValueText, MemberTrees, MemberIndent, BuildMember,
      InsertMember, InsertSpan, Undone, LeftEmpty, LastEnd, DelPath, StrayComma;
    var node := Value(t, i).value;
    var ms := node.kind.members;
    ParentIsValue(t, i, segments);
    match FindMember(ms, segments[0])
    case None =>
      if ms == [] {
        FirstThenRemoved(t, i, segments[0], v, newline, unit);
      } else {
        InsertedThenRemoved(t, i, segments[0], v, newline, unit);
      }
      assert segments == [segments[0]] && segments[1..] == [];
    case Some(k) =>
      SetThenDelBelow(t, i, segments, v, newline, unit, k);
  }

  lemma SetThenDelBelow(t: string, i: nat, segments: seq<string>, v: string, newline: string, unit: string, k: nat)
    requires Value(t, i).Some? && WellFormed(t, Value(t, i).value)
    requires Value(t, i).value.kind.Object? && |segments| > 1 && FreshAt(t, Value(t, i).value, segments)
    requires FindMember(Value(t, i).value.kind.members, segments[0]) == Some(k)
    requires BlankUnits(newline, unit) && IsValueText(v)
    ensures var node := Value(t, i).value;
      var (p, r) := (Parent(node, segments), EditObject(t, node, segments, v, newline, unit));
      && r.Ok? && WellFormed(t, p) && p.kind.Object? && LastEnd(p) <= InsertSpan(t, p).1 <= |t|
      && DelLeaves(r.value, i, segments, Left(t, p, NewMember(t, p, segments, v, newline, unit), newline))
    decreases |segments|, 0
  {
    hide Value, WellFormed, Outside, ValueTree, IsValueText, InsertSpan, Left, NewMember, LastEnd, TreeOf, StrayAt,
      Settable, TreeSet, BecomesTree, DelLeaves, Parent, EditObject, FindMember, FreshAt;
    var c := Value(t, i).value.kind.members[k].value;
    var rest := segments[1..];
    MemberPlace(t, i, k);
    StepsBelow(t, Value(t, i).value, segments, v, newline, unit, k);
    SetThenDel(t, c.start, rest, v, newline, unit);
    EditTree(t, c.start, rest, v, newline, unit);
    var u, p := EditObject(t, c, rest, v, newline, unit).value, Parent(c, rest);
    var left := Left(t, p, NewMember(t, p, rest, v, newline, unit), newline);
    NewMemberBelow(t, p, segments, v, newline, unit);
    EditedEnd(u, c.start, c.end + (|u| - |t|), StrayAt(t, c, rest), TreeSet(TreeOf(t, c), rest, ValueTree(v)), rest, left);
    DelThrough(t, u, i, k, segments, left);
  }

  lemma StepsBelow(t: string, node: Node, segments: seq<string>, v: string, newline: string, unit: string, k: nat)
    requires WellFormed(t, node) && node.kind.Object? && |segments| > 1 && FreshAt(t, node, segments)
    requires FindMember(node.kind.members, segments[0]) == Some(k)
    ensures var c := node.kind.members[k].value;
      && WellFormed(t, c) && c.kind.Object? && FreshAt(t, c, segments[1..])
      && Parent(node, segments) == Parent(c, segments[1..])
      && EditObject(t, node, segments, v, newline, unit) == EditObject(t, c, segments[1..], v, newline, unit)
  {
    hide InsertMember, BuildMember, MemberIndent, Splice, FindMember;
    assert WellFormedMember(t, node.kind.members[k]);
  }

  lemma EditedEnd(u: string, i: nat, end: int, stray: bool, tree: Tree, segments: seq<string>, left: string)
    requires BecomesTree(u, i, end, stray, tree) && DelLeaves(u, i, segments, left)
    ensures Value(u, i).Some? && Value(u, i).value.end == end
  {
    hide Value, WellFormed, TreeOf, DelPath;
  }

  // ---- documents --------------------------------------------------------------------------------

  /** The path ends in a new key of an object, not beside a stray comma. */
  predicate FreshPath(t: string, path: string) {
    && Accepts(t) && ObjectDocument(t) && Segments(path) != []
    && FreshAt(t, ParseDocument(t).value, Segments(path))
  }

  /**
   * The object that gets the key closes on the line below its last member; or it holds nothing,
   * not even white space, or a comment and a closing brace on its own line.
   */
  predicate UndoesExactly(t: string, kv: KV)
    requires FreshPath(t, kv.path)
  {
    var p := Parent(ParseDocument(t).value, Segments(kv.path));
    && WellFormed(t, p) && p.kind.Object?
    && Closes(t, p, NewMember(t, p, Segments(kv.path), kv.text, NewlineStyle(t), DetectIndentUnit(t)), NewlineStyle(t))
  }

  lemma LeftIsSame(t: string, p: Node, member: string, newline: string)
    requires WellFormed(t, p) && p.kind.Object?
    requires p.start < LastEnd(p) <= InsertSpan(t, p).0 <= InsertSpan(t, p).1 <= |t|
    requires newline == "\n" || newline == "\r\n"
    ensures Left(t, p, member, newline) == t <==> Closes(t, p, member, newline)
  {
    hide WellFormed, InsertSpan, Undone, LeftEmpty, ClosesEmpty, ClosesPlainly;
    if p.kind.members == [] {
      LeftEmptyIsSame(t, p, member, newline);
    } else {
      UndoneIsSame(t, p, newline);
    }
  }

  /** For a fresh key of an existing object `del` after `set` gives the text back exactly when it closes so. */
  lemma FreshComesBack(t: string, kv: KV)
    requires FreshPath(t, kv.path) && IsValueText(kv.text)
    ensures SetOne(t, kv).Ok?
    ensures DelOne(SetOne(t, kv).value, kv.path).Ok?
    ensures DelOne(SetOne(t, kv).value, kv.path).value == t <==> UndoesExactly(t, kv)
  {
    hide Value, WellFormed, ParseDocument, Accepts, TreeOf, StrayAt, EditObject, Segments, DelPath, NewMember,
      Outside, BecomesTree, IsValueText, ValueTree, DetectIndentUnit, NewlineStyle, Closes, Left, FreshAt, Settable, TreeSet;
    var segments, root := Segments(kv.path), ParseDocument(t).value;
    var newline, unit := NewlineStyle(t), DetectIndentUnit(t);
    EditableText(t);
    NewlineIsBlank(t);
    SetThenDel(t, root.start, segments, kv.text, newline, unit);
    FreshIsSound(t, root, segments);
    SetOneLaw(t, kv);
    var u := SetOne(t, kv).value;
    EditTree(t, root.start, segments, kv.text, newline, unit);
    EditableText(u);
    RootStays(t, u, root.start, root.end);
    ParentIsValue(t, root.start, segments);
    var p := Parent(root, segments);
    LeftIsSame(t, p, NewMember(t, p, segments, kv.text, newline, unit), newline);
  }

  // ---- any other path ---------------------------------------------------------------------------

  /** The same, seen from the tree. */
  predicate FreshIn(tree: Tree, segments: seq<string>)
    requires segments != []
    decreases |segments|
  {
    && tree.Branch?
    && match FindKey(tree.members, segments[0])
       case None => |segments| == 1
       case Some(k) => |segments| > 1 && FreshIn(tree.members[k].1, segments[1..])
  }

  lemma {:induction false} FindKeyAppended(ms: seq<(string, Tree)>, key: string, tree: Tree)
    requires FindKey(ms, key).None?
    ensures FindKey(ms + [(key, tree)], key) == Some(|ms|)
  {
    if ms != [] {
      assert (ms + [(key, tree)])[1..] == ms[1..] + [(key, tree)];
      FindKeyAppended(ms[1..], key, tree);
    }
  }

  lemma {:induction false} FindKeyUpdated(ms: seq<(string, Tree)>, key: string, k: nat, tree: Tree)
    requires FindKey(ms, key) == Some(k)
    ensures FindKey(ms[k := (key, tree)], key) == Some(k)
  {
    if k > 0 {
      assert ms[k := (key, tree)][1..] == ms[1..][k - 1 := (key, tree)];
      FindKeyUpdated(ms[1..], key, k - 1, tree);
    }
  }

  /** Removing what was set gives the tree back only for a fresh key of an existing object. */
  lemma {:induction false} TreeComesBack(tree: Tree, segments: seq<string>, leaf: Tree)
    requires segments != [] && Settable(tree, segments)
    ensures TreeDel(TreeSet(tree, segments, leaf), segments) == tree <==> FreshIn(tree, segments)
    decreases |segments|
  {
    hide FindKey, Chain;
    var ms, key, rest := tree.members, segments[0], segments[1..];
    match FindKey(ms, key)
    case None =>
      var chain := Chain(rest, leaf);
      FindKeyAppended(ms, key, chain);
      assert Without(ms + [(key, chain)], |ms|) == ms;
    case Some(k) =>
      var below := if rest == [] then leaf else TreeSet(ms[k].1, rest, leaf);
      FindKeyUpdated(ms, key, k, below);
      if rest != [] {
        TreeComesBack(ms[k].1, rest, leaf);
        var back := TreeDel(below, rest);
        assert ms[k := (key, below)][k := (key, back)] == ms[k := (key, back)];
        assert ms[k := (key, back)] == ms <==> back == ms[k].1 by {
          assert ms[k := (key, back)][k] == (key, back);
          assert back == ms[k].1 ==> ms[k := ms[k]] == ms;
        }
      }
  }

  lemma {:induction false} FreshAlike(t: string, node: Node, segments: seq<string>)
    requires segments != []
    ensures FreshAt(t, node, segments) <==> FreshIn(TreeOf(t, node), segments) && !StrayAt(t, node, segments)
    decreases |segments|
  {
    hide FindMember, FindKey, StrayComma;
    if node.kind.Object? {
      var ms := node.kind.members;
      BranchTree(t, node);
      FindSame(t, ms, segments[0]);
      match FindMember(ms, segments[0])
      case None =>
      case Some(k) =>
        TreeAt(t, ms, k);
        if |segments| > 1 {
          FreshAlike(t, ms[k].value, segments[1..]);
        }
    }
  }

  /**
   * For every path along which `set` succeeds: `del` afterwards gives the original text back,
   * character for character, if and only if the key is new in an object that exists and nothing
   * but the optional comma and one line ending of the document's style stands between that
   * object's last value and the closing brace's own line; an object without members must be `{}`,
   * or close on a line of its own if a comment is seen.
   */
  lemma DelUndoesSet(t: string, kv: KV)
    requires IsValueText(kv.text) && SetOne(t, kv).Ok?
    ensures DelOne(SetOne(t, kv).value, kv.path) == Ok(t) <==> FreshPath(t, kv.path) && UndoesExactly(t, kv)
  {
    hide Accepts, ObjectDocument, DocumentTree, TreeSet, TreeDel, SetOne, DelOne, Segments, IsValueText, ValueTree,
      Settable, UndoesExactly, FreshPath;
    if FreshPath(t, kv.path) {
      FreshComesBack(t, kv);
    } else if DelOne(SetOne(t, kv).value, kv.path) == Ok(t) {
      OnlyFreshComesBack(t, kv);
    }
  }

  lemma OnlyFreshComesBack(t: string, kv: KV)
    requires IsValueText(kv.text) && SetOne(t, kv).Ok?
    requires DelOne(SetOne(t, kv).value, kv.path) == Ok(t)
    ensures FreshPath(t, kv.path)
  {
    hide Accepts, TreeSet, TreeDel, SetOne, DelOne, Segments, IsValueText, ValueTree, ParseDocument, TreeOf,
      Settable, FreshAt, FreshIn, StrayAt, LeavesComma;
    var segments := Segments(kv.path);
    var u := SetOne(t, kv).value;
    SetOneLaw(t, kv);
    DelOneLaw(u, kv.path);
    TreeComesBack(DocumentTree(t), segments, ValueTree(kv.text));
    FreshAlike(t, ParseDocument(t).value, segments);
  }
}
