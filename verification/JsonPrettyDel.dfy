/** Texts laid out by one rule, a member a line: `del` takes a member's line out and leaves the rest laid out. */
module JsonPrettyDel {
  import opened Text
  import opened JsonLexer
  import opened JsonStrict
  import opened JsonParser
  import opened JsonLocality
  import opened JsonReader
  import opened JsonEdit
  import opened JsonMember
  import opened JsonDelLaws
  import opened JsonPaths
  import opened JsonPretty

  // ---- the layout without a member --------------------------------------------------------------

  /** What is left when field `k` goes: an only one leaves `{}`, or braces on two lines if its text looks like a comment. */
  function Less(s: Style, fields: seq<(string, Layout)>, indent: string, k: nat): Layout
    requires k < |fields|
  {
    if |fields| > 1 then Obj(fields[..k] + fields[k + 1..])
    else if HasComment(Pretty(s, Obj(fields), indent)) then Atom("{" + (s.newline + (indent + "}")))
    else Obj([])
  }

  function Taken(s: Style, l: Layout, indent: string, path: seq<string>): Layout
    requires path != []
    decreases |path|
  {
    match l
    case Atom(v) => l
    case Obj(fields) =>
      match FirstOf(fields, path[0])
      case None => l
      case Some(k) =>
        if |path| == 1 then Less(s, fields, indent, k)
        else Obj(fields[k := (fields[k].0, Taken(s, fields[k].1, indent + s.unit, path[1..]))])
  }

  // ---- the lines without one ------------------------------------------------------------------------

  lemma {:induction false} LinesCut(s: Style, fields: seq<(string, Layout)>, indent: string, k: nat)
    requires k + 1 < |fields|
    ensures IsCut(s, fields, indent, k)
    decreases k
  {
    hide IsCut;
    if k == 0 {
      FirstCut(s, fields, indent);
    } else {
      LinesCut(s, fields[1..], indent, k - 1);
      LaterCut(s, fields, indent, k);
    }
  }

  /** The lines without member `k` are the lines with its own cut out. */
  predicate IsCut(s: Style, fields: seq<(string, Layout)>, indent: string, k: nat)
    requires k + 1 < |fields|
  {
    var a := KeyAt(s, fields, indent, k) - |indent|;
    var b := a + |indent| + |PrettyMember(s, fields[k], indent)| + 1 + |s.newline|;
    && b <= |PrettyLines(s, fields, indent)|
    && PrettyLines(s, fields[..k] + fields[k + 1..], indent) == Splice(PrettyLines(s, fields, indent), a, b, "")
  }

  lemma FirstCut(s: Style, fields: seq<(string, Layout)>, indent: string)
    requires |fields| > 1
    ensures IsCut(s, fields, indent, 0)
  {
    hide PrettyMember, PrettyLines, Splice;
    LinesStep(s, fields, indent);
    var member, rest := PrettyMember(s, fields[0], indent), PrettyLines(s, fields[1..], indent);
    FrontParts(indent, member, s.newline, rest);
    assert fields[..0] + fields[1..] == fields[1..];
    CutFront(indent + (member + ("," + s.newline)), rest);
  }

  lemma LaterCut(s: Style, fields: seq<(string, Layout)>, indent: string, k: nat)
    requires 0 < k && k + 1 < |fields| && IsCut(s, fields[1..], indent, k - 1)
    ensures IsCut(s, fields, indent, k)
  {
    hide PrettyMember, PrettyLines, Splice, KeyAt;
    LinesStep(s, fields, indent);
    KeyStep(s, fields, indent, k);
    var member, rest := PrettyMember(s, fields[0], indent), PrettyLines(s, fields[1..], indent);
    var front := indent + (member + ("," + s.newline));
    FrontParts(indent, member, s.newline, rest);
    var less := fields[..k] + fields[k + 1..];
    assert less[0] == fields[0] && less[1..] == fields[1..][..k - 1] + fields[1..][k..];
    LinesStep(s, less, indent);
    FrontParts(indent, member, s.newline, PrettyLines(s, less[1..], indent));
    var a := KeyAt(s, fields[1..], indent, k - 1) - |indent|;
    SpliceBehind(front, rest, a, a + |indent| + |PrettyMember(s, fields[k], indent)| + 1 + |s.newline|, "");
  }

  lemma KeyStep(s: Style, fields: seq<(string, Layout)>, indent: string, k: nat)
    requires 0 < k < |fields|
    ensures KeyAt(s, fields, indent, k)
         == |indent| + |PrettyMember(s, fields[0], indent)| + 1 + |s.newline| + KeyAt(s, fields[1..], indent, k - 1)
  {
    hide PrettyMember;
  }

  lemma CutFront(a: string, b: string)
    ensures Splice(a + b, 0, |a|, "") == b
  {
  }

  lemma {:induction false} KeyAtFront(s: Style, fields: seq<(string, Layout)>, more: seq<(string, Layout)>, indent: string, k: nat)
    requires k < |fields|
    ensures KeyAt(s, fields + more, indent, k) == KeyAt(s, fields, indent, k)
    decreases k
  {
    hide PrettyMember;
    if k > 0 {
      assert (fields + more)[1..] == fields[1..] + more;
      KeyAtFront(s, fields[1..], more, indent, k - 1);
    }
  }

  lemma LastCut(s: Style, fields: seq<(string, Layout)>, indent: string)
    requires |fields| > 1
    ensures var k := |fields| - 1;
      var a := KeyAt(s, fields, indent, k - 1) + |PrettyMember(s, fields[k - 1], indent)|;
      && a <= |PrettyLines(s, fields, indent)|
      && PrettyLines(s, fields[..k], indent) == Splice(PrettyLines(s, fields, indent), a, |PrettyLines(s, fields, indent)|, "")
  {
    hide PrettyMember, PrettyLines, KeyAt;
    var k := |fields| - 1;
    var front := fields[..k];
    assert fields == front + [fields[k]];
    LinesAppended(s, front, indent, fields[k]);
    LastEnds(s, front, indent);
    KeyAtFront(s, front, [fields[k]], indent, k - 1);
    CutBack(PrettyLines(s, front, indent), "," + (s.newline + (indent + PrettyMember(s, fields[k], indent))));
  }

  lemma CutBack(a: string, b: string)
    ensures Splice(a + b, |a|, |a + b|, "") == a
  {
  }

  /** A cut in the lines, carried to the object around them. */
  lemma ObjectCut(t: string, i: nat, s: Style, fields: seq<(string, Layout)>, indent: string, a: nat, b: nat, lines: string)
    requires fields != [] && ProperStyle(s) && Stands(t, i, Pretty(s, Obj(fields), indent))
    requires a <= b <= |PrettyLines(s, fields, indent + s.unit)|
    requires lines == Splice(PrettyLines(s, fields, indent + s.unit), a, b, "")
    ensures var (p, end) := (i + 1 + |s.newline|, i + |Pretty(s, Obj(fields), indent)|);
      && p + b <= |t| && end <= |t|
      && Splice(t, p + a, p + b, "") == Splice(t, i, end, ("{" + s.newline) + (lines + (s.newline + (indent + "}"))))
  {
    hide Stands, PrettyLines, Splice, Pretty;
    var (head, whole, tail) := ("{" + s.newline, PrettyLines(s, fields, indent + s.unit), s.newline + (indent + "}"));
    ObjParts(s, fields, indent);
    SpliceBefore(whole, tail, a, b, "");
    SpliceBehind(head, whole + tail, a, b, "");
    SpliceInside(t, i, Pretty(s, Obj(fields), indent), |head| + a, |head| + b, "");
  }

  // ---- around a member --------------------------------------------------------------------------------

  /** The line a member starts. */
  lemma MemberLine(t: string, i: nat, s: Style, fields: seq<(string, Layout)>, indent: string, k: nat)
    requires ProperStyle(s) && BlankText(indent) && k < |fields| && Stands(t, i, Pretty(s, Obj(fields), indent))
    ensures var q := i + 1 + |s.newline| + KeyAt(s, fields, indent + s.unit, k);
      && q < |t| && i < q - |indent + s.unit| && LineStart(t, q) == q - |indent + s.unit|
      && AllWhitespace(t[q - |indent + s.unit|..q])
  {
    hide Stands, Pretty, PrettyLines, PrettyMember, KeyAt, LineStart;
    var deeper, p := indent + s.unit, i + 1 + |s.newline|;
    var q := p + KeyAt(s, fields, deeper, k);
    DeeperIsBlank(s, indent);
    LinesStand(t, i, s, fields, indent);
    MemberStands(t, p, s, fields, deeper, k);
    MemberStarts(s, fields[k], deeper);
    StandsAt(t, q, PrettyMember(s, fields[k], deeper), 0);
    StandsSlice(t, q - |deeper|, deeper);
    assert forall j | q - |deeper| <= j < q :: t[j] == deeper[j - (q - |deeper|)];
    LineStartIs(t, q, q - |deeper|);
  }

  lemma {:induction false} BreakBehind(t: string, p: nat, s: Style, fields: seq<(string, Layout)>, indent: string, k: nat)
    requires k + 1 < |fields| && Stands(t, p, PrettyLines(s, fields, indent))
    ensures var e := p + KeyAt(s, fields, indent, k) + |PrettyMember(s, fields[k], indent)|;
      Stands(t, e, ",") && Stands(t, e + 1, s.newline)
    decreases k
  {
    hide Stands, PrettyMember, PrettyLines;
    assert PrettyLines(s, fields, indent) + "" == PrettyLines(s, fields, indent);
    RestStands(t, p, s, fields, indent, "");
    if k > 0 {
      var e := p + |indent| + |PrettyMember(s, fields[0], indent)|;
      assert PrettyLines(s, fields[1..], indent) + "" == PrettyLines(s, fields[1..], indent);
      BreakBehind(t, e + 1 + |s.newline|, s, fields[1..], indent, k - 1);
    }
  }

  /** With a line ending behind it, or a comma and a line ending, a member's tail is that comma. */
  lemma TailEnds(t: string, e: nat, s: Style, comma: string)
    requires ProperStyle(s) && comma in ["", ","] && Stands(t, e, comma) && Stands(t, e + |comma|, s.newline)
    ensures e + |comma| + |s.newline| <= |t|
    ensures MemberTailEnd(t, e) == e + |comma| && ExtendLineEnd(t, e + |comma|) == e + |comma| + |s.newline|
  {
    StandsSlice(t, e, comma);
    StandsSlice(t, e + |comma|, s.newline);
    StandsAt(t, e + |comma|, s.newline, 0);
    StandsAt(t, e + |comma|, s.newline, |s.newline| - 1);
    if comma == "," {
      StandsAt(t, e, comma, 0);
    }
  }

  // ---- one member goes -----------------------------------------------------------------------------------

  lemma RemovedFromMany(t: string, i: nat, s: Style, fields: seq<(string, Layout)>, indent: string, k: nat)
    requires PrettyAt(t, i, s, Obj(fields), indent) && k + 1 < |fields|
    ensures Value(t, i).Some? && WellFormed(t, Value(t, i).value) && Value(t, i).value.kind.Object?
    ensures k < |Value(t, i).value.kind.members| && i + |Pretty(s, Obj(fields), indent)| <= |t|
    ensures RemoveMember(t, Value(t, i).value, k)
         == Splice(t, i, i + |Pretty(s, Obj(fields), indent)|, Pretty(s, Obj(fields[..k] + fields[k + 1..]), indent))
  {
    hide Value, WellFormed, Stands, Pretty, PrettyLines, PrettyMember, KeyAt, Splice, LineStart, MemberTailEnd, ExtendLineEnd,
      RemoveMember, AllWhitespace, InLine, Delimited, ProperLayout, LineIndent, Quote;
    var deeper, p := indent + s.unit, i + 1 + |s.newline|;
    PrettyStands(t, i, s, Obj(fields), indent);
    LineOf(t, i, indent);
    ChildIsPretty(t, i, s, fields, indent, k);
    MemberIsPretty(t, i, s, fields, indent, k);
    var node := Value(t, i).value;
    RemoveShape(t, node, k);
    MemberLine(t, i, s, fields, indent, k);
    LinesStand(t, i, s, fields, indent);
    BreakBehind(t, p, s, fields, deeper, k);
    var e := node.kind.members[k].value.end;
    TailEnds(t, e, s, ",");
    LinesCut(s, fields, deeper, k);
    var a, b := KeyAt(s, fields, deeper, k) - |deeper|, e + 1 + |s.newline| - p;
    var less := fields[..k] + fields[k + 1..];
    ObjectCut(t, i, s, fields, indent, a, b, PrettyLines(s, less, deeper));
    ObjParts(s, less, indent);
    assert OnOwnLine(t, node, node.kind.members[k]);
  }

  lemma RemovedLast(t: string, i: nat, s: Style, fields: seq<(string, Layout)>, indent: string)
    requires PrettyAt(t, i, s, Obj(fields), indent) && |fields| > 1
    ensures var k := |fields| - 1;
      && Value(t, i).Some? && WellFormed(t, Value(t, i).value) && Value(t, i).value.kind.Object?
      && k < |Value(t, i).value.kind.members| && i + |Pretty(s, Obj(fields), indent)| <= |t|
      && RemoveMember(t, Value(t, i).value, k)
         == Splice(t, i, i + |Pretty(s, Obj(fields), indent)|, Pretty(s, Obj(fields[..k]), indent))
  {
    hide Value, WellFormed, Stands, Pretty, PrettyLines, PrettyMember, KeyAt, Splice, LineStart, MemberTailEnd, ExtendLineEnd,
      RemoveMember, AllWhitespace, InLine, Delimited, ProperLayout, LineIndent, Quote, NextSignificant, OnOwnLine;
    var deeper, p, k := indent + s.unit, i + 1 + |s.newline|, |fields| - 1;
    PrettyStands(t, i, s, Obj(fields), indent);
    LineOf(t, i, indent);
    ChildIsPretty(t, i, s, fields, indent, k);
    MemberIsPretty(t, i, s, fields, indent, k);
    MemberIsPretty(t, i, s, fields, indent, k - 1);
    var node := Value(t, i).value;
    RemoveShape(t, node, k);
    LinesStand(t, i, s, fields, indent);
    LastEnds(s, fields, deeper);
    var e := node.kind.members[k].value.end;
    NothingHere(t, e);
    TailEnds(t, e, s, "");
    CloseLine(t, e, s, indent);
    LastCut(s, fields, deeper);
    ObjectCut(t, i, s, fields, indent, node.kind.members[k - 1].value.end - p, e - p, PrettyLines(s, fields[..k], deeper));
    ObjParts(s, fields[..k], indent);
  }

  lemma NothingHere(t: string, e: nat)
    requires e <= |t|
    ensures Stands(t, e, "")
  {
  }

  lemma RemovedOnly(t: string, i: nat, s: Style, fields: seq<(string, Layout)>, indent: string)
    requires PrettyAt(t, i, s, Obj(fields), indent) && |fields| == 1
    ensures Value(t, i).Some? && WellFormed(t, Value(t, i).value) && Value(t, i).value.kind.Object?
    ensures |Value(t, i).value.kind.members| == 1 && i + |Pretty(s, Obj(fields), indent)| <= |t|
    ensures RemoveMember(t, Value(t, i).value, 0)
         == Splice(t, i, i + |Pretty(s, Obj(fields), indent)|, Pretty(s, Less(s, fields, indent, 0), indent))
  {
    hide Value, WellFormed, Stands, Pretty, PrettyLines, PrettyAt, Splice, LineStart, MemberTailEnd, ExtendLineEnd,
      RemoveMember, RemoveOnly, OnOwnLine, HasComment;
    OnlyMember(t, i, s, fields, indent);
    PrettyStands(t, i, s, Obj(fields), indent);
    var node := Value(t, i).value;
    RemoveShape(t, node, 0);
    RemoveOnlyShape(t, node);
    ObjEnds(s, fields, indent);
    Bare(t, i, Pretty(s, Obj(fields), indent));
    BracesText(s, indent, Less(s, fields, indent, 0));
    OnlyCut(t, i, s, fields, indent);
  }

  lemma ObjEnds(s: Style, fields: seq<(string, Layout)>, indent: string)
    ensures var x := Pretty(s, Obj(fields), indent); |x| >= 2 && x[0] == '{' && x[|x| - 1] == '}'
  {
    hide PrettyLines;
  }

  /** The only member, its line and the end of its tail. */
  lemma OnlyMember(t: string, i: nat, s: Style, fields: seq<(string, Layout)>, indent: string)
    requires PrettyAt(t, i, s, Obj(fields), indent) && |fields| == 1
    ensures Value(t, i).Some? && WellFormed(t, Value(t, i).value) && Value(t, i).value.kind.Object?
    ensures Value(t, i).value.start == i && Value(t, i).value.end == i + |Pretty(s, Obj(fields), indent)|
    ensures |Value(t, i).value.kind.members| == 1
    ensures var (p, m) := (i + 1 + |s.newline|, Value(t, i).value.kind.members[0]);
      var e := p + |PrettyLines(s, fields, indent + s.unit)|;
      && m.keyStart <= |t| && m.value.end == e <= |t| && OnOwnLine(t, Value(t, i).value, m) && LineStart(t, m.keyStart) == p
      && MemberTailEnd(t, e) == e && ExtendLineEnd(t, e) == e + |s.newline| <= |t|
  {
    hide Value, WellFormed, Stands, Pretty, PrettyLines, PrettyMember, LineStart, MemberTailEnd, ExtendLineEnd,
      AllWhitespace, InLine, Delimited, ProperLayout, LineIndent, Quote;
    PrettyStands(t, i, s, Obj(fields), indent);
    LineOf(t, i, indent);
    ChildIsPretty(t, i, s, fields, indent, 0);
    MemberIsPretty(t, i, s, fields, indent, 0);
    PrettyValue(t, i, s, Obj(fields), indent);
    MemberLine(t, i, s, fields, indent, 0);
    LinesStand(t, i, s, fields, indent);
    LastEnds(s, fields, indent + s.unit);
    NothingHere(t, Value(t, i).value.kind.members[0].value.end);
    TailEnds(t, Value(t, i).value.kind.members[0].value.end, s, "");
  }

  /** What stands between the braces holds a comment if and only if the whole does. */
  lemma Bare(t: string, i: nat, x: string)
    requires Stands(t, i, x) && |x| >= 2 && x[0] == '{' && x[|x| - 1] == '}'
    ensures i + |x| <= |t| && (HasComment(t[i + 1..i + |x| - 1]) <==> HasComment(x))
  {
    StandsSlice(t, i, x);
    var inner := t[i + 1..i + |x| - 1];
    assert inner == x[1..|x| - 1];
    forall k | 0 <= k < |inner| ensures OpensComment(inner, k) <==> OpensComment(x, k + 1) {
    }
    if HasComment(x) {
      var k :| 0 <= k < |x| && OpensComment(x, k);
      assert OpensComment(inner, k - 1);
    }
  }

  lemma BracesText(s: Style, indent: string, l: Layout)
    ensures l == Obj([]) ==> Pretty(s, l, indent) == "{}"
    ensures l.Atom? ==> Pretty(s, l, indent) == l.v
  {
  }

  /** The only line cut out, with its line ending. */
  lemma OnlyCut(t: string, i: nat, s: Style, fields: seq<(string, Layout)>, indent: string)
    requires |fields| == 1 && ProperStyle(s) && Stands(t, i, Pretty(s, Obj(fields), indent))
    ensures var (p, end) := (i + 1 + |s.newline|, i + |Pretty(s, Obj(fields), indent)|);
      var b := p + |PrettyLines(s, fields, indent + s.unit)| + |s.newline|;
      b <= |t| && end <= |t| && Splice(t, p, b, "") == Splice(t, i, end, "{" + (s.newline + (indent + "}")))
  {
    hide Stands, PrettyLines, Splice, Pretty;
    var head, whole, tail := "{" + s.newline, PrettyLines(s, fields, indent + s.unit), indent + "}";
    ObjParts(s, fields, indent);
    assert head + (whole + (s.newline + tail)) == head + ((whole + s.newline) + tail) by {
      JoinThree(whole, s.newline, tail);
    }
    SpliceParts(head, whole + s.newline, tail, "");
    SpliceInside(t, i, Pretty(s, Obj(fields), indent), |head|, |head| + |whole + s.newline|, "");
    assert head + ("" + tail) == "{" + (s.newline + tail);
  }

  // ---- along a path -------------------------------------------------------------------------------------------

  /** `del` in the object `c`, laid out as `l`, gives the text with the layout without the member in its place. */
  ghost predicate DelDone(t: string, c: Node, s: Style, l: Layout, indent: string, path: seq<string>) {
    && path != [] && WellFormed(t, c) && c.start + |Pretty(s, l, indent)| <= |t|
    && DelPath(t, c, path)
       == Splice(t, c.start, c.start + |Pretty(s, l, indent)|, Pretty(s, Taken(s, l, indent, path), indent))
  }

  lemma {:induction false} DelIsPretty(t: string, i: nat, s: Style, l: Layout, indent: string, path: seq<string>)
    requires PrettyAt(t, i, s, l, indent) && path != [] && (CanPlace(l, path) || Barred(l, path))
    ensures Value(t, i).Some? && DelDone(t, Value(t, i).value, s, l, indent, path)
    decreases |path|
  {
    hide Value, WellFormed, Pretty, PrettyAt, FindMember, FirstOf, LaidOut, CanPlace, Barred, DelDone;
    PrettyValue(t, i, s, l, indent);
    WayOf(l, path);
    if l.Atom? {
      AtomIsNoObject(t, i, s, l.v, indent);
      NothingTaken(t, i, s, l, indent, path);
    } else {
      KeysAlike(t, i, s, l.fields, indent, path[0]);
      match FirstOf(l.fields, path[0])
      case None => NothingTaken(t, i, s, l, indent, path);
      case Some(k) =>
        if |path| > 1 {
          MemberIsPretty(t, i, s, l.fields, indent, k);
          DelIsPretty(t, Value(t, i).value.kind.members[k].value.start, s, l.fields[k].1, indent + s.unit, path[1..]);
        }
        MemberTaken(t, i, s, l.fields, indent, path, k);
    }
  }

  lemma NothingTaken(t: string, i: nat, s: Style, l: Layout, indent: string, path: seq<string>)
    requires PrettyAt(t, i, s, l, indent) && path != [] && Value(t, i).Some?
    requires l.Obj? ==> FirstOf(l.fields, path[0]) == None
    requires var n := Value(t, i).value; !n.kind.Object? || FindMember(n.kind.members, path[0]) == None
    ensures DelDone(t, Value(t, i).value, s, l, indent, path)
  {
    hide Value, WellFormed, Pretty, PrettyAt, FindMember, FirstOf, Splice, LaidOut, DelPath, Taken;
    PrettyValue(t, i, s, l, indent);
    PrettyStands(t, i, s, l, indent);
    StandsSlice(t, i, Pretty(s, l, indent));
    SpliceSame(t, i, i + |Pretty(s, l, indent)|);
    StartsThere(t, i);
    DelNothing(t, Value(t, i).value, path);
    TakenIs(s, l, indent, path);
  }

  lemma StartsThere(t: string, i: nat)
    requires Value(t, i).Some?
    ensures Value(t, i).value.start == i
  {
  }

  lemma MemberTaken(t: string, i: nat, s: Style, fields: seq<(string, Layout)>, indent: string, path: seq<string>, k: nat)
    requires PrettyAt(t, i, s, Obj(fields), indent) && path != [] && FirstOf(fields, path[0]) == Some(k)
    requires Value(t, i).Some? && Value(t, i).value.kind.Object? && k < |Value(t, i).value.kind.members|
    requires FindMember(Value(t, i).value.kind.members, path[0]) == Some(k)
    requires |path| > 1 ==> DelDone(t, Value(t, i).value.kind.members[k].value, s, fields[k].1, indent + s.unit, path[1..])
    ensures DelDone(t, Value(t, i).value, s, Obj(fields), indent, path)
  {
    hide Value, WellFormed, Pretty, PrettyAt, RemoveMember, FindMember, FirstOf, Splice, LaidOut, DelPath, Taken, Less;
    var node := Value(t, i).value;
    ChildIsPretty(t, i, s, fields, indent, k);
    TakenIs(s, Obj(fields), indent, path);
    DelStep(t, node, path, k);
    if |path| == 1 {
      RemovedIsPretty(t, i, s, fields, indent, k);
    } else {
      ValueExchanged(t, i, s, fields, indent, k, Taken(s, fields[k].1, indent + s.unit, path[1..]));
    }
  }

  lemma RemovedIsPretty(t: string, i: nat, s: Style, fields: seq<(string, Layout)>, indent: string, k: nat)
    requires PrettyAt(t, i, s, Obj(fields), indent) && k < |fields|
    ensures Value(t, i).Some? && WellFormed(t, Value(t, i).value) && Value(t, i).value.kind.Object?
    ensures k < |Value(t, i).value.kind.members| && i + |Pretty(s, Obj(fields), indent)| <= |t|
    ensures RemoveMember(t, Value(t, i).value, k)
         == Splice(t, i, i + |Pretty(s, Obj(fields), indent)|, Pretty(s, Less(s, fields, indent, k), indent))
  {
    hide Value, WellFormed, Pretty, PrettyAt, RemoveMember, Splice, HasComment;
    if |fields| == 1 {
      RemovedOnly(t, i, s, fields, indent);
    } else if k + 1 < |fields| {
      RemovedFromMany(t, i, s, fields, indent, k);
    } else {
      RemovedLast(t, i, s, fields, indent);
      assert fields[..k] + fields[k + 1..] == fields[..k];
    }
  }

  lemma TakenIs(s: Style, l: Layout, indent: string, path: seq<string>)
    requires path != []
    ensures var r := Taken(s, l, indent, path);
      if l.Atom? then r == l
      else
        match FirstOf(l.fields, path[0])
        case None => r == l
        case Some(k) =>
          if |path| == 1 then r == Less(s, l.fields, indent, k)
          else r == Obj(l.fields[k := (l.fields[k].0, Taken(s, l.fields[k].1, indent + s.unit, path[1..]))])
  {
    hide Less;
  }

  lemma WayOf(l: Layout, path: seq<string>)
    requires path != [] && (CanPlace(l, path) || Barred(l, path))
    ensures l.Atom? ==> l.v == "" || l.v[0] != '{'
    ensures l.Obj? && |path| > 1 && FirstOf(l.fields, path[0]).Some? ==>
              var c := l.fields[FirstOf(l.fields, path[0]).value].1; CanPlace(c, path[1..]) || Barred(c, path[1..])
  {
  }

  lemma DelNothing(t: string, node: Node, path: seq<string>)
    requires WellFormed(t, node) && path != []
    requires !node.kind.Object? || FindMember(node.kind.members, path[0]) == None
    ensures DelPath(t, node, path) == t
  {
    hide WellFormed;
  }

  lemma DelStep(t: string, node: Node, path: seq<string>, k: nat)
    requires WellFormed(t, node) && node.kind.Object? && path != [] && FindMember(node.kind.members, path[0]) == Some(k)
    requires WellFormed(t, node.kind.members[k].value)
    ensures DelPath(t, node, path)
         == if |path| == 1 then RemoveMember(t, node, k) else DelPath(t, node.kind.members[k].value, path[1..])
  {
    hide WellFormed, RemoveMember;
  }

  /**
   * `del` on a text laid out by the rule is the same rule applied to the layout without the member; a path that
   * leads nowhere, or into a value that is no object, changes nothing.
   */
  lemma DelStaysPretty(s: Style, l: Layout, ended: bool, ks: seq<string>)
    requires ProperStyle(s) && ProperLayout(l) && l.Obj? && ks != [] && forall k | k in ks :: Plain(k)
    requires CanPlace(l, ks) || Barred(l, ks)
    ensures DelOne(File(s, l, ended), Dotted(ks)) == Ok(File(s, Taken(s, l, "", ks), ended))
  {
    hide Value, WellFormed, ParseDocument, Accepts, Segments, Pretty, PrettyAt, DelPath, CanPlace, Barred, Taken;
    var t := File(s, l, ended);
    FileStands(s, l, ended);
    FileParses(s, l, ended);
    PrettyValue(t, 0, s, l, "");
    SegmentsOfDotted(ks);
    DelIsPretty(t, 0, s, l, "", ks);
    StartsThere(t, 0);
    WholeSpliced(Pretty(s, l, ""), if ended then s.newline else "", Pretty(s, Taken(s, l, "", ks), ""));
  }
}
