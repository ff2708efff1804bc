/** Texts laid out by one rule, a member a line: `set` keeps to the rule, its indentation and its line endings. */
module JsonPretty {
  import opened Text
  import opened JsonLexer
  import opened JsonStrict
  import opened JsonParser
  import opened JsonLocality
  import opened JsonReader
  import opened JsonCompose
  import opened JsonEdit
  import opened JsonMember
  import opened JsonAgreement
  import opened JsonDocument
  import opened JsonPaths

  // ---- the layout -----------------------------------------------------------------------------

  /** An object of members, or any other value by its text. */
  datatype Layout = Atom(v: string) | Obj(fields: seq<(string, Layout)>)

  /** How lines are ended and how much deeper each level stands. */
  datatype Style = Style(newline: string, unit: string)

  predicate ProperStyle(s: Style) {
    s.newline in ["\n", "\r\n"] && s.unit != "" && forall k | 0 <= k < |s.unit| :: s.unit[k] in " \t"
  }

  predicate ProperLayout(l: Layout)
    decreases l, 0
  {
    match l
    case Atom(v) => IsValueText(v)
    case Obj(fields) => forall k | 0 <= k < |fields| :: assert fields[k] in fields; ProperField(fields[k])
  }

  predicate ProperField(f: (string, Layout))
    decreases f
  {
    ProperLayout(f.1)
  }

  function Pretty(s: Style, l: Layout, indent: string): string
    decreases l, 1
  {
    match l
    case Atom(v) => v
    case Obj(fields) =>
      if fields == [] then "{}"
      else "{" + (s.newline + (PrettyLines(s, fields, indent + s.unit) + (s.newline + (indent + "}"))))
  }

  function PrettyMember(s: Style, f: (string, Layout), indent: string): string
    decreases f, 2
  {
    Quote(f.0) + ": " + Pretty(s, f.1, indent)
  }

  /** One line, or more, for each member, with a comma between two. */
  function PrettyLines(s: Style, fields: seq<(string, Layout)>, indent: string): string
    requires fields != []
    decreases fields, 3
  {
    indent + (PrettyMember(s, fields[0], indent)
              + if |fields| == 1 then "" else "," + (s.newline + PrettyLines(s, fields[1..], indent)))
  }

  /** Where member `k` starts behind the beginning of the lines. */
  function KeyAt(s: Style, fields: seq<(string, Layout)>, indent: string, k: nat): (at: nat)
    requires k < |fields|
    ensures at >= |indent|
    decreases k
  {
    if k == 0 then |indent|
    else |indent| + |PrettyMember(s, fields[0], indent)| + 1 + |s.newline| + KeyAt(s, fields[1..], indent, k - 1)
  }

  function FirstOf(fields: seq<(string, Layout)>, key: string): (r: Option<nat>)
    ensures match r
      case Some(k) => k < |fields| && fields[k].0 == key && forall j | 0 <= j < k :: fields[j].0 != key
      case None => forall j | 0 <= j < |fields| :: fields[j].0 != key
  {
    if fields == [] then None
    else if fields[0].0 == key then Some(0)
    else
      match FirstOf(fields[1..], key)
      case Some(k) =>
        assert forall j | 0 < j < |fields| :: fields[j] == fields[1..][j - 1];
        Some(k + 1)
      case None =>
        assert forall j | 0 < j < |fields| :: fields[j] == fields[1..][j - 1];
        None
  }

  function Nested(tail: seq<string>, v: string): Layout {
    if tail == [] then Atom(v) else Obj([(tail[0], Nested(tail[1..], v))])
  }

  predicate CanPlace(l: Layout, path: seq<string>)
    requires path != []
    decreases |path|
  {
    && l.Obj?
    && match FirstOf(l.fields, path[0])
       case Some(k) => |path| == 1 || CanPlace(l.fields[k].1, path[1..])
       case None => true
  }

  /** The way leads to a value that is no object. */
  predicate Barred(l: Layout, path: seq<string>)
    decreases |path|
  {
    match l
    case Atom(v) => v == "" || v[0] != '{'
    case Obj(fields) =>
      && |path| > 1
      && match FirstOf(fields, path[0])
         case Some(k) => Barred(fields[k].1, path[1..])
         case None => false
  }

  function Placed(l: Layout, path: seq<string>, v: string): Layout
    requires path != [] && CanPlace(l, path)
    decreases |path|
  {
    match FirstOf(l.fields, path[0])
    case Some(k) =>
      Obj(l.fields[k := (path[0], if |path| == 1 then Atom(v) else Placed(l.fields[k].1, path[1..], v))])
    case None => Obj(l.fields + [(path[0], Nested(path[1..], v))])
  }

  // ---- reading it ---------------------------------------------------------------------------------

  lemma BlankIsJson(s: string)
    requires forall k | 0 <= k < |s| :: s[k] in " \t\r\n"
    ensures JsonBlank(s)
  {
  }

  lemma LayoutFields(l: Layout, k: nat)
    requires ProperLayout(l) && l.Obj? && k < |l.fields|
    ensures ProperLayout(l.fields[k].1)
  {
    assert l.fields[k] in l.fields;
    assert ProperField(l.fields[k]);
  }

  predicate AllProper(fields: seq<(string, Layout)>) {
    forall k | 0 <= k < |fields| :: ProperLayout(fields[k].1)
  }

  predicate BlankText(s: string) {
    forall k | 0 <= k < |s| :: s[k] in " \t"
  }

  /** Member `k` of the list stands where the layout has put it. */
  ghost predicate LaidOut(u: string, p: nat, s: Style, fields: seq<(string, Layout)>, indent: string, ms: seq<Member>) {
    && |ms| == |fields|
    && forall k | 0 <= k < |fields| ::
         && ms[k].key == fields[k].0
         && ms[k].keyStart == p + KeyAt(s, fields, indent, k)
         && ms[k].value.start == ms[k].keyStart + |Quote(fields[k].0)| + 2
         && ms[k].value.end == ms[k].keyStart + |PrettyMember(s, fields[k], indent)|
         && Value(u, ms[k].value.start) == Some(ms[k].value)
  }

  lemma {:induction false} PrettyReads(u: string, i: nat, s: Style, l: Layout, indent: string)
    requires ProperStyle(s) && ProperLayout(l) && BlankText(indent)
    requires Stands(u, i, Pretty(s, l, indent)) && Delimited(u, i + |Pretty(s, l, indent)|)
    ensures Value(u, i).Some? && Value(u, i).value.end == i + |Pretty(s, l, indent)|
    ensures l.Obj? ==>
      && Value(u, i).value.kind.Object?
      && LaidOut(u, i + 1 + |s.newline|, s, l.fields, indent + s.unit, Value(u, i).value.kind.members)
    decreases l, 1
  {
    hide Stands, Value, Quote, IsValueText;
    match l
    case Atom(v) => PlacedValue(v, u, i);
    case Obj(fields) =>
      if fields == [] {
        BracesRead(u, i);
      } else {
        var lines, end := PrettyLines(s, fields, indent + s.unit), s.newline + (indent + "}");
        forall k | 0 <= k < |fields| ensures ProperLayout(fields[k].1) {
          LayoutFields(l, k);
        }
        StandsPart(u, i, "{", s.newline + (lines + end));
        StandsPart(u, i + 1, s.newline, lines + end);
        StandsAt(u, i, "{", 0);
        var p := i + 1 + |s.newline|;
        LinesRead(u, i + 1, p, s, fields, indent + s.unit, indent, true);
        ObjectValue(u, i);
      }
  }

  lemma BracesRead(u: string, i: nat)
    requires Stands(u, i, "{}")
    ensures Value(u, i) == Some(Node(Object([]), i, i + 2))
  {
    hide Value;
    StandsAt(u, i, "{}", 0);
    StandsAt(u, i, "{}", 1);
    SkipRun(u, i + 1, i + 1);
    assert Members(u, i + 1, true) == Some(([], i + 2));
    ObjectValue(u, i);
  }

  /** The place behind the brace or the comma, and white space up to the first key. */
  ghost predicate Reaches(u: string, before: nat, p: nat, indent: string, first: bool) {
    && before <= p <= |u|
    && (if first then Skip(u, before) == p + |indent| else before < |u| && u[before] == ',' && Skip(u, before + 1) == p + |indent|)
  }

  lemma {:induction false} LinesRead(u: string, before: nat, p: nat, s: Style, fields: seq<(string, Layout)>, indent: string,
                                     outer: string, first: bool)
    requires ProperStyle(s) && fields != [] && AllProper(fields) && BlankText(indent) && BlankText(outer)
    requires Stands(u, p, PrettyLines(s, fields, indent) + (s.newline + (outer + "}")))
    requires if first then before + |s.newline| == p && Stands(u, before, s.newline)
             else before + 1 + |s.newline| == p && Stands(u, before, ",") && Stands(u, before + 1, s.newline)
    ensures before <= |u| && Members(u, before, first).Some?
    ensures LaidOut(u, p, s, fields, indent, Members(u, before, first).value.0)
    ensures Members(u, before, first).value.1 == p + |PrettyLines(s, fields, indent)| + |s.newline| + |outer| + 1
    decreases fields
  {
    hide Stands, Value, Quote, Members, Skip, Pretty, ProperLayout, LaidOut, MemberAt;
    var member := PrettyMember(s, fields[0], indent);
    var end := s.newline + (outer + "}");
    var q := p + |indent|;
    var e := q + |member|;
    LinesStep(s, fields, indent);
    FirstStands(u, before, p, s, fields, indent, end, first);
    if |fields| == 1 {
      EndReads(u, e, s, outer);
    } else {
      RestStands(u, p, s, fields, indent, end);
      StandsAt(u, e, ",", 0);
      LinesRead(u, e, e + 1 + |s.newline|, s, fields[1..], indent, outer, false);
    }
    assert Delimited(u, e) by {
      EndsHere(u, e, s, fields, outer);
    }
    KeyReads(u, q, s, fields[0], indent);
    StandsStart(u, q, fields[0].0, member);
    SeparatorHere(u, before, p, s, indent, first);
    MembersCons(u, before, first, MemberAt(u, q).value);
    LaidCons(u, p, s, fields, indent, MemberAt(u, q).value, Members(u, e, false).value.0);
  }

  lemma LinesStep(s: Style, fields: seq<(string, Layout)>, indent: string)
    requires fields != []
    ensures PrettyLines(s, fields, indent)
         == indent + (PrettyMember(s, fields[0], indent)
                      + if |fields| == 1 then "" else "," + (s.newline + PrettyLines(s, fields[1..], indent)))
  {
    hide PrettyMember;
  }

  lemma FirstStands(u: string, before: nat, p: nat, s: Style, fields: seq<(string, Layout)>, indent: string, end: string, first: bool)
    requires fields != [] && Stands(u, p, PrettyLines(s, fields, indent) + end)
    ensures Stands(u, p, indent) && Stands(u, p + |indent|, PrettyMember(s, fields[0], indent))
    ensures |fields| == 1 ==> Stands(u, p + |indent| + |PrettyMember(s, fields[0], indent)|, end)
  {
    hide Stands, PrettyMember;
    LinesStep(s, fields, indent);
    var member := PrettyMember(s, fields[0], indent);
    var more := if |fields| == 1 then "" else "," + (s.newline + PrettyLines(s, fields[1..], indent));
    assert PrettyLines(s, fields, indent) + end == indent + (member + (more + end));
    StandsPart(u, p, indent, member + (more + end));
    StandsPart(u, p + |indent|, member, more + end);
    assert |fields| == 1 ==> more + end == end;
  }

  lemma RestStands(u: string, p: nat, s: Style, fields: seq<(string, Layout)>, indent: string, end: string)
    requires |fields| > 1 && Stands(u, p, PrettyLines(s, fields, indent) + end)
    ensures var e := p + |indent| + |PrettyMember(s, fields[0], indent)|;
      Stands(u, e, ",") && Stands(u, e + 1, s.newline) && Stands(u, e + 1 + |s.newline|, PrettyLines(s, fields[1..], indent) + end)
  {
    hide Stands, PrettyMember;
    LinesStep(s, fields, indent);
    var member, rest := PrettyMember(s, fields[0], indent), PrettyLines(s, fields[1..], indent);
    var e := p + |indent| + |member|;
    assert PrettyLines(s, fields, indent) + end == indent + (member + ("," + (s.newline + (rest + end))));
    StandsPart(u, p, indent, member + ("," + (s.newline + (rest + end))));
    StandsPart(u, p + |indent|, member, "," + (s.newline + (rest + end)));
    StandsPart(u, e, ",", s.newline + (rest + end));
    StandsPart(u, e + 1, s.newline, rest + end);
  }

  lemma EndReads(u: string, e: nat, s: Style, outer: string)
    requires ProperStyle(s) && BlankText(outer) && Stands(u, e, s.newline + (outer + "}"))
    ensures e < |u| && Members(u, e, false) == Some(([], e + |s.newline| + |outer| + 1))
  {
    hide Stands, Skip, Members;
    var close := e + |s.newline| + |outer|;
    StandsAt(u, e, s.newline + (outer + "}"), 0);
    StandsAt(u, e, s.newline + (outer + "}"), |s.newline| + |outer|);
    forall k | e <= k < close ensures JsonWs(u[k]) {
      StandsAt(u, e, s.newline + (outer + "}"), k - e);
    }
    SkipRun(u, e, close);
    MembersStepwise(u, e, false);
  }

  lemma EndsHere(u: string, e: nat, s: Style, fields: seq<(string, Layout)>, outer: string)
    requires ProperStyle(s)
    requires Stands(u, e, s.newline + (outer + "}")) || Stands(u, e, ",")
    ensures Delimited(u, e)
  {
    if Stands(u, e, ",") {
      StandsAt(u, e, ",", 0);
    } else {
      StandsAt(u, e, s.newline + (outer + "}"), 0);
    }
  }

  lemma StandsStart(u: string, q: nat, key: string, member: string)
    requires Stands(u, q, member) && member != "" && member[0] == '"'
    ensures q < |u| && u[q] == '"'
  {
    StandsAt(u, q, member, 0);
  }

  lemma SeparatorHere(u: string, before: nat, p: nat, s: Style, indent: string, first: bool)
    requires ProperStyle(s) && BlankText(indent) && p + |indent| < |u| && u[p + |indent|] == '"' && Stands(u, p, indent)
    requires if first then before + |s.newline| == p && Stands(u, before, s.newline)
             else before + 1 + |s.newline| == p && Stands(u, before, ",") && Stands(u, before + 1, s.newline)
    ensures Separator(u, before, first, '}') == Some(p + |indent|)
  {
    hide Skip;
    var from, q := p - |s.newline|, p + |indent|;
    forall k | from <= k < q ensures JsonWs(u[k]) {
      if k < p {
        StandsAt(u, from, s.newline, k - from);
      } else {
        StandsAt(u, p, indent, k - p);
      }
    }
    SkipRun(u, from, q);
    if !first {
      StandsAt(u, before, ",", 0);
      SkipRun(u, before, before);
    }
  }

  /** A member's line is a member. */
  lemma KeyReads(u: string, q: nat, s: Style, f: (string, Layout), indent: string)
    requires ProperStyle(s) && ProperLayout(f.1) && BlankText(indent)
    requires Stands(u, q, PrettyMember(s, f, indent)) && Delimited(u, q + |PrettyMember(s, f, indent)|)
    ensures q < |u| && u[q] == '"' && PrettyMember(s, f, indent)[0] == '"' && MemberAt(u, q).Some?
    ensures var m := MemberAt(u, q).value;
      && m.key == f.0 && m.keyStart == q && m.value.start == q + |Quote(f.0)| + 2
      && m.value.end == q + |PrettyMember(s, f, indent)| && Value(u, m.value.start) == Some(m.value)
    decreases f, 4
  {
    hide Stands, Value, Pretty, MemberAt;
    var head := Quote(f.0) + ": ";
    var start := q + |head|;
    StandsPart(u, q, head, Pretty(s, f.1, indent));
    PrettyReads(u, start, s, f.1, indent);
    ValueStartsSolid(u, start);
    HeadParses(u, q, f.0);
    MemberFromParts(u, q, f.0, start);
  }

  lemma LaidCons(u: string, p: nat, s: Style, fields: seq<(string, Layout)>, indent: string, m: Member, rest: seq<Member>)
    requires fields != []
    requires m.key == fields[0].0 && m.keyStart == p + |indent| && m.value.start == m.keyStart + |Quote(fields[0].0)| + 2
    requires m.value.end == m.keyStart + |PrettyMember(s, fields[0], indent)| && Value(u, m.value.start) == Some(m.value)
    requires if |fields| == 1 then rest == []
             else LaidOut(u, p + |indent| + |PrettyMember(s, fields[0], indent)| + 1 + |s.newline|, s, fields[1..], indent, rest)
    ensures LaidOut(u, p, s, fields, indent, [m] + rest)
  {
    hide Value, Quote, PrettyMember;
    var ms := [m] + rest;
    forall k | 0 < k < |fields| ensures fields[k] == fields[1..][k - 1] && ms[k] == rest[k - 1] {
    }
  }

  // ---- lines ----------------------------------------------------------------------------------------

  /** The line of `i` starts with `indent`, and something visible follows it at or before `i`. */
  ghost predicate InLine(t: string, i: nat, indent: string) {
    && i < |t|
    && var start := LineStart(t, i);
       && BlankText(indent) && start + |indent| <= i && Stands(t, start, indent) && !Blank(t[start + |indent|])
  }

  lemma {:induction false} RunEnds(t: string, i: nat, end: nat, j: nat)
    requires i <= j <= end <= |t| && (forall k | i <= k < j :: Blank(t[k])) && (j < end ==> !Blank(t[j]))
    ensures BlankRun(t, i, end) == j
    decreases j - i
  {
    if i < j {
      RunEnds(t, i + 1, end, j);
    }
  }

  lemma IndentAt(t: string, i: nat, pos: nat, indent: string)
    requires InLine(t, i, indent) && i <= pos <= |t| && forall k | i <= k < pos :: t[k] != '\n'
    ensures LineStart(t, pos) == LineStart(t, i) && LineIndent(t, pos) == indent
  {
    hide LineStart, BlankRun, Stands;
    var start := LineStart(t, i);
    LineStartIs(t, pos, start);
    forall k | start <= k < start + |indent| ensures Blank(t[k]) {
      StandsAt(t, start, indent, k - start);
    }
    RunEnds(t, start, pos, start + |indent|);
    StandsSlice(t, start, indent);
  }

  lemma LineStartIs(t: string, pos: nat, start: nat)
    requires start <= pos <= |t| && (start == 0 || t[start - 1] == '\n') && forall k | start <= k < pos :: t[k] != '\n'
    ensures LineStart(t, pos) == start
  {
    var other := LineStart(t, pos);
  }

  lemma EncodedHasNoBreak(key: string)
    ensures '\n' !in Quote(key)
  {
    NoBreakIn(key);
  }

  lemma {:induction false} NoBreakIn(s: string)
    ensures '\n' !in Encode(s)
  {
    if s != "" {
      NoBreakIn(s[1..]);
      NoBreakInOne(s[0]);
    }
  }

  lemma NoBreakInOne(c: char)
    ensures '\n' !in EncodeChar(c)
  {
  }

  /** Where a member's line starts, and the member on it. */
  lemma {:induction false} MemberStands(u: string, p: nat, s: Style, fields: seq<(string, Layout)>, indent: string, k: nat)
    requires ProperStyle(s) && k < |fields| && Stands(u, p, PrettyLines(s, fields, indent))
    requires 0 < p <= |u| && u[p - 1] == '\n'
    ensures var q := p + KeyAt(s, fields, indent, k);
      && p <= q - |indent| && Stands(u, q - |indent|, indent) && Stands(u, q, PrettyMember(s, fields[k], indent))
      && u[q - |indent| - 1] == '\n'
    decreases k
  {
    hide Stands, PrettyMember;
    assert PrettyLines(s, fields, indent) + "" == PrettyLines(s, fields, indent);
    FirstStands(u, p, p, s, fields, indent, "", true);
    if k > 0 {
      var e := p + |indent| + |PrettyMember(s, fields[0], indent)|;
      RestStands(u, p, s, fields, indent, "");
      assert PrettyLines(s, fields[1..], indent) + "" == PrettyLines(s, fields[1..], indent);
      StandsAt(u, e + 1, s.newline, |s.newline| - 1);
      MemberStands(u, e + 1 + |s.newline|, s, fields[1..], indent, k - 1);
    }
  }

  /** The line a member stands on, seen from its key and from its value. */
  lemma MemberInLine(u: string, q: nat, s: Style, f: (string, Layout), indent: string)
    requires |indent| < q && Stands(u, q - |indent|, indent) && BlankText(indent) && u[q - |indent| - 1] == '\n'
    requires Stands(u, q, PrettyMember(s, f, indent)) && Pretty(s, f.1, indent) != ""
    ensures InLine(u, q, indent) && InLine(u, q + |Quote(f.0)| + 2, indent)
    ensures LineIndent(u, q) == indent
  {
    hide Stands, Pretty, LineStart, Quote;
    var head := Quote(f.0) + ": ";
    var start := q - |indent|;
    EncodedHasNoBreak(f.0);
    StandsPart(u, q, head, Pretty(s, f.1, indent));
    QuoteStarts(f.0);
    StandsAt(u, q, head, 0);
    StandsAt(u, q + |head|, Pretty(s, f.1, indent), 0);
    forall k | start <= k < q + |head| ensures u[k] != '\n' {
      if k < q {
        StandsAt(u, start, indent, k - start);
      } else {
        StandsAt(u, q, head, k - q);
        assert head[k - q] in head;
      }
    }
    LineStartIs(u, q, start);
    LineStartIs(u, q + |head|, start);
    IndentAt(u, q, q, indent);
  }

  lemma QuoteStarts(key: string)
    ensures Quote(key) != "" && Quote(key)[0] == '"'
  {
  }

  lemma PrettyNotEmpty(s: Style, l: Layout, indent: string)
    requires ProperLayout(l)
    ensures Pretty(s, l, indent) != ""
  {
    hide PrettyLines;
    if l.Atom? {
      assert IsValueText(l.v);
    }
  }

  // ---- the layout with a change in it -----------------------------------------------------------------

  lemma SpliceParts(a: string, x: string, b: string, y: string)
    ensures Splice(a + (x + b), |a|, |a| + |x|, y) == a + (y + b)
  {
    var t := a + (x + b);
    assert t[..|a|] == a && t[|a| + |x|..] == b;
  }

  lemma {:induction false} LinesUpdated(s: Style, fields: seq<(string, Layout)>, indent: string, k: nat, l: Layout)
    requires k < |fields|
    ensures var a := KeyAt(s, fields, indent, k) + |Quote(fields[k].0)| + 2;
      var b := KeyAt(s, fields, indent, k) + |PrettyMember(s, fields[k], indent)|;
      && a <= b <= |PrettyLines(s, fields, indent)|
      && PrettyLines(s, fields[k := (fields[k].0, l)], indent)
         == Splice(PrettyLines(s, fields, indent), a, b, Pretty(s, l, indent))
    decreases k
  {
    hide Pretty, PrettyLines, PrettyMember, Quote, Splice;
    if k == 0 {
      FirstUpdated(s, fields, indent, l);
    } else {
      LinesUpdated(s, fields[1..], indent, k - 1, l);
      LaterUpdated(s, fields, indent, k, l);
    }
  }

  lemma FirstUpdated(s: Style, fields: seq<(string, Layout)>, indent: string, l: Layout)
    requires fields != []
    ensures var a := |indent| + |Quote(fields[0].0)| + 2;
      var b := |indent| + |PrettyMember(s, fields[0], indent)|;
      && a <= b <= |PrettyLines(s, fields, indent)|
      && PrettyLines(s, fields[0 := (fields[0].0, l)], indent)
         == Splice(PrettyLines(s, fields, indent), a, b, Pretty(s, l, indent))
  {
    hide Pretty, PrettyLines, Quote, Splice;
    var after := fields[0 := (fields[0].0, l)];
    LinesStep(s, fields, indent);
    LinesStep(s, after, indent);
    assert after[1..] == fields[1..];
    var more := if |fields| == 1 then "" else "," + (s.newline + PrettyLines(s, fields[1..], indent));
    var head := Quote(fields[0].0) + ": ";
    MemberParts(indent, head, Pretty(s, fields[0].1, indent), more);
    MemberParts(indent, head, Pretty(s, l, indent), more);
    SpliceParts(indent + head, Pretty(s, fields[0].1, indent), more, Pretty(s, l, indent));
  }

  lemma LaterUpdated(s: Style, fields: seq<(string, Layout)>, indent: string, k: nat, l: Layout)
    requires 0 < k < |fields|
    requires var a := KeyAt(s, fields[1..], indent, k - 1) + |Quote(fields[k].0)| + 2;
      var b := KeyAt(s, fields[1..], indent, k - 1) + |PrettyMember(s, fields[k], indent)|;
      && a <= b <= |PrettyLines(s, fields[1..], indent)|
      && PrettyLines(s, fields[1..][k - 1 := (fields[k].0, l)], indent)
         == Splice(PrettyLines(s, fields[1..], indent), a, b, Pretty(s, l, indent))
    ensures var a := KeyAt(s, fields, indent, k) + |Quote(fields[k].0)| + 2;
      var b := KeyAt(s, fields, indent, k) + |PrettyMember(s, fields[k], indent)|;
      && a <= b <= |PrettyLines(s, fields, indent)|
      && PrettyLines(s, fields[k := (fields[k].0, l)], indent)
         == Splice(PrettyLines(s, fields, indent), a, b, Pretty(s, l, indent))
  {
    hide Pretty, PrettyLines, PrettyMember, Quote, Splice;
    var after := fields[k := (fields[k].0, l)];
    LinesStep(s, fields, indent);
    LinesStep(s, after, indent);
    assert after[1..] == fields[1..][k - 1 := (fields[k].0, l)];
    var front := indent + (PrettyMember(s, fields[0], indent) + ("," + s.newline));
    var x, y := PrettyLines(s, fields[1..], indent), PrettyLines(s, after[1..], indent);
    FrontParts(indent, PrettyMember(s, fields[0], indent), s.newline, x);
    FrontParts(indent, PrettyMember(s, fields[0], indent), s.newline, y);
    var a := KeyAt(s, fields[1..], indent, k - 1) + |Quote(fields[k].0)| + 2;
    var b := KeyAt(s, fields[1..], indent, k - 1) + |PrettyMember(s, fields[k], indent)|;
    SpliceBehind(front, x, a, b, Pretty(s, l, indent));
  }

  lemma MemberParts(indent: string, head: string, x: string, more: string)
    ensures indent + ((head + x) + more) == (indent + head) + (x + more)
  {
  }

  lemma FrontParts(indent: string, member: string, newline: string, rest: string)
    ensures indent + (member + ("," + (newline + rest))) == (indent + (member + ("," + newline))) + rest
  {
  }

  lemma SpliceBehind(front: string, x: string, a: nat, b: nat, y: string)
    requires a <= b <= |x|
    ensures Splice(front + x, |front| + a, |front| + b, y) == front + Splice(x, a, b, y)
  {
    assert (front + x)[..|front| + a] == front + x[..a];
    assert (front + x)[|front| + b..] == x[b..];
  }

  lemma SpliceBefore(x: string, back: string, a: nat, b: nat, y: string)
    requires a <= b <= |x|
    ensures Splice(x + back, a, b, y) == Splice(x, a, b, y) + back
  {
    assert (x + back)[..a] == x[..a];
    assert (x + back)[b..] == x[b..] + back;
  }

  lemma ObjUpdated(s: Style, fields: seq<(string, Layout)>, indent: string, k: nat, l: Layout)
    requires k < |fields|
    ensures var (deeper, from) := (indent + s.unit, 1 + |s.newline| + KeyAt(s, fields, indent + s.unit, k));
      var (a, b) := (from + |Quote(fields[k].0)| + 2, from + |PrettyMember(s, fields[k], deeper)|);
      && a <= b <= |Pretty(s, Obj(fields), indent)|
      && Pretty(s, Obj(fields[k := (fields[k].0, l)]), indent)
         == Splice(Pretty(s, Obj(fields), indent), a, b, Pretty(s, l, deeper))
  {
    hide PrettyLines, PrettyMember, Quote, KeyAt, Pretty, Splice;
    var deeper := indent + s.unit;
    LinesUpdated(s, fields, deeper, k, l);
    var x, back := PrettyLines(s, fields, deeper), s.newline + (indent + "}");
    var after := fields[k := (fields[k].0, l)];
    ObjParts(s, fields, indent);
    ObjParts(s, after, indent);
    var from := KeyAt(s, fields, deeper, k);
    var a, b := from + |Quote(fields[k].0)| + 2, from + |PrettyMember(s, fields[k], deeper)|;
    SpliceBefore(x, back, a, b, Pretty(s, l, deeper));
    SpliceBehind("{" + s.newline, x + back, a, b, Pretty(s, l, deeper));
  }

  lemma ObjParts(s: Style, fields: seq<(string, Layout)>, indent: string)
    requires fields != []
    ensures Pretty(s, Obj(fields), indent)
         == ("{" + s.newline) + (PrettyLines(s, fields, indent + s.unit) + (s.newline + (indent + "}")))
  {
    hide PrettyLines;
  }

  lemma {:induction false} LinesAppended(s: Style, fields: seq<(string, Layout)>, indent: string, f: (string, Layout))
    requires fields != []
    ensures PrettyLines(s, fields + [f], indent)
         == PrettyLines(s, fields, indent) + ("," + (s.newline + (indent + PrettyMember(s, f, indent))))
    decreases |fields|
  {
    hide PrettyMember;
    LinesStep(s, fields, indent);
    LinesStep(s, fields + [f], indent);
    var added := "," + (s.newline + (indent + PrettyMember(s, f, indent)));
    if |fields| == 1 {
      assert (fields + [f])[1..] == [f];
      LinesStep(s, [f], indent);
      assert PrettyMember(s, f, indent) + "" == PrettyMember(s, f, indent);
      assert PrettyMember(s, fields[0], indent) + "" == PrettyMember(s, fields[0], indent);
      JoinThree(indent, PrettyMember(s, fields[0], indent), added);
    } else {
      LinesAppended(s, fields[1..], indent, f);
      assert (fields + [f])[1..] == fields[1..] + [f];
      JoinFive(indent, PrettyMember(s, fields[0], indent), s.newline, PrettyLines(s, fields[1..], indent), added);
    }
  }

  lemma JoinThree(a: string, b: string, c: string)
    ensures a + (b + c) == (a + b) + c
  {
  }

  lemma JoinFive(a: string, b: string, c: string, d: string, e: string)
    ensures a + (b + ("," + (c + (d + e)))) == (a + (b + ("," + (c + d)))) + e
  {
  }

  /** The last member ends where the lines do. */
  lemma {:induction false} LastEnds(s: Style, fields: seq<(string, Layout)>, indent: string)
    requires fields != []
    ensures var k := |fields| - 1;
      KeyAt(s, fields, indent, k) + |PrettyMember(s, fields[k], indent)| == |PrettyLines(s, fields, indent)|
    decreases |fields|
  {
    hide PrettyMember;
    LinesStep(s, fields, indent);
    if |fields| > 1 {
      LastEnds(s, fields[1..], indent);
    }
  }

  /** The text `set` builds for a new path is laid out by the rule. */
  lemma {:induction false} BuiltIsPretty(s: Style, key: string, tail: seq<string>, v: string, indent: string)
    ensures BuildMember(key, tail, v, indent, s.newline, s.unit) == PrettyMember(s, (key, Nested(tail, v)), indent)
    decreases |tail|
  {
    hide Quote;
    if tail != [] {
      var deeper := indent + s.unit;
      BuiltIsPretty(s, tail[0], tail[1..], v, deeper);
      var inner := PrettyMember(s, (tail[0], Nested(tail[1..], v)), deeper);
      var fields := [(tail[0], Nested(tail[1..], v))];
      LinesStep(s, fields, deeper);
      assert inner + "" == inner;
      BuiltParts(Quote(key), s.newline, deeper, inner, indent);
    }
  }

  lemma BuiltParts(q: string, newline: string, deeper: string, inner: string, indent: string)
    ensures q + ": {" + newline + deeper + inner + newline + indent + "}"
         == q + ": " + ("{" + (newline + ((deeper + inner) + (newline + (indent + "}")))))
  {
    assert q + ": {" == (q + ": ") + "{";
  }

  // ---- the edit -------------------------------------------------------------------------------------

  /** Inside a stretch of text that stands at `i`. */
  lemma SpliceInside(t: string, i: nat, x: string, a: nat, b: nat, y: string)
    requires Stands(t, i, x) && a <= b <= |x|
    ensures i + |x| <= |t| && Splice(t, i + a, i + b, y) == Splice(t, i, i + |x|, Splice(x, a, b, y))
  {
    StandsSlice(t, i, x);
    assert t[..i + a] == t[..i] + x[..a];
    assert t[i + b..] == x[b..] + t[i + |x|..];
    JoinThree(t[..i] + x[..a], y, x[b..] + t[i + |x|..]);
  }

  /** An object laid out at `i`, as the parser has found it. */
  ghost predicate PrettyAt(t: string, i: nat, s: Style, l: Layout, indent: string) {
    && ProperStyle(s) && ProperLayout(l)
    && Stands(t, i, Pretty(s, l, indent)) && Delimited(t, i + |Pretty(s, l, indent)|)
    && InLine(t, i, indent)
  }

  lemma PrettyValue(t: string, i: nat, s: Style, l: Layout, indent: string)
    requires PrettyAt(t, i, s, l, indent)
    ensures Value(t, i).Some? && WellFormed(t, Value(t, i).value) && Value(t, i).value.end == i + |Pretty(s, l, indent)|
    ensures l.Obj? ==>
      && Value(t, i).value.kind.Object?
      && LaidOut(t, i + 1 + |s.newline|, s, l.fields, indent + s.unit, Value(t, i).value.kind.members)
  {
    hide Value, WellFormed, Stands, LaidOut, Pretty;
    PrettyReads(t, i, s, l, indent);
    StrictIsWellFormed(t, i);
  }

  lemma LinesStand(t: string, i: nat, s: Style, fields: seq<(string, Layout)>, indent: string)
    requires fields != [] && ProperStyle(s) && Stands(t, i, Pretty(s, Obj(fields), indent))
    ensures var p := i + 1 + |s.newline|;
      var end := p + |PrettyLines(s, fields, indent + s.unit)|;
      && p <= |t| && t[p - 1] == '\n' && t[i] == '{'
      && Stands(t, p, PrettyLines(s, fields, indent + s.unit))
      && Stands(t, end, s.newline) && Stands(t, end + |s.newline|, indent) && Stands(t, end + |s.newline| + |indent|, "}")
      && i + |Pretty(s, Obj(fields), indent)| == end + |s.newline| + |indent| + 1
  {
    hide Stands, PrettyLines;
    var lines, last := PrettyLines(s, fields, indent + s.unit), s.newline + (indent + "}");
    StandsPart(t, i, "{", s.newline + (lines + last));
    StandsPart(t, i + 1, s.newline, lines + last);
    StandsPart(t, i + 1 + |s.newline|, lines, last);
    StandsPart(t, i + 1 + |s.newline| + |lines|, s.newline, indent + "}");
    StandsPart(t, i + 1 + |s.newline| + |lines| + |s.newline|, indent, "}");
    StandsAt(t, i, "{", 0);
    StandsAt(t, i + 1, s.newline, |s.newline| - 1);
    StandsAt(t, i + 1 + |s.newline| + |lines| + |s.newline| + |indent|, "}", 0);
  }

  lemma DeeperIsBlank(s: Style, indent: string)
    requires ProperStyle(s) && BlankText(indent)
    ensures BlankText(indent + s.unit)
  {
  }

  /** A member of it is laid out in its turn. */
  lemma MemberIsPretty(t: string, i: nat, s: Style, fields: seq<(string, Layout)>, indent: string, k: nat)
    requires PrettyAt(t, i, s, Obj(fields), indent) && k < |fields|
    ensures Value(t, i).Some? && Value(t, i).value.kind.Object? && |Value(t, i).value.kind.members| == |fields|
    ensures var m := Value(t, i).value.kind.members[k];
      var p := i + 1 + |s.newline|;
      && m.key == fields[k].0 && m.keyStart == p + KeyAt(s, fields, indent + s.unit, k)
      && m.value.start == m.keyStart + |Quote(fields[k].0)| + 2
      && m.value.end == m.keyStart + |PrettyMember(s, fields[k], indent + s.unit)|
      && Value(t, m.value.start) == Some(m.value)
      && PrettyAt(t, m.value.start, s, fields[k].1, indent + s.unit)
      && LineIndent(t, m.keyStart) == indent + s.unit
  {
    hide Value, Stands, Pretty, PrettyLines, PrettyMember, Quote, WellFormed, InLine, Delimited, LineIndent, ProperLayout, KeyAt;
    PrettyValue(t, i, s, Obj(fields), indent);
    var deeper, p := indent + s.unit, i + 1 + |s.newline|;
    var ms := Value(t, i).value.kind.members;
    LaidMember(t, p, s, fields, deeper, ms, k);
    LineOf(t, i, indent);
    DeeperIsBlank(s, indent);
    LayoutFields(Obj(fields), k);
    MemberPlaced(t, i, s, fields, indent, k);
    AfterMember(t, i, s, fields, indent, k);
  }

  lemma LaidMember(u: string, p: nat, s: Style, fields: seq<(string, Layout)>, indent: string, ms: seq<Member>, k: nat)
    requires LaidOut(u, p, s, fields, indent, ms) && k < |fields|
    ensures |ms| == |fields| && ms[k].key == fields[k].0
    ensures ms[k].keyStart == p + KeyAt(s, fields, indent, k)
    ensures ms[k].value.start == ms[k].keyStart + |Quote(fields[k].0)| + 2
    ensures ms[k].value.end == ms[k].keyStart + |PrettyMember(s, fields[k], indent)|
    ensures Value(u, ms[k].value.start) == Some(ms[k].value)
  {
    hide Value, Quote, PrettyMember, KeyAt;
  }

  /** Its line, its indentation and its value's text. */
  lemma MemberPlaced(t: string, i: nat, s: Style, fields: seq<(string, Layout)>, indent: string, k: nat)
    requires ProperStyle(s) && BlankText(indent) && k < |fields| && ProperLayout(fields[k].1)
    requires Stands(t, i, Pretty(s, Obj(fields), indent))
    ensures var (deeper, q) := (indent + s.unit, i + 1 + |s.newline| + KeyAt(s, fields, indent + s.unit, k));
      var start := q + |Quote(fields[k].0)| + 2;
      && q <= |t| && LineIndent(t, q) == deeper && InLine(t, start, deeper)
      && Stands(t, start, Pretty(s, fields[k].1, deeper))
      && |PrettyMember(s, fields[k], deeper)| == |Quote(fields[k].0)| + 2 + |Pretty(s, fields[k].1, deeper)|
  {
    hide Stands, Pretty, PrettyLines, Quote, InLine, LineIndent, ProperLayout, KeyAt;
    var deeper, p := indent + s.unit, i + 1 + |s.newline|;
    var q := p + KeyAt(s, fields, deeper, k);
    DeeperIsBlank(s, indent);
    LinesStand(t, i, s, fields, indent);
    MemberStands(t, p, s, fields, deeper, k);
    PrettyNotEmpty(s, fields[k].1, deeper);
    MemberInLine(t, q, s, fields[k], deeper);
    StandsPart(t, q, Quote(fields[k].0) + ": ", Pretty(s, fields[k].1, deeper));
    StandsBounds(t, q, PrettyMember(s, fields[k], deeper));
  }

  lemma StandsBounds(u: string, p: nat, x: string)
    requires Stands(u, p, x)
    ensures p + |x| <= |u|
  {
  }

  lemma LineOf(t: string, i: nat, indent: string)
    requires InLine(t, i, indent)
    ensures i < |t| && BlankText(indent) && LineStart(t, i) + |indent| <= i
  {
  }

  lemma AfterMember(t: string, i: nat, s: Style, fields: seq<(string, Layout)>, indent: string, k: nat)
    requires ProperStyle(s) && k < |fields| && Stands(t, i, Pretty(s, Obj(fields), indent))
    ensures Delimited(t, i + 1 + |s.newline| + KeyAt(s, fields, indent + s.unit, k) + |PrettyMember(s, fields[k], indent + s.unit)|)
  {
    hide Stands, Pretty, PrettyLines, PrettyMember, Delimited;
    var p, deeper := i + 1 + |s.newline|, indent + s.unit;
    LinesStand(t, i, s, fields, indent);
    if k == |fields| - 1 {
      LastEnds(s, fields, deeper);
      BreakDelimits(t, p + |PrettyLines(s, fields, deeper)|, s);
    } else {
      CommaBehind(t, p, s, fields, deeper, k);
      CommaDelimits(t, p + KeyAt(s, fields, deeper, k) + |PrettyMember(s, fields[k], deeper)|);
    }
  }

  lemma BreakDelimits(t: string, p: nat, s: Style)
    requires ProperStyle(s) && Stands(t, p, s.newline)
    ensures Delimited(t, p)
  {
    StandsAt(t, p, s.newline, 0);
  }

  lemma CommaDelimits(t: string, p: nat)
    requires Stands(t, p, ",")
    ensures Delimited(t, p)
  {
    StandsAt(t, p, ",", 0);
  }

  lemma {:induction false} CommaBehind(t: string, p: nat, s: Style, fields: seq<(string, Layout)>, indent: string, k: nat)
    requires k + 1 < |fields| && Stands(t, p, PrettyLines(s, fields, indent))
    ensures Stands(t, p + KeyAt(s, fields, indent, k) + |PrettyMember(s, fields[k], indent)|, ",")
    decreases k
  {
    hide Stands, PrettyMember, PrettyLines;
    assert PrettyLines(s, fields, indent) + "" == PrettyLines(s, fields, indent);
    RestStands(t, p, s, fields, indent, "");
    if k > 0 {
      var e := p + |indent| + |PrettyMember(s, fields[0], indent)|;
      assert PrettyLines(s, fields[1..], indent) + "" == PrettyLines(s, fields[1..], indent);
      CommaBehind(t, e + 1 + |s.newline|, s, fields[1..], indent, k - 1);
    }
  }

  /** The parser's first member of a key is the layout's. */
  lemma SameFirst(ms: seq<Member>, fields: seq<(string, Layout)>, key: string)
    requires |ms| == |fields| && forall k | 0 <= k < |ms| :: ms[k].key == fields[k].0
    ensures FindMember(ms, key) == FirstOf(fields, key)
  {
    var a, b := FindMember(ms, key), FirstOf(fields, key);
    assert a.Some? ==> fields[a.value].0 == key;
    assert b.Some? ==> ms[b.value].key == key;
  }

  /** The whole object with member `k`'s value exchanged. */
  lemma ValueExchanged(t: string, i: nat, s: Style, fields: seq<(string, Layout)>, indent: string, k: nat, l: Layout)
    requires PrettyAt(t, i, s, Obj(fields), indent) && k < |fields|
    ensures Value(t, i).Some? && Value(t, i).value.kind.Object? && k < |Value(t, i).value.kind.members|
    ensures var c := Value(t, i).value.kind.members[k].value;
      var end := i + |Pretty(s, Obj(fields), indent)|;
      && c.start <= c.end <= |t| && end <= |t|
      && Splice(t, c.start, c.end, Pretty(s, l, indent + s.unit))
         == Splice(t, i, end, Pretty(s, Obj(fields[k := (fields[k].0, l)]), indent))
  {
    hide Value, Stands, Pretty, PrettyMember, Quote, PrettyAt, Splice, KeyAt;
    MemberIsPretty(t, i, s, fields, indent, k);
    ObjUpdated(s, fields, indent, k, l);
    var from := 1 + |s.newline| + KeyAt(s, fields, indent + s.unit, k);
    PrettyStands(t, i, s, Obj(fields), indent);
    SpliceInside(t, i, Pretty(s, Obj(fields), indent), from + |Quote(fields[k].0)| + 2,
                 from + |PrettyMember(s, fields[k], indent + s.unit)|, Pretty(s, l, indent + s.unit));
  }

  lemma PrettyStands(t: string, i: nat, s: Style, l: Layout, indent: string)
    requires PrettyAt(t, i, s, l, indent)
    ensures Stands(t, i, Pretty(s, l, indent)) && ProperStyle(s)
  {
  }

  // ---- a new member -------------------------------------------------------------------------------------

  lemma FirstOnOwnLine(t: string, i: nat, s: Style, fields: seq<(string, Layout)>, indent: string)
    requires PrettyAt(t, i, s, Obj(fields), indent) && fields != []
    ensures Value(t, i).Some? && WellFormed(t, Value(t, i).value)
    ensures MemberIndent(t, Value(t, i).value, s.unit) == indent + s.unit
  {
    hide Value, Stands, Pretty, PrettyMember, PrettyLines, Quote, InLine, WellFormed, LineIndent, Delimited, ProperLayout;
    PrettyValue(t, i, s, Obj(fields), indent);
    MemberIsPretty(t, i, s, fields, indent, 0);
    LinesStand(t, i, s, fields, indent);
    var q := Value(t, i).value.kind.members[0].keyStart;
    assert t[i..q][|s.newline|] == t[i + |s.newline|] == '\n';
  }

  lemma EmptyIndent(t: string, i: nat, s: Style, indent: string)
    requires PrettyAt(t, i, s, Obj([]), indent)
    ensures Value(t, i) == Some(Node(Object([]), i, i + 2)) && WellFormed(t, Value(t, i).value)
    ensures MemberIndent(t, Value(t, i).value, s.unit) == indent + s.unit && LineIndent(t, i + 1) == indent
    ensures LineStart(t, i + 1) <= i && t[i] == '{' && t[i + 1] == '}'
  {
    hide Value, Stands, WellFormed, LineStart, BlankRun, LineIndent;
    PrettyValue(t, i, s, Obj([]), indent);
    BracesRead(t, i);
    StandsAt(t, i, "{}", 0);
    StandsAt(t, i, "{}", 1);
    IndentAt(t, i, i, indent);
    IndentAt(t, i, i + 1, indent);
  }

  /** Into empty braces. */
  lemma InsertedFirst(t: string, i: nat, s: Style, indent: string, f: (string, Layout))
    requires PrettyAt(t, i, s, Obj([]), indent)
    ensures Value(t, i).Some? && WellFormed(t, Value(t, i).value) && Value(t, i).value.kind.Object? && i + 2 <= |t|
    ensures InsertMember(t, Value(t, i).value, PrettyMember(s, f, indent + s.unit), s.newline, s.unit)
         == Splice(t, i, i + 2, Pretty(s, Obj([f]), indent))
  {
    hide Value, Stands, WellFormed, LineStart, LineIndent, MemberIndent, PrettyMember, InLine, Delimited;
    EmptyIndent(t, i, s, indent);
    var node, member, deeper := Value(t, i).value, PrettyMember(s, f, indent + s.unit), indent + s.unit;
    assert TrimBack(t, LineStart(t, i + 1), i + 1) == i + 1;
    assert InsertSpan(t, node) == (i + 1, i + 1);
    var line := deeper + member + "" + s.newline;
    assert InsertText(t, node, member, s.newline, s.unit) == s.newline + line + indent;
    LinesStep(s, [f], deeper);
    assert [f][1..] == [] && PrettyLines(s, [f], deeper) == deeper + (member + "");
    FirstParts(t, i, s.newline, deeper, member, indent);
  }

  lemma FirstParts(t: string, i: nat, newline: string, deeper: string, member: string, indent: string)
    requires i + 1 < |t| && t[i] == '{' && t[i + 1] == '}'
    ensures Splice(t, i + 1, i + 1, newline + (deeper + member + "" + newline) + indent)
         == Splice(t, i, i + 2, "{" + (newline + ((deeper + (member + "")) + (newline + (indent + "}")))))
  {
    assert t[..i + 1] == t[..i] + "{" && t[i + 1..] == "}" + t[i + 2..];
  }

  /** Behind the last member. */
  lemma InsertedLast(t: string, i: nat, s: Style, fields: seq<(string, Layout)>, indent: string, f: (string, Layout))
    requires PrettyAt(t, i, s, Obj(fields), indent) && fields != []
    ensures Value(t, i).Some? && WellFormed(t, Value(t, i).value) && Value(t, i).value.kind.Object?
    ensures i + |Pretty(s, Obj(fields), indent)| <= |t|
    ensures InsertMember(t, Value(t, i).value, PrettyMember(s, f, indent + s.unit), s.newline, s.unit)
         == Splice(t, i, i + |Pretty(s, Obj(fields), indent)|, Pretty(s, Obj(fields + [f]), indent))
  {
    hide Value, Stands, WellFormed, MemberIndent, PrettyMember, InLine, Delimited, Pretty, PrettyLines, Splice, ProperLayout,
      InsertMember, InsertText;
    var member, deeper := PrettyMember(s, f, indent + s.unit), indent + s.unit;
    var lines := PrettyLines(s, fields, deeper);
    PrettyStands(t, i, s, Obj(fields), indent);
    FirstOnOwnLine(t, i, s, fields, indent);
    PrettyValue(t, i, s, Obj(fields), indent);
    InsertedText(t, i, s, fields, indent, member);
    LinesAppended(s, fields, deeper, f);
    ObjParts(s, fields, indent);
    ObjParts(s, fields + [f], indent);
    StandsSlice(t, i, Pretty(s, Obj(fields), indent));
    LastParts(t, i, s.newline, lines, deeper, member, indent);
  }

  /** The line goes in above the closing brace's, and a comma behind the last value. */
  lemma InsertedText(t: string, i: nat, s: Style, fields: seq<(string, Layout)>, indent: string, member: string)
    requires PrettyAt(t, i, s, Obj(fields), indent) && fields != []
    ensures Value(t, i).Some? && WellFormed(t, Value(t, i).value) && Value(t, i).value.kind.Object?
    ensures var e := i + 1 + |s.newline| + |PrettyLines(s, fields, indent + s.unit)|;
      var at := e + |s.newline|;
      var u := Splice(t, at, at, indent + s.unit + member + "" + s.newline);
      && at <= |t| && e <= |u|
      && InsertMember(t, Value(t, i).value, member, s.newline, s.unit) == Splice(u, e, e, ",")
  {
    hide Value, Stands, WellFormed, LineStart, LineIndent, MemberIndent, PrettyMember, InLine, Delimited, Pretty, PrettyLines,
      Quote, AllWhitespace, NextSignificant, Splice, ProperLayout, KeyAt;
    PrettyValue(t, i, s, Obj(fields), indent);
    var node, n := Value(t, i).value, |fields| - 1;
    var e := i + 1 + |s.newline| + |PrettyLines(s, fields, indent + s.unit)|;
    FirstOnOwnLine(t, i, s, fields, indent);
    MemberIsPretty(t, i, s, fields, indent, n);
    LastEnds(s, fields, indent + s.unit);
    LinesStand(t, i, s, fields, indent);
    LineOf(t, i, indent);
    CloseLine(t, e, s, indent);
    assert node.kind.members[n].value.end == e && node.end - 1 == e + |s.newline| + |indent|;
    assert OwnLineClose(t, node) && !TrailingCommaOf(t, node);
    var at := e + |s.newline|;
    assert InsertSpan(t, node) == (at, at);
    SpliceLonger(t, at, indent + s.unit + member + "" + s.newline);
  }

  lemma SpliceLonger(t: string, at: nat, x: string)
    requires at <= |t|
    ensures |Splice(t, at, at, x)| == |t| + |x|
  {
  }

  /** The line of the closing brace holds nothing else, and no comma stands before it. */
  lemma CloseLine(t: string, e: nat, s: Style, indent: string)
    requires ProperStyle(s) && BlankText(indent)
    requires Stands(t, e, s.newline) && Stands(t, e + |s.newline|, indent) && Stands(t, e + |s.newline| + |indent|, "}")
    ensures var closeLine := e + |s.newline|;
      var close := closeLine + |indent|;
      && close < |t| && LineStart(t, close) == closeLine && AllWhitespace(t[closeLine..close])
      && NextSignificant(t, e) == close && t[close] == '}'
  {
    hide Stands, LineStart, NextSignificant;
    var closeLine := e + |s.newline|;
    var close := closeLine + |indent|;
    StandsAt(t, close, "}", 0);
    StandsAt(t, e, s.newline, |s.newline| - 1);
    StandsAt(t, e, s.newline, 0);
    forall k | closeLine <= k < close ensures t[k] in " \t" {
      StandsAt(t, closeLine, indent, k - closeLine);
    }
    LineStartIs(t, close, closeLine);
    forall k | e <= k < close ensures AsciiWhitespace(t[k]) {
      if k < closeLine {
        StandsAt(t, e, s.newline, k - e);
      }
    }
    NextIs(t, e, close);
  }

  lemma {:induction false} NextIs(t: string, i: nat, j: nat)
    requires i <= j < |t| && (forall k | i <= k < j :: AsciiWhitespace(t[k])) && t[j] == '}'
    ensures NextSignificant(t, i) == j
    decreases j - i
  {
    if i < j {
      NextIs(t, i + 1, j);
    }
  }

  lemma LastParts(t: string, i: nat, newline: string, lines: string, deeper: string, member: string, indent: string)
    requires var x := ("{" + newline) + (lines + (newline + (indent + "}"))); i + |x| <= |t| && t[i..i + |x|] == x
    ensures var x := ("{" + newline) + (lines + (newline + (indent + "}")));
      var (e, at) := (i + 1 + |newline| + |lines|, i + 1 + |newline| + |lines| + |newline|);
      var line := deeper + member + "" + newline;
      && e <= |Splice(t, at, at, line)|
      && Splice(Splice(t, at, at, line), e, e, ",")
         == Splice(t, i, i + |x|, ("{" + newline) + ((lines + ("," + (newline + (deeper + member)))) + (newline + (indent + "}"))))
  {
    var head, tail := "{" + newline, newline + (indent + "}");
    var x := head + (lines + tail);
    var a, b := t[..i], t[i + |x|..];
    var e, at := i + 1 + |newline| + |lines|, i + 1 + |newline| + |lines| + |newline|;
    assert t == a + (x + b);
    var front := a + (head + lines);
    var rest := (indent + "}") + b;
    assert t == (front + newline) + rest by {
      LongJoin(a, head, lines, newline, indent + "}", b);
    }
    var line := deeper + member + "" + newline;
    var u := Splice(t, at, at, line);
    assert |front| == e && |front + newline| == at;
    assert u == (front + newline) + (line + rest) by {
      SpliceInto(front + newline, rest, line);
    }
    assert u == front + (newline + (line + rest));
    SpliceInto(front, newline + (line + rest), ",");
    FinalJoin(a, head, lines, newline, deeper, member, indent + "}", b);
  }

  lemma SpliceInto(a: string, b: string, y: string)
    ensures Splice(a + b, |a|, |a|, y) == a + (y + b)
  {
    assert (a + b)[..|a|] == a && (a + b)[|a|..] == b;
  }

  lemma LongJoin(a: string, head: string, lines: string, newline: string, end: string, b: string)
    ensures a + ((head + (lines + (newline + end))) + b) == ((a + (head + lines)) + newline) + (end + b)
  {
  }

  lemma FinalJoin(a: string, head: string, lines: string, newline: string, deeper: string, member: string, end: string, b: string)
    ensures (a + (head + lines)) + ("," + (newline + ((deeper + member + "" + newline) + (end + b))))
         == a + (head + ((lines + ("," + (newline + (deeper + member)))) + (newline + end))) + b
  {
  }

  // ---- along a path ---------------------------------------------------------------------------------------

  /** `set` along any path makes of the layout the layout with the value placed. */
  lemma {:induction false} EditIsPretty(t: string, i: nat, s: Style, l: Layout, indent: string, path: seq<string>, v: string)
    requires PrettyAt(t, i, s, l, indent) && path != [] && CanPlace(l, path)
    ensures Value(t, i).Some? && EditDone(t, Value(t, i).value, s, l, indent, path, v)
    decreases |path|
  {
    hide Value, Pretty, PrettyAt, EditDone, FindMember, FirstOf, CanPlace, WellFormed, LaidOut;
    CanStep(l, path);
    PrettyValue(t, i, s, l, indent);
    KeysAlike(t, i, s, l.fields, indent, path[0]);
    match FirstOf(l.fields, path[0])
    case None => EditInserted(t, i, s, l.fields, indent, path, v);
    case Some(k) =>
      if |path| > 1 {
        MemberIsPretty(t, i, s, l.fields, indent, k);
        EditIsPretty(t, Value(t, i).value.kind.members[k].value.start, s, l.fields[k].1, indent + s.unit, path[1..], v);
      }
      MemberEdited(t, i, s, l.fields, indent, k, path, v);
  }

  /** The edit of the object `c`, laid out as `l`, gives the text with the changed layout in its place. */
  ghost predicate EditDone(t: string, c: Node, s: Style, l: Layout, indent: string, path: seq<string>, v: string) {
    && path != [] && CanPlace(l, path)
    && Value(t, c.start) == Some(c) && WellFormed(t, c) && c.start + |Pretty(s, l, indent)| <= |t|
    && EditObject(t, c, path, v, s.newline, s.unit)
       == Ok(Splice(t, c.start, c.start + |Pretty(s, l, indent)|, Pretty(s, Placed(l, path, v), indent)))
  }

  lemma EditInserted(t: string, i: nat, s: Style, fields: seq<(string, Layout)>, indent: string, path: seq<string>, v: string)
    requires PrettyAt(t, i, s, Obj(fields), indent) && path != [] && CanPlace(Obj(fields), path)
    requires Value(t, i).Some? && Value(t, i).value.kind.Object?
    requires FirstOf(fields, path[0]) == None && FindMember(Value(t, i).value.kind.members, path[0]) == None
    ensures EditDone(t, Value(t, i).value, s, Obj(fields), indent, path, v)
  {
    hide Value, WellFormed, Pretty, PrettyAt, LaidOut, InsertMember, MemberIndent, Splice, BuildMember, EditObject, FindMember,
      FirstOf, CanPlace, Placed;
    PrettyValue(t, i, s, Obj(fields), indent);
    EditNew(t, Value(t, i).value, path, v, s.newline, s.unit);
    InsertIsPretty(t, i, s, fields, indent, path, v);
    PlacedNew(Obj(fields), path, v);
  }

  /** One step of the edit: at the member the key names, or a new one. */
  lemma EditAtMember(t: string, node: Node, path: seq<string>, v: string, newline: string, unit: string, k: nat)
    requires WellFormed(t, node) && node.kind.Object? && path != [] && FindMember(node.kind.members, path[0]) == Some(k)
    requires WellFormed(t, node.kind.members[k].value)
    ensures var c := node.kind.members[k].value;
      var r := EditObject(t, node, path, v, newline, unit);
      && c.start <= c.end <= |t|
      && (|path| == 1 ==> r == Ok(Splice(t, c.start, c.end, v)))
      && (|path| > 1 && c.kind.Object? ==> r == EditObject(t, c, path[1..], v, newline, unit))
  {
    hide WellFormed, Splice, MemberIndent, InsertMember, BuildMember;
    var c := node.kind.members[k].value;
    NodeBounds(t, c);
    SpliceSame(t, c.start, c.end);
  }

  lemma EditNew(t: string, node: Node, path: seq<string>, v: string, newline: string, unit: string)
    requires WellFormed(t, node) && node.kind.Object? && path != [] && FindMember(node.kind.members, path[0]) == None
    ensures EditObject(t, node, path, v, newline, unit)
         == Ok(InsertMember(t, node, BuildMember(path[0], path[1..], v, MemberIndent(t, node, unit), newline, unit), newline, unit))
  {
    hide WellFormed, MemberIndent, InsertMember, BuildMember;
  }

  lemma CanStep(l: Layout, path: seq<string>)
    requires path != [] && CanPlace(l, path)
    ensures l.Obj?
    ensures FirstOf(l.fields, path[0]).Some? && |path| > 1 ==>
              CanPlace(l.fields[FirstOf(l.fields, path[0]).value].1, path[1..])
  {
  }

  lemma PlacedNew(l: Layout, path: seq<string>, v: string)
    requires path != [] && CanPlace(l, path) && FirstOf(l.fields, path[0]) == None
    ensures Placed(l, path, v) == Obj(l.fields + [(path[0], Nested(path[1..], v))])
  {
  }

  /** The edit of a member that is there, carried to the object. */
  lemma MemberEdited(t: string, i: nat, s: Style, fields: seq<(string, Layout)>, indent: string, k: nat, path: seq<string>, v: string)
    requires PrettyAt(t, i, s, Obj(fields), indent) && path != [] && CanPlace(Obj(fields), path)
    requires Value(t, i).Some? && Value(t, i).value.kind.Object?
    requires k < |fields| && k < |Value(t, i).value.kind.members|
    requires FirstOf(fields, path[0]) == Some(k) && FindMember(Value(t, i).value.kind.members, path[0]) == Some(k)
    requires |path| > 1 ==>
               EditDone(t, Value(t, i).value.kind.members[k].value, s, fields[k].1, indent + s.unit, path[1..], v)
    ensures EditDone(t, Value(t, i).value, s, Obj(fields), indent, path, v)
  {
    hide Value, WellFormed, Pretty, PrettyAt, LaidOut, Splice, FindMember, FirstOf, EditObject, CanPlace, Placed, EditDone;
    var node, c, deeper := Value(t, i).value, Value(t, i).value.kind.members[k].value, indent + s.unit;
    ChildIsPretty(t, i, s, fields, indent, k);
    EditAtMember(t, node, path, v, s.newline, s.unit, k);
    PlacedThere(Obj(fields), path, v, k);
    var l := if |path| == 1 then Atom(v) else Placed(fields[k].1, path[1..], v);
    if |path| == 1 {
      PlainText(s, v, deeper);
    } else {
      CanStep(fields[k].1, path[1..]);
      DoneIs(t, c, s, fields[k].1, deeper, path[1..], v);
    }
    ValueExchanged(t, i, s, fields, indent, k, l);
    DoneFrom(t, node, s, Obj(fields), indent, path, v);
  }

  /** A member's value as the edit needs to know it. */
  lemma ChildIsPretty(t: string, i: nat, s: Style, fields: seq<(string, Layout)>, indent: string, k: nat)
    requires PrettyAt(t, i, s, Obj(fields), indent) && k < |fields|
    ensures Value(t, i).Some? && WellFormed(t, Value(t, i).value) && Value(t, i).value.kind.Object?
    ensures Value(t, i).value.start == i && k < |Value(t, i).value.kind.members|
    ensures var c := Value(t, i).value.kind.members[k].value;
      && WellFormed(t, c) && (fields[k].1.Obj? ==> c.kind.Object?)
      && c.end == c.start + |Pretty(s, fields[k].1, indent + s.unit)|
  {
    hide Value, WellFormed, Pretty, PrettyAt, LaidOut, PrettyMember, KeyAt, Quote, LineIndent;
    PrettyValue(t, i, s, Obj(fields), indent);
    MemberIsPretty(t, i, s, fields, indent, k);
    PrettyValue(t, Value(t, i).value.kind.members[k].value.start, s, fields[k].1, indent + s.unit);
  }

  lemma DoneIs(t: string, c: Node, s: Style, l: Layout, indent: string, path: seq<string>, v: string)
    requires EditDone(t, c, s, l, indent, path, v)
    ensures path != [] && CanPlace(l, path) && WellFormed(t, c) && c.start + |Pretty(s, l, indent)| <= |t|
    ensures EditObject(t, c, path, v, s.newline, s.unit)
         == Ok(Splice(t, c.start, c.start + |Pretty(s, l, indent)|, Pretty(s, Placed(l, path, v), indent)))
  {
    hide Value, WellFormed, Pretty, Splice, EditObject, CanPlace, Placed;
  }

  lemma DoneFrom(t: string, c: Node, s: Style, l: Layout, indent: string, path: seq<string>, v: string)
    requires path != [] && CanPlace(l, path) && Value(t, c.start) == Some(c) && WellFormed(t, c)
    requires c.start + |Pretty(s, l, indent)| <= |t|
    requires EditObject(t, c, path, v, s.newline, s.unit)
          == Ok(Splice(t, c.start, c.start + |Pretty(s, l, indent)|, Pretty(s, Placed(l, path, v), indent)))
    ensures EditDone(t, c, s, l, indent, path, v)
  {
    hide Value, WellFormed, Pretty, Splice, EditObject, CanPlace, Placed;
  }

  lemma PlacedThere(l: Layout, path: seq<string>, v: string, k: nat)
    requires path != [] && CanPlace(l, path) && FirstOf(l.fields, path[0]) == Some(k)
    ensures l.fields[k].0 == path[0]
    ensures |path| > 1 ==> CanPlace(l.fields[k].1, path[1..])
    ensures Placed(l, path, v)
         == Obj(l.fields[k := (path[0], if |path| == 1 then Atom(v) else Placed(l.fields[k].1, path[1..], v))])
  {
  }

  lemma PlainText(s: Style, v: string, indent: string)
    ensures Pretty(s, Atom(v), indent) == v
  {
  }

  lemma SpliceSame(t: string, i: nat, j: nat)
    requires i <= j <= |t|
    ensures Splice(t, i, j, t[i..j]) == t
  {
  }

  lemma KeysAlike(t: string, i: nat, s: Style, fields: seq<(string, Layout)>, indent: string, key: string)
    requires PrettyAt(t, i, s, Obj(fields), indent)
    ensures Value(t, i).Some? && Value(t, i).value.kind.Object?
    ensures FindMember(Value(t, i).value.kind.members, key) == FirstOf(fields, key)
    ensures FirstOf(fields, key).Some? ==> FirstOf(fields, key).value < |fields|
  {
    hide Value, WellFormed, Pretty, PrettyAt, LaidOut;
    PrettyValue(t, i, s, Obj(fields), indent);
    var ms := Value(t, i).value.kind.members;
    LaidLength(t, i, s, fields, indent, ms);
    forall k | 0 <= k < |fields| ensures ms[k].key == fields[k].0 {
      MemberIsPretty(t, i, s, fields, indent, k);
    }
    SameFirst(ms, fields, key);
  }

  lemma LaidLength(t: string, i: nat, s: Style, fields: seq<(string, Layout)>, indent: string, ms: seq<Member>)
    requires LaidOut(t, i + 1 + |s.newline|, s, fields, indent + s.unit, ms)
    ensures |ms| == |fields|
  {
    hide Value;
  }

  lemma InsertIsPretty(t: string, i: nat, s: Style, fields: seq<(string, Layout)>, indent: string, path: seq<string>, v: string)
    requires PrettyAt(t, i, s, Obj(fields), indent) && path != [] && FirstOf(fields, path[0]) == None
    ensures Value(t, i).Some? && WellFormed(t, Value(t, i).value) && Value(t, i).value.kind.Object?
    ensures i + |Pretty(s, Obj(fields), indent)| <= |t|
    ensures var node := Value(t, i).value;
      InsertMember(t, node, BuildMember(path[0], path[1..], v, MemberIndent(t, node, s.unit), s.newline, s.unit), s.newline, s.unit)
      == Splice(t, i, i + |Pretty(s, Obj(fields), indent)|, Pretty(s, Obj(fields + [(path[0], Nested(path[1..], v))]), indent))
  {
    hide Value, WellFormed, PrettyAt, InsertMember, MemberIndent, Splice, BuildMember, PrettyMember, PrettyLines, LaidOut;
    PrettyValue(t, i, s, Obj(fields), indent);
    BuiltIsPretty(s, path[0], path[1..], v, indent + s.unit);
    if fields == [] {
      EmptyIndent(t, i, s, indent);
      InsertedFirst(t, i, s, indent, (path[0], Nested(path[1..], v)));
      assert [] + [(path[0], Nested(path[1..], v))] == [(path[0], Nested(path[1..], v))];
    } else {
      FirstOnOwnLine(t, i, s, fields, indent);
      InsertedLast(t, i, s, fields, indent, (path[0], Nested(path[1..], v)));
    }
  }

  // ---- whole texts --------------------------------------------------------------------------------------

  /** An object laid out by the rule, with at most a line ending behind it. */
  function File(s: Style, l: Layout, ended: bool): string {
    Pretty(s, l, "") + if ended then s.newline else ""
  }

  /** What the text says about its style: without a member, two spaces, and line feeds unless it ends in CRLF. */
  predicate ShowsStyle(s: Style, l: Layout, ended: bool) {
    && ProperStyle(s) && ProperLayout(l) && l.Obj?
    && (s.newline == "\n" ==> '\r' !in File(s, l, ended))
    && (l.fields == [] ==> s.unit == "  " && (s.newline == "\n" || ended))
  }

  lemma FileStands(s: Style, l: Layout, ended: bool)
    requires ProperStyle(s) && ProperLayout(l) && l.Obj?
    ensures var t := File(s, l, ended);
      && PrettyAt(t, 0, s, l, "") && |Pretty(s, l, "")| <= |t|
      && (forall k | |Pretty(s, l, "")| <= k < |t| :: t[k] in "\r\n")
  {
    hide Stands, PrettyLines;
    var t, x := File(s, l, ended), Pretty(s, l, "");
    WholeStands(t);
    StandsPart(t, 0, x, if ended then s.newline else "");
    ObjStarts(s, l);
    StandsAt(t, 0, x, 0);
    assert LineStart(t, 0) == 0;
    NothingStands(t);
    forall k | |x| <= k < |t| ensures t[k] in "\r\n" {
      assert t[k] == s.newline[k - |x|];
    }
  }

  lemma NothingStands(t: string)
    ensures Stands(t, 0, "")
  {
  }

  lemma WholeStands(t: string)
    ensures Stands(t, 0, t)
  {
  }

  lemma ObjStarts(s: Style, l: Layout)
    requires l.Obj?
    ensures Pretty(s, l, "") != "" && Pretty(s, l, "")[0] == '{'
  {
    hide PrettyLines;
  }

  lemma {:induction false} EndSkipped(t: string, p: nat)
    requires p <= |t| && forall k | p <= k < |t| :: t[k] in "\r\n"
    ensures Skip(t, p) == |t| && !LeftOpen(t, p)
    decreases |t| - p
  {
    if p < |t| {
      EndSkipped(t, p + 1);
    }
  }

  lemma FileParses(s: Style, l: Layout, ended: bool)
    requires ProperStyle(s) && ProperLayout(l) && l.Obj?
    ensures var t := File(s, l, ended);
      && Accepts(t) && ParseDocument(t).Ok? && SplitBom(t) == ("", t)
      && ParseDocument(t).value.start == 0 && Value(t, 0) == Some(ParseDocument(t).value)
      && ParseDocument(t).value.kind.Object?
  {
    hide Value, Skip, Pretty, PrettyAt, LeftOpen, ParseDocument, Accepts, WellFormed, LaidOut;
    var t := File(s, l, ended);
    FileStands(s, l, ended);
    PrettyValue(t, 0, s, l, "");
    ObjStarts(s, l);
    BraceIsFirst(t);
    EndSkipped(t, |Pretty(s, l, "")|);
    ValueIsDocument(t);
  }

  lemma ValueIsDocument(t: string)
    requires t != "" && t[0] == '{' && Value(t, 0).Some? && Skip(t, 0) == 0
    requires Skip(t, Value(t, 0).value.end) == |t| && !LeftOpen(t, Value(t, 0).value.end)
    ensures Accepts(t) && SplitBom(t) == ("", t) && ParseDocument(t) == Ok(Value(t, 0).value)
  {
    hide Value, Skip, LeftOpen, ParseDocument, Accepts;
    AcceptsIsStrict(t);
    AcceptedTextParses(t);
  }

  lemma BraceIsFirst(t: string)
    requires t != "" && t[0] == '{'
    ensures Skip(t, 0) == 0
  {
  }

  lemma LinesOfTwo(line: string, rest: string)
    requires IsLine(line) && Terminated(line) && rest != ""
    ensures Lines(line + rest) == [line] + Lines(rest)
  {
    LineLengthOf(line, rest);
    assert (line + rest)[|line|..] == rest;
  }

  /** The second line is the first deeper one. */
  lemma UnitFound(s: Style, rest: string)
    requires ProperStyle(s)
    ensures DetectIndentUnit("{" + (s.newline + (s.unit + ("\"" + rest)))) == s.unit
  {
    hide DetectFrom, Lines;
    var first, more := "{" + s.newline, s.unit + ("\"" + rest);
    assert first + more == "{" + (s.newline + more);
    LinesOfTwo(first, more);
    LinesStart(more);
    var second, others := Lines(more)[0], Lines(more)[1..];
    assert Lines(more) == [second] + others;
    ContentStart(s, second, rest, more);
    assert Content(first) == "{";
    FirstLine(first, [second] + others);
    assert ([second] + others)[1..] == others;
    SecondLine(s, second, others);
  }

  lemma LinesStart(t: string)
    requires t != ""
    ensures Lines(t) != [] && Lines(t)[0] == t[..LineLength(t)]
  {
  }

  lemma {:induction false} ContentStart(s: Style, second: string, rest: string, more: string)
    requires ProperStyle(s) && more == s.unit + ("\"" + rest) && second == more[..LineLength(more)]
    ensures |Content(second)| > |s.unit| && Content(second)[..|s.unit|] == s.unit && Content(second)[|s.unit|] == '"'
  {
    hide LineLength, SplitLineEnd, Content;
    var n, m := LineLength(more), |s.unit|;
    assert forall k | 0 <= k < m :: more[k] == s.unit[k];
    assert more[m] == '"';
    assert n > m by {
      assert n < |more| ==> more[n - 1] == '\n';
    }
    KeptUpTo(second, m);
  }

  lemma KeptUpTo(line: string, m: nat)
    requires m < |line| && line[m] != '\n' && line[m] != '\r'
    ensures |Content(line)| > m && Content(line)[m] == line[m] && Content(line)[..m] == line[..m]
  {
  }

  lemma FirstLine(first: string, more: seq<string>)
    requires Content(first) == "{"
    ensures DetectFrom([first] + more, None) == DetectFrom(more, Some(0))
  {
    assert ([first] + more)[1..] == more;
    assert BlankRun("{", 0, 1) == 0 && "{"[0..] == "{";
    assert !Whitespace("{"[0]);
  }

  lemma SecondLine(s: Style, second: string, others: seq<string>)
    requires ProperStyle(s) && |Content(second)| > |s.unit| && Content(second)[..|s.unit|] == s.unit && Content(second)[|s.unit|] == '"'
    ensures DetectFrom([second] + others, Some(0)) == s.unit
  {
    var line, n := Content(second), |s.unit|;
    assert forall k | 0 <= k < n :: line[k] == line[..n][k];
    RunEnds(line, 0, |line|, n);
    assert line[n..][0] == '"' && !Whitespace('"');
    assert line[0..n] == line[..n];
  }

  lemma StyleDetected(s: Style, l: Layout, ended: bool)
    requires ShowsStyle(s, l, ended)
    ensures var t := File(s, l, ended); DetectIndentUnit(t) == s.unit && NewlineStyle(t) == s.newline
  {
    hide PrettyLines, DetectIndentUnit, NewlineStyle;
    if l.fields == [] {
      BracesDetected(s, if ended then s.newline else "");
    } else {
      var tail := SecondLineOf(s, l.fields, if ended then s.newline else "");
      UnitFound(s, tail);
      NewlineFound(s, tail);
    }
  }

  /** The text of an object with members, up to its first key. */
  lemma SecondLineOf(s: Style, fields: seq<(string, Layout)>, rest: string) returns (tail: string)
    requires fields != []
    ensures Pretty(s, Obj(fields), "") + rest == "{" + (s.newline + (s.unit + ("\"" + tail)))
  {
    hide PrettyLines, PrettyMember;
    var lines, end := PrettyLines(s, fields, s.unit), s.newline + "}";
    LinesStep(s, fields, s.unit);
    MemberStarts(s, fields[0], s.unit);
    tail := lines[|s.unit| + 1..] + (end + rest);
    assert lines == s.unit + ("\"" + lines[|s.unit| + 1..]);
    assert "" + s.unit == s.unit && "" + "}" == "}";
    ObjParts(s, fields, "");
    assert ("{" + s.newline) + (lines + end) + rest == "{" + (s.newline + (lines + (end + rest)));
  }

  lemma MemberStarts(s: Style, f: (string, Layout), indent: string)
    ensures PrettyMember(s, f, indent) != "" && PrettyMember(s, f, indent)[0] == '"'
  {
    QuoteStarts(f.0);
  }

  lemma NewlineFound(s: Style, tail: string)
    requires ProperStyle(s)
    requires s.newline == "\n" ==> '\r' !in "{" + (s.newline + (s.unit + ("\"" + tail)))
    ensures NewlineStyle("{" + (s.newline + (s.unit + ("\"" + tail)))) == s.newline
  {
    var t := "{" + (s.newline + (s.unit + ("\"" + tail)));
    if s.newline == "\r\n" {
      assert t[1] == '\r' && t[2] == '\n';
    }
  }

  lemma BracesDetected(s: Style, rest: string)
    requires ProperStyle(s) && rest in ["", s.newline] && s.unit == "  " && (s.newline == "\n" || rest != "")
    ensures DetectIndentUnit("{}" + rest) == s.unit && NewlineStyle("{}" + rest) == s.newline
  {
    hide Lines;
    var t := "{}" + rest;
    assert IsLine(t) by {
      assert forall k | 0 <= k < |t| - 1 :: t[k] != '\n';
    }
    assert Concat([t]) == t by {
      ConcatStep([t]);
      ConcatStep([t][1..]);
    }
    LinesOfConcat([t]);
    assert Content(t) == "{}";
    OneLineUnit(t);
    if s.newline == "\r\n" {
      assert t[2] == '\r' && t[3] == '\n';
    } else {
      assert forall k | 0 <= k < |t| :: t[k] != '\r';
    }
  }

  lemma OneLineUnit(line: string)
    requires Content(line) == "{}"
    ensures DetectFrom([line], None) == "  "
  {
    assert [line][1..] == [];
    assert BlankRun("{}", 0, 2) == 0 && "{}"[0..] == "{}" && !Whitespace("{}"[0]);
    assert DetectFrom([], Some(0)) == "  ";
  }

  /**
   * `set` of a dotted path on a text laid out by the rule gives the text of the changed layout, in the
   * same style, character for character; it fails if the way leads to something else than an object.
   */
  lemma SetStaysPretty(s: Style, l: Layout, ended: bool, ks: seq<string>, v: string)
    requires ShowsStyle(s, l, ended) && ks != [] && forall k | k in ks :: Plain(k)
    ensures var r := SetOne(File(s, l, ended), KV(Dotted(ks), v));
      && (CanPlace(l, ks) ==> r == Ok(File(s, Placed(l, ks, v), ended)))
      && (Barred(l, ks) ==> r.Err?)
  {
    hide Value, WellFormed, SetOne, Pretty, PrettyAt, EditObject, ShowsStyle;
    var t := File(s, l, ended);
    ShownIsProper(s, l, ended);
    FileStands(s, l, ended);
    PrettyValue(t, 0, s, l, "");
    SetIsEdit(s, l, ended, ks, v);
    if CanPlace(l, ks) {
      NotBarred(l, ks);
      EditIsPretty(t, 0, s, l, "", ks, v);
      WholeSpliced(Pretty(s, l, ""), if ended then s.newline else "", Pretty(s, Placed(l, ks, v), ""));
    } else if Barred(l, ks) {
      EditFails(t, 0, s, l, "", ks, v);
    }
  }

  lemma {:induction false} NotBarred(l: Layout, path: seq<string>)
    requires path != [] && CanPlace(l, path)
    ensures !Barred(l, path)
    decreases |path|
  {
    if |path| > 1 && FirstOf(l.fields, path[0]).Some? {
      NotBarred(l.fields[FirstOf(l.fields, path[0]).value].1, path[1..]);
    }
  }

  lemma ShownIsProper(s: Style, l: Layout, ended: bool)
    requires ShowsStyle(s, l, ended)
    ensures ProperStyle(s) && ProperLayout(l) && l.Obj?
  {
  }

  /** On such a text `set` is the edit of the object at its start, in the style it shows. */
  lemma SetIsEdit(s: Style, l: Layout, ended: bool, ks: seq<string>, v: string)
    requires ShowsStyle(s, l, ended) && ks != [] && forall k | k in ks :: Plain(k)
    ensures var t := File(s, l, ended);
      && Value(t, 0).Some? && WellFormed(t, Value(t, 0).value)
      && SetOne(t, KV(Dotted(ks), v)) == EditObject(t, Value(t, 0).value, ks, v, s.newline, s.unit)
  {
    hide Value, WellFormed, ParseDocument, Accepts, Segments, DetectIndentUnit, NewlineStyle, Pretty, EditObject, File, ShowsStyle;
    ShownIsProper(s, l, ended);
    FileParses(s, l, ended);
    StyleDetected(s, l, ended);
    SegmentsOfDotted(ks);
    StrictIsWellFormed(File(s, l, ended), 0);
  }

  lemma WholeSpliced(x: string, rest: string, y: string)
    ensures Splice(x + rest, 0, |x|, y) == y + rest
  {
    assert (x + rest)[..0] == "" && (x + rest)[|x|..] == rest;
  }

  lemma {:induction false} EditFails(t: string, i: nat, s: Style, l: Layout, indent: string, path: seq<string>, v: string)
    requires PrettyAt(t, i, s, l, indent) && path != [] && Barred(l, path)
    ensures Value(t, i).Some? && WellFormed(t, Value(t, i).value)
    ensures EditObject(t, Value(t, i).value, path, v, s.newline, s.unit).Err?
    decreases |path|
  {
    hide Value, WellFormed, Pretty, PrettyAt, LaidOut, InsertMember, MemberIndent, Splice, BuildMember;
    PrettyValue(t, i, s, l, indent);
    match l
    case Atom(x) => AtomIsNoObject(t, i, s, x, indent);
    case Obj(fields) =>
      var ms := Value(t, i).value.kind.members;
      LaidLength(t, i, s, fields, indent, ms);
      forall k | 0 <= k < |fields| ensures ms[k].key == fields[k].0 {
        MemberIsPretty(t, i, s, fields, indent, k);
      }
      SameFirst(ms, fields, path[0]);
      var k := FirstOf(fields, path[0]).value;
      MemberIsPretty(t, i, s, fields, indent, k);
      EditFails(t, ms[k].value.start, s, fields[k].1, indent + s.unit, path[1..], v);
  }

  lemma AtomIsNoObject(t: string, i: nat, s: Style, v: string, indent: string)
    requires PrettyAt(t, i, s, Atom(v), indent) && (v == "" || v[0] != '{')
    ensures Value(t, i).Some? ==> !Value(t, i).value.kind.Object?
  {
    hide Members, Elements, ScalarEnd, Delimited, InLine;
    PrettyNotEmpty(s, Atom(v), indent);
    StandsAt(t, i, v, 0);
  }
}
