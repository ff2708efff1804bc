/**
 * Where a list of assignments meets an object that holds only a comma, told from the first text
 * and the assigned values alone.
 */
module JsonCommas {
  import opened Text
  import opened JsonLexer
  import opened JsonStrict
  import opened JsonParser
  import opened JsonLocality
  import opened JsonAgreement
  import opened JsonCompose
  import opened JsonReader
  import opened JsonEdit
  import opened JsonMember
  import opened JsonSet
  import opened JsonSetLaws
  import opened JsonDocument

  // ---- the same object elsewhere ------------------------------------------------------------------

  lemma {:induction false} SameFind(ms: seq<Member>, ns: seq<Member>, key: string)
    requires |ns| == |ms| && forall k | 0 <= k < |ms| :: ns[k].key == ms[k].key
    ensures FindMember(ns, key) == FindMember(ms, key)
  {
    if ms != [] {
      SameFind(ms[1..], ns[1..], key);
    }
  }

  lemma CommaLocal(t: string, u: string, n: Node, m: Node, d: int)
    requires Value(t, n.start) == Some(n) && Shifted(n, m, d) && Agree(t, u, n.start, n.end, d)
    ensures StrayComma(u, m) == StrayComma(t, n)
  {
    hide Value, Skip, Agree;
    if n.kind.Object? && n.kind.members == [] {
      ClosingZone(t, n.start);
      AgreeBounds(t, u, n.start, n.end, d);
      var p := Skip(t, n.start + 1);
      Within(t, u, n.start, n.end, d, n.start + 1, p);
      Within(t, u, n.start, n.end, d, p, p + 1);
      SolidLocal(t, u, p, d);
      SkipLocal(t, u, n.start + 1, d);
    }
  }

  lemma {:induction false} StrayLocal(t: string, u: string, n: Node, m: Node, d: int, q: seq<string>)
    requires q != [] && Value(t, n.start) == Some(n) && Shifted(n, m, d) && Agree(t, u, n.start, n.end, d)
    ensures StrayAt(u, m, q) == StrayAt(t, n, q)
    decreases |q|
  {
    hide Value, Agree, StrayComma, WellFormed;
    if n.kind.Object? {
      var ms, ns := n.kind.members, m.kind.members;
      forall k | 0 <= k < |ms| ensures ShiftedMember(ms[k], ns[k], d) {
      }
      SameFind(ms, ns, q[0]);
      match FindMember(ms, q[0])
      case None => CommaLocal(t, u, n, m, d);
      case Some(k) =>
        if |q| > 1 {
          MemberPlace(t, n.start, k);
          var c := ms[k].value;
          assert ShiftedMember(ms[k], ns[k], d);
          Within(t, u, n.start, n.end, d, c.start, c.end);
          StrayLocal(t, u, c, ns[k].value, d, q[1..]);
        }
    }
  }

  /** The path leads, inside the value, to an object that holds only a comma. */
  predicate StrayIn(v: string, q: seq<string>)
    requires IsValueText(v) && q != []
  {
    StrayAt(v, Value(v, 0).value, q)
  }

  lemma StrayPlaced(v: string, u: string, at: nat, q: seq<string>)
    requires IsValueText(v) && Stands(u, at, v) && Delimited(u, at + |v|) && q != []
    ensures Value(u, at).Some? && StrayAt(u, Value(u, at).value, q) == StrayIn(v, q)
  {
    hide Value, Shifted, StrayAt;
    AgreeFromStands(v, u, at);
    ValueLocal(v, u, 0, at);
    StrayLocal(v, u, Value(v, 0).value, Value(u, at).value, at, q);
  }

  // ---- a member whose value has changed ---------------------------------------------------------------

  /** The members of the object around a replaced value: the others, as they were or moved along. */
  lemma {:induction false} RevaluedMembers(t: string, u: string, i: nat, k: nat, d: int)
    requires Revalued(t, u, i, k, d)
    ensures Value(u, i).Some? && Value(u, i).value.kind.Object?
    ensures var (ms, ns) := (Value(t, i).value.kind.members, Value(u, i).value.kind.members);
      && |ns| == |ms|
      && (forall j | 0 <= j < k :: ns[j] == ms[j])
      && ns[k].key == ms[k].key && Value(u, ms[k].value.start) == Some(ns[k].value)
      && (forall j | k < j < |ms| :: ShiftedMember(ms[j], ns[j], d))
  {
    hide Members, Agree, Value, MemberTrees, ShiftedMember, Separator, MemberAt, Revalued, Delimited, SameUpTo, TreeOf;
    RevaluedParts(t, u, i, k, d);
    var node := Value(t, i).value;
    var ms, c := node.kind.members, node.kind.members[k].value;
    RevaluedList(t, u, i, k, d);
    KeepPrefix(t, u, i, k);
    ObjectMembers(t, i);
    MembersFrom(t, i + 1, true, k + 1);
    MembersLocal(t, u, c.end, false, d);
    var rest := Members(u, c.end + d, false).value.0;
    var own := Member(ms[k].key, ms[k].keyStart, Value(u, c.start).value);
    assert Value(u, i).value.kind.members == ms[..k] + ([own] + rest);
    forall j | k < j < |ms| ensures ShiftedMember(ms[j], (ms[..k] + ([own] + rest))[j], d) {
      assert ms[k + 1..][j - k - 1] == ms[j];
      assert ShiftedMember(ms[k + 1..][j - k - 1], rest[j - k - 1], d);
    }
  }

  lemma {:induction false} StrayRevalued(t: string, u: string, i: nat, k: nat, d: int, q: seq<string>)
    requires Revalued(t, u, i, k, d) && q != []
    requires FindMember(Value(t, i).value.kind.members, Value(t, i).value.kind.members[k].key) == Some(k)
    ensures Value(u, i).Some?
    ensures var node := Value(t, i).value;
      var m := node.kind.members[k];
      StrayAt(u, Value(u, i).value, q) ==
      if q[0] == m.key then |q| > 1 && StrayAt(u, Value(u, m.value.start).value, q[1..]) else StrayAt(t, node, q)
  {
    hide Value, Agree, Revalued, StrayAt, SameUpTo;
    RevaluedParts(t, u, i, k, d);
    RevaluedMembers(t, u, i, k, d);
    var node, after := Value(t, i).value, Value(u, i).value;
    var ms, ns := node.kind.members, after.kind.members;
    forall j | 0 <= j < |ms| ensures ns[j].key == ms[j].key {
      assert j > k ==> ShiftedMember(ms[j], ns[j], d);
    }
    SameFind(ms, ns, q[0]);
    StrayStep(t, node, q);
    StrayStep(u, after, q);
    var found := FindMember(ms, q[0]);
    if found.Some? && found.value != k && |q| > 1 {
      var j := found.value;
      MemberPlace(t, i, j);
      MemberPlace(t, i, k);
      OtherAgrees(t, u, i, k, d, j);
      if j < k {
        ShiftedSelf(ms[j].value);
        StrayLocal(t, u, ms[j].value, ns[j].value, 0, q[1..]);
      } else {
        StrayLocal(t, u, ms[j].value, ns[j].value, d, q[1..]);
      }
    }
  }

  lemma StrayStep(t: string, node: Node, q: seq<string>)
    requires node.kind.Object? && q != []
    ensures StrayAt(t, node, q) == match FindMember(node.kind.members, q[0])
      case None => StrayComma(t, node)
      case Some(k) => |q| > 1 && StrayAt(t, node.kind.members[k].value, q[1..])
    ensures node.kind.members != [] ==> !StrayComma(t, node)
  {
    hide Skip;
  }

  /** The text of another member is the same. */
  lemma OtherAgrees(t: string, u: string, i: nat, k: nat, d: int, j: nat)
    requires Revalued(t, u, i, k, d) && j < |Value(t, i).value.kind.members| && j != k
    ensures var c := Value(t, i).value.kind.members[j].value;
      Agree(t, u, c.start, c.end, if j < k then 0 else d)
  {
    hide Value, Agree, WellFormed, Solid, Laid;
    var node := Value(t, i).value;
    var ms := node.kind.members;
    StrictIsWellFormed(t, i);
    ObjectIsLaid(t, node);
    LaidOrder(t, ms, node.start + 1, node.end - 1, j);
    LaidOrder(t, ms, node.start + 1, node.end - 1, k);
    if j < k {
      EndsGrow(t, ms, node.start + 1, node.end - 1, j, k);
      Within(t, u, i, ms[k].value.start, 0, ms[j].value.start, ms[j].value.end);
    } else {
      EndsGrow(t, ms, node.start + 1, node.end - 1, k, j);
      Within(t, u, ms[k].value.end, node.end, d, ms[j].value.start, ms[j].value.end);
    }
  }

  // ---- the new member ---------------------------------------------------------------------------------

  /** The path goes on behind `p`. */
  predicate Below(p: seq<string>, q: seq<string>) {
    |p| < |q| && q[..|p|] == p
  }

  lemma BelowStep(p: seq<string>, q: seq<string>)
    requires p != [] && q != []
    ensures Below(p, q) <==> q[0] == p[0] && |q| > 1 && Below(p[1..], q[1..])
    ensures Below(p, q) ==> q[|p|..] == q[1..][|p| - 1..] && q[|p|..] != []
  {
    if q[0] == p[0] && |q| > 1 && Below(p[1..], q[1..]) {
      assert q == [q[0]] + q[1..] && p == [p[0]] + p[1..];
      assert q[..|p|] == [q[0]] + q[1..][..|p| - 1];
    }
    if Below(p, q) {
      assert q[1..][..|p| - 1] == q[..|p|][1..];
    }
  }

  predicate StrayBelow(p: seq<string>, v: string, q: seq<string>)
    requires IsValueText(v)
  {
    Below(p, q) && StrayIn(v, q[|p|..])
  }

  lemma StrayBelowStep(p: seq<string>, v: string, q: seq<string>)
    requires IsValueText(v) && p != [] && q != []
    ensures StrayBelow(p, v, q) <==> q[0] == p[0] && |q| > 1 && StrayBelow(p[1..], v, q[1..])
  {
    hide StrayIn, Below, IsValueText;
    BelowStep(p, q);
  }

  lemma StrayBelowNothing(v: string, q: seq<string>)
    requires IsValueText(v) && q != []
    ensures StrayBelow([], v, q) == StrayIn(v, q)
  {
    assert q[0..] == q && q[..0] == [];
  }

  lemma StraySingle(u: string, m: Member, i: nat, end: nat, q: seq<string>)
    requires q != []
    ensures StrayAt(u, Node(Object([m]), i, end), q) == (q[0] == m.key && |q| > 1 && StrayAt(u, m.value, q[1..]))
  {
    hide StrayComma;
    var node := Node(Object([m]), i, end);
    StrayStep(u, node, q);
    assert FindMember([m], q[0]) == if m.key == q[0] then Some(0) else None;
  }

  /** In the text built for a new path only the value can hold such an object. */
  lemma {:induction false} StrayBuilt(u: string, at: nat, key: string, tail: seq<string>, v: string,
                                      indent: string, newline: string, unit: string, q: seq<string>)
    requires IsValueText(v) && JsonBlank(indent) && JsonBlank(newline) && JsonBlank(unit) && newline != "" && q != []
    requires Stands(u, at, BuildMember(key, tail, v, indent, newline, unit))
    requires Delimited(u, at + |BuildMember(key, tail, v, indent, newline, unit)|)
    ensures at < |u| && MemberAt(u, at).Some?
    ensures StrayAt(u, MemberAt(u, at).value.value, q) == StrayBelow(tail, v, q)
    decreases |tail|
  {
    hide Value, Skip, MemberAt, MemberHead, TreeOf, Quote, Stands, StrayAt, StrayIn, StrayBelow, Delimited;
    BuiltMemberParses(u, at, key, tail, v, indent, newline, unit);
    var head := Quote(key) + ": ";
    var start := at + |head|;
    if tail == [] {
      StandsPart(u, at, head, v);
      StrayPlaced(v, u, start, q);
      StrayBelowNothing(v, q);
      ValueStartsSolid(u, start);
    } else {
      var child, gap := indent + unit, newline + indent;
      var inner := BuildMember(tail[0], tail[1..], v, child, newline, unit);
      var open := newline + child;
      BuiltShape(key, tail, v, indent, newline, unit);
      StandsPart(u, at, head, ("{" + open) + inner + (gap + "}"));
      StandsPart(u, start, ("{" + open) + inner, gap + "}");
      StandsPart(u, start, "{" + open, inner);
      StrayNested(u, start, tail, v, child, newline, unit, inner, gap, q);
    }
    HeadParses(u, at, key);
    MemberFromParts(u, at, key, start);
  }

  lemma {:induction false} StrayNested(u: string, i: nat, tail: seq<string>, v: string, child: string,
                     newline: string, unit: string, inner: string, gap: string, q: seq<string>)
    requires tail != [] && IsValueText(v) && q != []
    requires JsonBlank(child) && JsonBlank(newline) && JsonBlank(gap) && JsonBlank(unit)
    requires newline != "" && gap != ""
    requires inner == BuildMember(tail[0], tail[1..], v, child, newline, unit)
    requires Stands(u, i, "{" + (newline + child))
    requires Stands(u, i + 1 + |newline + child|, inner)
    requires Stands(u, i + 1 + |newline + child| + |inner|, gap + "}")
    ensures Solid(u, i) && Value(u, i).Some?
    ensures StrayAt(u, Value(u, i).value, q) == StrayBelow(tail, v, q)
    decreases |tail|, 0
  {
    hide Value, Skip, MemberAt, TreeOf, BuildMember, Stands, Solid, StrayAt, StrayIn, StrayBelow;
    var open := newline + child;
    var at := i + 1 + |open|;
    WrapMember(u, i, open, inner, gap);
    BuiltMemberParses(u, at, tail[0], tail[1..], v, child, newline, unit);
    StraySingle(u, MemberAt(u, at).value, i, at + |inner| + |gap| + 1, q);
    StrayBelowStep(tail, v, q);
    if |q| > 1 {
      StrayBuilt(u, at, tail[0], tail[1..], v, child, newline, unit, q[1..]);
    }
  }

  /** The inserted member stands behind the others, which stay where they were. */
  lemma InsertedMembers(t: string, i: nat, key: string, tail: seq<string>, v: string, newline: string, unit: string)
    returns (at: nat)
    requires Value(t, i).Some? && Value(t, i).value.kind.Object?
    requires WellFormed(t, Value(t, i).value) && BlankUnits(newline, unit) && IsValueText(v)
    requires !StrayComma(t, Value(t, i).value)
    ensures var node := Value(t, i).value;
      var member := BuildMember(key, tail, v, MemberIndent(t, node, unit), newline, unit);
      var u := InsertMember(t, node, member, newline, unit);
      && Agree(t, u, 0, LastEnd(node), 0)
      && Stands(u, at, member) && Delimited(u, at + |member|)
      && at < |u| && MemberAt(u, at).Some? && MemberAt(u, at).value.key == key
      && Value(u, i).Some?
      && Value(u, i).value.kind == Object(node.kind.members + [MemberAt(u, at).value])
  {
    hide Value, WellFormed, MemberIndent, BuildMember, InsertMember, InsertSpan, AddedComma, Lead,
      Separator, Members, MemberAt, Agree, Stands, StrayComma, TreeOf, ValueTree, Chain, IsValueText;
    var node := Value(t, i).value;
    var indent := MemberIndent(t, node, unit);
    var member := BuildMember(key, tail, v, indent, newline, unit);
    var u := InsertMember(t, node, member, newline, unit);
    var ms, e := node.kind.members, LastEnd(node);
    at := InsertSpan(t, node).0 + |AddedComma(t, node)| + |Lead(t, node, newline, unit)|;
    BuiltStarts(key, tail, v, indent, newline, unit);
    InsertedObject(t, i, member, newline, unit);
    ValueOpens(t, i);
    Within(t, u, 0, e, 0, i, e);
    AgreeBounds(t, u, 0, e, 0);
    KeepPrefix(t, u, i, |ms|);
    BlankIndent(indent);
    BlankIndent(unit);
    BuiltMemberParses(u, at, key, tail, v, indent, newline, unit);
    var m := MemberAt(u, at).value;
    MembersCons(u, e, ms == [], m);
    assert [m] + [] == [m] && ms[..|ms|] == ms;
  }

  lemma {:induction false} FindAppended(ms: seq<Member>, m: Member, key: string)
    ensures FindMember(ms + [m], key)
         == if FindMember(ms, key).Some? then FindMember(ms, key) else if m.key == key then Some(|ms|) else None
  {
    if ms == [] {
      assert [] + [m] == [m] && [m][1..] == [];
    } else {
      FindAppended(ms[1..], m, key);
      assert (ms + [m])[1..] == ms[1..] + [m];
    }
  }

  // ---- one assignment along its path --------------------------------------------------------------------

  /** What an accepted edit leaves of such objects: those in the value, at its path, and else those there were. */
  predicate StrayAfter(t: string, node: Node, segments: seq<string>, v: string, q: seq<string>)
    requires segments != [] && IsValueText(v) && q != []
  {
    if Below(segments, q) then StrayIn(v, q[|segments|..]) else StrayAt(t, node, q)
  }

  lemma {:induction false} StrayInserted(t: string, i: nat, segments: seq<string>, v: string, newline: string, unit: string,
                                         q: seq<string>)
    requires Value(t, i).Some? && WellFormed(t, Value(t, i).value) && Value(t, i).value.kind.Object?
    requires segments != [] && BlankUnits(newline, unit) && IsValueText(v) && q != []
    requires FindMember(Value(t, i).value.kind.members, segments[0]).None? && !StrayComma(t, Value(t, i).value)
    ensures var node := Value(t, i).value;
      var member := BuildMember(segments[0], segments[1..], v, MemberIndent(t, node, unit), newline, unit);
      var u := InsertMember(t, node, member, newline, unit);
      Value(u, i).Some? && StrayAt(u, Value(u, i).value, q) == StrayAfter(t, node, segments, v, q)
  {
    hide Value, WellFormed, MemberIndent, BuildMember, InsertMember, MemberAt, Agree, Stands, StrayComma, IsValueText,
      StrayAt, StrayIn, Below, Delimited, FindMember;
    var node := Value(t, i).value;
    var ms, indent := node.kind.members, MemberIndent(t, node, unit);
    var u := InsertMember(t, node, BuildMember(segments[0], segments[1..], v, indent, newline, unit), newline, unit);
    var at := InsertedMembers(t, i, segments[0], segments[1..], v, newline, unit);
    var m := MemberAt(u, at).value;
    StrayStep(t, node, q);
    StrayStep(u, Value(u, i).value, q);
    FindAppended(ms, m, q[0]);
    BelowStep(segments, q);
    match FindMember(ms, q[0])
    case Some(j) =>
      if |q| > 1 {
        MemberPlace(t, i, j);
        KeptMember(t, u, i, j);
        ShiftedSelf(ms[j].value);
        StrayLocal(t, u, ms[j].value, ms[j].value, 0, q[1..]);
      }
    case None =>
      if q[0] == segments[0] && |q| > 1 {
        BlankIndent(indent);
        BlankIndent(unit);
        StrayBuilt(u, at, segments[0], segments[1..], v, indent, newline, unit, q[1..]);
      }
  }

  lemma KeptMember(t: string, u: string, i: nat, j: nat)
    requires Value(t, i).Some? && Value(t, i).value.kind.Object? && j < |Value(t, i).value.kind.members|
    requires Agree(t, u, 0, LastEnd(Value(t, i).value), 0)
    ensures var c := Value(t, i).value.kind.members[j].value; Agree(t, u, c.start, c.end, 0)
  {
    hide Value, Agree, WellFormed, Laid;
    var node := Value(t, i).value;
    var ms := node.kind.members;
    StrictIsWellFormed(t, i);
    ObjectIsLaid(t, node);
    LaidOrder(t, ms, node.start + 1, node.end - 1, j);
    EndsGrow(t, ms, node.start + 1, node.end - 1, j, |ms| - 1);
    Within(t, u, 0, LastEnd(node), 0, ms[j].value.start, ms[j].value.end);
  }

  lemma StrayReplaced(t: string, i: nat, segments: seq<string>, v: string, k: nat, q: seq<string>)
    requires Value(t, i).Some? && Value(t, i).value.kind.Object?
    requires |segments| == 1 && IsValueText(v) && q != []
    requires FindMember(Value(t, i).value.kind.members, segments[0]) == Some(k)
    ensures var node := Value(t, i).value;
      var c := node.kind.members[k].value;
      && c.start <= c.end <= |t|
      && var u := Splice(t, c.start, c.end, v);
         Value(u, i).Some? && StrayAt(u, Value(u, i).value, q) == StrayAfter(t, node, segments, v, q)
  {
    hide Value, Outside, Revalued, Stands, IsValueText, Delimited, StrayAt, StrayIn, Below;
    var node := Value(t, i).value;
    var c := node.kind.members[k].value;
    LeafRevalued(t, i, k, v);
    var u := Splice(t, c.start, c.end, v);
    StrayRevalued(t, u, i, k, |u| - |t|, q);
    StrayStep(t, node, q);
    BelowStep(segments, q);
    if |q| > 1 {
      StrayPlaced(v, u, c.start, q[1..]);
      BelowNothing(q[1..]);
      assert segments[1..] == [];
    }
  }

  lemma BelowNothing(q: seq<string>)
    requires q != []
    ensures Below([], q) && q[0..] == q
  {
  }

  /** Along any path: the edit's effect on every other path's chance to meet a lone comma. */
  lemma {:induction false} StrayEdited(t: string, i: nat, segments: seq<string>, v: string, newline: string, unit: string,
                                       q: seq<string>)
    requires Value(t, i).Some? && WellFormed(t, Value(t, i).value) && Value(t, i).value.kind.Object?
    requires segments != [] && BlankUnits(newline, unit) && IsValueText(v) && q != []
    requires EditObject(t, Value(t, i).value, segments, v, newline, unit).Ok?
    requires !StrayAt(t, Value(t, i).value, segments)
    ensures var node := Value(t, i).value;
      var u := EditObject(t, node, segments, v, newline, unit).value;
      Value(u, i).Some? && StrayAt(u, Value(u, i).value, q) == StrayAfter(t, node, segments, v, q)
    decreases |segments|
  {
    hide Value, WellFormed, IsValueText, StrayComma, MemberIndent, BuildMember, InsertMember, StrayAfter, Below, StrayIn;
    var node := Value(t, i).value;
    var ms := node.kind.members;
    match FindMember(ms, segments[0])
    case None =>
      StrayInserted(t, i, segments, v, newline, unit, q);
    case Some(k) =>
      var c := ms[k].value;
      MemberPlace(t, i, k);
      if |segments| == 1 {
        SpliceSame(t, c.start, c.end);
        StrayReplaced(t, i, segments, v, k, q);
      } else {
        StrayDescends(t, i, segments, v, newline, unit, k, q);
      }
  }

  lemma {:induction false} StrayDescends(t: string, i: nat, segments: seq<string>, v: string, newline: string, unit: string,
                                         k: nat, q: seq<string>)
    requires Value(t, i).Some? && WellFormed(t, Value(t, i).value) && Value(t, i).value.kind.Object?
    requires |segments| > 1 && BlankUnits(newline, unit) && IsValueText(v) && q != []
    requires FindMember(Value(t, i).value.kind.members, segments[0]) == Some(k)
    requires EditObject(t, Value(t, i).value, segments, v, newline, unit).Ok?
    requires !StrayAt(t, Value(t, i).value, segments)
    ensures var node := Value(t, i).value;
      var u := EditObject(t, node, segments, v, newline, unit).value;
      Value(u, i).Some? && StrayAt(u, Value(u, i).value, q) == StrayAfter(t, node, segments, v, q)
    decreases |segments|, 0
  {
    hide Value, WellFormed, IsValueText, StrayComma, MemberIndent, BuildMember, InsertMember, Below, StrayIn, TreeOf,
      Outside, Revalued, SameUpTo, ValueTree, TreeSet, Settable;
    var node := Value(t, i).value;
    var ms := node.kind.members;
    var c := ms[k].value;
    MemberPlace(t, i, k);
    var u := EditObject(t, c, segments[1..], v, newline, unit).value;
    EditTree(t, c.start, segments[1..], v, newline, unit);
    InsideMember(t, u, i, k);
    StrayRevalued(t, u, i, k, |u| - |t|, q);
    StrayStep(t, node, q);
    BelowStep(segments, q);
    if |q| > 1 {
      StrayEdited(t, c.start, segments[1..], v, newline, unit, q[1..]);
    }
  }

  // ---- whole documents and lists ------------------------------------------------------------------------

  lemma StrayDocument(t: string, kv: KV, q: seq<string>)
    requires CanSet(t, kv.path) && IsValueText(kv.text) && !InsertsBesideComma(t, kv.path) && q != []
    ensures SetOne(t, kv).Ok?
    ensures var u := SetOne(t, kv).value;
      && Accepts(u) && ObjectDocument(u)
      && StrayAt(u, ParseDocument(u).value, q)
         == StrayAfter(t, ParseDocument(t).value, Segments(kv.path), kv.text, q)
  {
    hide Accepts, ParseDocument, Value, Skip, WellFormed, LeftOpen, EditObject, Outside, BecomesTree, TreeOf, StrayAt,
      StrayAfter, IsValueText, Segments, Settable, BlankUnits, ValueTree, TreeSet, DetectIndentUnit, NewlineStyle;
    var root, segments := ParseDocument(t).value, Segments(kv.path);
    var newline, unit := NewlineStyle(t), DetectIndentUnit(t);
    SetOneLaw(t, kv);
    RootIsObject(t);
    EditableText(t);
    NewlineIsBlank(t);
    EditTree(t, root.start, segments, kv.text, newline, unit);
    StrayEdited(t, root.start, segments, kv.text, newline, unit, q);
    var u := SetOne(t, kv).value;
    RootStays(t, u, root.start, root.end);
    RootIsObject(u);
    EditableText(u);
  }

  /**
   * After the assignments `done`, the path leads to an object that holds only a comma: inside the
   * value of the last of them whose path it goes on from, and otherwise in the first text.
   */
  predicate MeetsAt(t: string, done: seq<KV>, q: seq<string>)
    requires ObjectDocument(t) && ValueTexts(done) && q != []
    decreases |done|
  {
    if done == [] then StrayAt(t, ParseDocument(t).value, q)
    else
      var last := done[|done| - 1];
      var p := Segments(last.path);
      if Below(p, q) then StrayIn(last.text, q[|p|..]) else MeetsAt(t, done[..|done| - 1], q)
  }

  /** Some assignment of the list finds one there. */
  predicate MeetsLoneComma(t: string, kvs: seq<KV>)
    requires ObjectDocument(t) && ValueTexts(kvs)
  {
    exists j | 0 <= j < |kvs| ::
      var q := Segments(kvs[j].path); q != [] && MeetsAt(t, kvs[..j], q)
  }

  lemma MeetsAtStep(t: string, done: seq<KV>, last: KV, q: seq<string>)
    requires ObjectDocument(t) && ValueTexts(done) && IsValueText(last.text) && q != []
    ensures ValueTexts(done + [last])
    ensures MeetsAt(t, done + [last], q)
         == if Below(Segments(last.path), q) then StrayIn(last.text, q[|Segments(last.path)|..]) else MeetsAt(t, done, q)
  {
    hide ObjectDocument, IsValueText, Segments, StrayAt, StrayIn, Below;
    assert (done + [last])[..|done|] == done;
  }

  lemma TextsCons(kv: KV, rest: seq<KV>)
    requires IsValueText(kv.text) && ValueTexts(rest)
    ensures ValueTexts([kv] + rest)
    ensures rest != [] ==> ValueTexts(rest[..|rest| - 1]) && IsValueText(rest[|rest| - 1].text)
  {
    hide IsValueText;
  }

  lemma MeetsAfterOne(t: string, kv: KV, q: seq<string>)
    requires IsValueText(kv.text) && q != [] && CanSet(t, kv.path) && !InsertsBesideComma(t, kv.path)
    ensures SetOne(t, kv).Ok? && ObjectDocument(SetOne(t, kv).value) && ObjectDocument(t)
    ensures MeetsAt(SetOne(t, kv).value, [], q) == MeetsAt(t, [kv], q)
  {
    hide CanSet, ObjectDocument, SetOne, InsertsBesideComma, IsValueText, Segments, StrayAt, StrayIn, Below, MeetsAt;
    CanSetIsObject(t, kv.path);
    StrayDocument(t, kv, q);
    MeetsNothing(t, q);
    MeetsNothing(SetOne(t, kv).value, q);
    MeetsAtStep(t, [], kv, q);
    assert [kv] == [] + [kv];
  }

  /** Documents that lead to a lone comma alike still do after one more assignment. */
  lemma MeetsAlike(t: string, a: seq<KV>, u: string, b: seq<KV>, last: KV, q: seq<string>)
    requires ObjectDocument(t) && ObjectDocument(u) && ValueTexts(a) && ValueTexts(b) && IsValueText(last.text) && q != []
    requires MeetsAt(t, a, q) == MeetsAt(u, b, q)
    ensures ValueTexts(a + [last]) && ValueTexts(b + [last])
    ensures MeetsAt(t, a + [last], q) == MeetsAt(u, b + [last], q)
  {
    hide ObjectDocument, IsValueText, Segments, StrayIn, Below, MeetsAt, ValueTexts;
    MeetsAtStep(t, a, last, q);
    MeetsAtStep(u, b, last, q);
  }

  lemma {:induction false} MeetsAfterFirst(t: string, kv: KV, rest: seq<KV>, q: seq<string>)
    requires IsValueText(kv.text) && ValueTexts(rest) && q != []
    requires CanSet(t, kv.path) && !InsertsBesideComma(t, kv.path)
    ensures SetOne(t, kv).Ok? && ObjectDocument(SetOne(t, kv).value) && ObjectDocument(t) && ValueTexts([kv] + rest)
    ensures MeetsAt(SetOne(t, kv).value, rest, q) == MeetsAt(t, [kv] + rest, q)
    decreases |rest|
  {
    hide CanSet, ObjectDocument, SetOne, InsertsBesideComma, IsValueText, MeetsAt, ValueTexts;
    TextsCons(kv, rest);
    if rest == [] {
      MeetsAfterOne(t, kv, q);
      assert [kv] + rest == [kv];
    } else {
      var most, last := rest[..|rest| - 1], rest[|rest| - 1];
      MeetsAfterFirst(t, kv, most, q);
      MeetsAlike(SetOne(t, kv).value, most, t, [kv] + most, last, q);
      assert most + [last] == rest;
      assert [kv] + rest == ([kv] + most) + [last];
    }
  }

  lemma MeetsNothing(t: string, q: seq<string>)
    requires ObjectDocument(t) && q != []
    ensures MeetsAt(t, [], q) == StrayAt(t, ParseDocument(t).value, q)
  {
  }

  lemma {:induction false} MeetsFromFirst(t: string, kvs: seq<KV>)
    requires Accepts(t) && ObjectDocument(t) && ValueTexts(kvs) && AllSettable(DocumentTree(t), kvs)
    ensures MeetsComma(t, kvs) <==> MeetsLoneComma(t, kvs)
    decreases |kvs|
  {
    hide Accepts, ObjectDocument, DocumentTree, SetOne, InsertsBesideComma, IsValueText, Segments, CanSet, AllSettable,
      MeetsComma, MeetsAt, TreeSet, ValueTree;
    RootIsObject(t);
    if kvs == [] {
      NoAssignment(t, DocumentTree(t));
    } else {
      SettableStep(t, kvs);
      SetOneLaw(t, kvs[0]);
      MeetsStep(t, kvs);
      MeetsFirst(t, kvs);
      if !InsertsBesideComma(t, kvs[0].path) {
        var u, rest := SetOne(t, kvs[0]).value, kvs[1..];
        MeetsFromFirst(u, rest);
        forall j | 0 < j < |kvs| && Segments(kvs[j].path) != []
          ensures MeetsAt(t, kvs[..j], Segments(kvs[j].path)) == MeetsAt(u, rest[..j - 1], Segments(rest[j - 1].path))
        {
          assert kvs[..j] == [kvs[0]] + rest[..j - 1];
          MeetsAfterFirst(t, kvs[0], rest[..j - 1], Segments(kvs[j].path));
        }
        if MeetsLoneComma(u, rest) {
          var j :| 0 <= j < |rest| && Segments(rest[j].path) != [] && MeetsAt(u, rest[..j], Segments(rest[j].path));
          assert kvs[j + 1] == rest[j];
        }
        if MeetsLoneComma(t, kvs) {
          var j :| 0 <= j < |kvs| && Segments(kvs[j].path) != [] && MeetsAt(t, kvs[..j], Segments(kvs[j].path));
          assert kvs[j] == rest[j - 1];
        }
      }
    }
  }

  lemma MeetsFirst(t: string, kvs: seq<KV>)
    requires kvs != [] && ValueTexts(kvs) && CanSet(t, kvs[0].path)
    ensures ObjectDocument(t) && Segments(kvs[0].path) != []
    ensures MeetsAt(t, kvs[..0], Segments(kvs[0].path)) == InsertsBesideComma(t, kvs[0].path)
  {
    hide Accepts, StrayAt, Settable, Segments;
  }

  lemma {:induction false} SettablePrefix(tree: Tree, kvs: seq<KV>, n: nat)
    requires ValueTexts(kvs) && AllSettable(tree, kvs) && n <= |kvs|
    ensures AllSettable(tree, kvs[..n])
    decreases n
  {
    hide Settable, TreeSet, IsValueText, Segments, ValueTree;
    if n > 0 {
      SettablePrefix(TreeSet(tree, Segments(kvs[0].path), ValueTree(kvs[0].text)), kvs[1..], n - 1);
      assert kvs[..n][1..] == kvs[1..][..n - 1];
    }
  }

  /**
   * A list of assignments succeeds exactly if its paths run through objects and none but the last
   * leads to an object that holds only a comma; its output is accepted exactly if the last does
   * not either, and then exactly those changes have been made, in order.
   */
  lemma SetListLaw(t: string, kvs: seq<KV>)
    requires Accepts(t) && ObjectDocument(t) && ValueTexts(kvs)
    ensures kvs != [] ==>
      (SetAll(t, kvs).Ok? <==> AllSettable(DocumentTree(t), kvs) && !MeetsLoneComma(t, kvs[..|kvs| - 1]))
    ensures SetAll(t, kvs).Ok? ==>
      var u := SetAll(t, kvs).value;
      && AllSettable(DocumentTree(t), kvs)
      && (Accepts(u) <==> !MeetsLoneComma(t, kvs))
      && (Accepts(u) ==> ObjectDocument(u) && DocumentTree(u) == TreeSetAll(DocumentTree(t), kvs))
  {
    hide Accepts, ObjectDocument, DocumentTree, SetAll, MeetsComma, MeetsLoneComma, AllSettable, TreeSetAll, IsValueText;
    RootIsObject(t);
    SetAllLaw(t, kvs);
    if AllSettable(DocumentTree(t), kvs) {
      MeetsFromFirst(t, kvs);
      if kvs != [] {
        SettablePrefix(DocumentTree(t), kvs, |kvs| - 1);
        MeetsFromFirst(t, kvs[..|kvs| - 1]);
      }
    }
  }

  /**
   * `set` succeeds exactly on an object, or on a text without content, with paths through objects;
   * it keeps the byte order mark and sets every path, in order, on the rest.
   */
  lemma SetOnFirst(original: string, kvs: seq<KV>)
    requires ValueTexts(kvs) && kvs != []
    ensures var base := Normalized(SplitBom(original).1);
      Set(original, kvs).Ok?
      <==> && Accepts(base) && ObjectDocument(base)
           && AllSettable(DocumentTree(base), kvs) && !MeetsLoneComma(base, kvs[..|kvs| - 1])
    ensures Set(original, kvs).Ok? ==>
      var (bom, body) := SplitBom(original);
      var (bom2, u) := SplitBom(Set(original, kvs).value);
      && bom2 == bom
      && (Accepts(u) <==> !MeetsLoneComma(Normalized(body), kvs))
      && (Accepts(u) ==> ObjectDocument(u) && DocumentTree(u) == TreeSetAll(DocumentTree(Normalized(body)), kvs))
  {
    hide Accepts, ObjectDocument, DocumentTree, Set, MeetsComma, MeetsLoneComma, AllSettable, TreeSetAll, IsValueText,
      Normalized, SplitBom;
    var base := Normalized(SplitBom(original).1);
    SetLaw(original, kvs);
    if Accepts(base) && ObjectDocument(base) {
      RootIsObject(base);
      if AllSettable(DocumentTree(base), kvs) {
        MeetsFromFirst(base, kvs);
        SettablePrefix(DocumentTree(base), kvs, |kvs| - 1);
        MeetsFromFirst(base, kvs[..|kvs| - 1]);
      }
    }
  }
}
