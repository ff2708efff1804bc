/** `set` on a document: exactly the addressed path of the tree changes. */
module JsonSetLaws {
  import opened Text
  import opened JsonLexer
  import opened JsonStrict
  import opened JsonParser
  import opened JsonLocality
  import opened JsonCompose
  import opened JsonEdit
  import opened JsonMember
  import opened JsonInsert
  import opened JsonSet

  // ---- the edit on trees ------------------------------------------------------------------

  function FindKey(ms: seq<(string, Tree)>, key: string): (r: Option<nat>)
    ensures r.Some? ==> r.value < |ms| && ms[r.value].0 == key
  {
    if ms == [] then None
    else if ms[0].0 == key then Some(0)
    else
      match FindKey(ms[1..], key)
      case Some(i) => Some(i + 1)
      case None => None
  }

  /** The path runs through objects only, as far as it exists. */
  predicate Settable(tree: Tree, segments: seq<string>)
    requires segments != []
    decreases |segments|
  {
    && tree.Branch?
    && match FindKey(tree.members, segments[0])
       case Some(k) => |segments| == 1 || Settable(tree.members[k].1, segments[1..])
       case None => true
  }

  /** The first member on the path replaced, or the missing rest of the path appended. */
  function TreeSet(tree: Tree, segments: seq<string>, leaf: Tree): Tree
    requires segments != [] && Settable(tree, segments)
    decreases |segments|
  {
    var ms, key := tree.members, segments[0];
    match FindKey(ms, key)
    case Some(k) =>
      Branch(ms[k := (key, if |segments| == 1 then leaf else TreeSet(ms[k].1, segments[1..], leaf))])
    case None => Branch(ms + [(key, Chain(segments[1..], leaf))])
  }

  lemma {:induction false} FindSame(t: string, ms: seq<Member>, key: string)
    ensures FindKey(MemberTrees(t, ms), key) == FindMember(ms, key)
  {
    hide TreeOf;
    if ms != [] {
      FindSame(t, ms[1..], key);
      TreesSlice(t, ms, 1, |ms|);
      assert ms[1..|ms|] == ms[1..] && MemberTrees(t, ms)[1..|ms|] == MemberTrees(t, ms)[1..];
    }
  }

  // ---- the edit on texts --------------------------------------------------------------------

  /** The path ends in a new member of an object that holds nothing but a comma. */
  predicate StrayAt(t: string, node: Node, segments: seq<string>)
    requires segments != []
    decreases |segments|
  {
    && node.kind.Object?
    && match FindMember(node.kind.members, segments[0])
       case None => StrayComma(t, node)
       case Some(k) => |segments| > 1 && StrayAt(t, node.kind.members[k].value, segments[1..])
  }

  /** Outside the object's braces nothing changes. */
  ghost predicate Outside(t: string, u: string, i: nat, end: nat) {
    0 < end && Agree(t, u, 0, i + 1, 0) && Agree(t, u, end - 1, |t|, |u| - |t|)
  }

  /** What an edit leaves of the object at `i`: no value at all, or the edited tree. */
  ghost predicate BecomesTree(u: string, i: nat, end: int, stray: bool, tree: Tree) {
    && (Value(u, i).None? <==> stray)
    && (Value(u, i).Some? ==>
          && Value(u, i).value.end == end
          && Value(u, i).value.kind.Object?
          && TreeOf(u, Value(u, i).value) == tree)
  }

  lemma MemberPlace(t: string, i: nat, k: nat)
    requires Value(t, i).Some? && Value(t, i).value.kind.Object?
    requires k < |Value(t, i).value.kind.members|
    ensures var node := Value(t, i).value;
      var c := node.kind.members[k].value;
      && i < c.start < c.end < node.end <= |t|
      && t[i] == '{'
      && EndsBare(t[c.end])
      && Value(t, c.start) == Some(c)
      && WellFormed(t, c)
      && Solid(t, c.start)
  {
    hide Value, Members, WellFormed, Laid, MemberAt, Separator;
    var node := Value(t, i).value;
    ObjectMembers(t, i);
    ValueOpens(t, i);
    var (ms, end) := Members(t, i + 1, true).value;
    MembersAreLaid(t, i + 1, true);
    LaidOrder(t, ms, i + 1, end - 1, k);
    MembersFrom(t, i + 1, true, k);
    MembersStep(t, After(ms, i + 1, k), k == 0);
    MemberValue(t, ms[k].keyStart);
    ValueStartsSolid(t, ms[k].value.start);
    MembersFrom(t, i + 1, true, k + 1);
    HasSeparator(t, ms[k].value.end, false);
    DelimitedAfter(t, ms[k].value.end, '}');
  }

  lemma HasSeparator(t: string, p: nat, first: bool)
    requires p <= |t| && Members(t, p, first).Some?
    ensures Separator(t, p, first, '}').Some?
  {
    hide Separator, MemberAt;
  }

  lemma OutsideMember(t: string, u: string, i: nat, start: nat, end: nat, close: nat)
    requires i < start < end < close <= |t|
    requires Agree(t, u, 0, start, 0) && Agree(t, u, end, |t|, |u| - |t|)
    ensures Outside(t, u, i, close)
    ensures Agree(t, u, i, start, 0) && Agree(t, u, end, close, |u| - |t|)
  {
    hide Agree;
    Within(t, u, 0, start, 0, 0, i + 1);
    Within(t, u, 0, start, 0, i, start);
    Within(t, u, end, |t|, |u| - |t|, close - 1, |t|);
    Within(t, u, end, |t|, |u| - |t|, end, close);
  }

  /** A value text stands where member `k`'s value stood. */
  lemma LeafRevalued(t: string, i: nat, k: nat, v: string)
    requires Value(t, i).Some? && Value(t, i).value.kind.Object?
    requires k < |Value(t, i).value.kind.members| && IsValueText(v)
    ensures var node := Value(t, i).value;
      var c := node.kind.members[k].value;
      && c.start <= c.end <= |t|
      && var u := Splice(t, c.start, c.end, v);
         && Outside(t, u, i, node.end)
         && Revalued(t, u, i, k, |u| - |t|)
         && Stands(u, c.start, v) && Delimited(u, c.start + |v|)
  {
    hide Value, WellFormed, Agree, Stands, Solid, TreeOf, IsValueText, ValueTree;
    var node := Value(t, i).value;
    var c := node.kind.members[k].value;
    MemberPlace(t, i, k);
    var u := Splice(t, c.start, c.end, v);
    var d := |u| - |t|;
    SpliceAgree(t, u, c.start, c.end, v);
    AgreeFirst(t, u, c.end, |t|, d);
    PlacedValue(v, u, c.start);
    ValueStartsSolid(u, c.start);
    OutsideMember(t, u, i, c.start, c.end, node.end);
  }

  /** Replacing the value of a member that exists. */
  lemma ReplacedLeaf(t: string, i: nat, k: nat, v: string)
    requires Value(t, i).Some? && Value(t, i).value.kind.Object?
    requires k < |Value(t, i).value.kind.members| && IsValueText(v)
    ensures var node := Value(t, i).value;
      var m := node.kind.members[k];
      && m.value.start <= m.value.end <= |t|
      && var u := Splice(t, m.value.start, m.value.end, v);
         && Outside(t, u, i, node.end)
         && BecomesTree(u, i, node.end + (|u| - |t|), false,
                        Branch(MemberTrees(t, node.kind.members)[k := (m.key, ValueTree(v))]))
  {
    hide Value, Outside, Revalued, Stands, TreeOf, MemberTrees, IsValueText, ValueTree, Delimited;
    var c := Value(t, i).value.kind.members[k].value;
    LeafRevalued(t, i, k, v);
    var u := Splice(t, c.start, c.end, v);
    PlacedValue(v, u, c.start);
    ReplaceMemberValue(t, u, i, k, |u| - |t|);
  }

  lemma AgreeFirst(t: string, u: string, i: nat, j: nat, d: int)
    requires Agree(t, u, i, j, d) && i < j
    ensures 0 <= i + d < |u| && u[i + d] == t[i]
  {
  }

  /** An edit inside member `k` is one inside the object, and leaves the rest of it in place. */
  lemma InsideMember(t: string, u: string, i: nat, k: nat)
    requires Value(t, i).Some? && Value(t, i).value.kind.Object?
    requires k < |Value(t, i).value.kind.members|
    requires var c := Value(t, i).value.kind.members[k].value; Outside(t, u, c.start, c.end)
    ensures var node := Value(t, i).value;
      var c := node.kind.members[k].value;
      && Outside(t, u, i, node.end) && SameUpTo(t, u, i, k)
      && (Value(u, c.start).Some? && Value(u, c.start).value.end == c.end + (|u| - |t|)
          ==> Revalued(t, u, i, k, |u| - |t|))
  {
    hide Value, WellFormed, Agree, Solid;
    var node := Value(t, i).value;
    var c := node.kind.members[k].value;
    var d := |u| - |t|;
    MemberPlace(t, i, k);
    Within(t, u, 0, c.start + 1, 0, 0, c.start);
    Within(t, u, 0, c.start + 1, 0, c.start, c.start + 1);
    Within(t, u, c.end - 1, |t|, d, c.end, |t|);
    OutsideMember(t, u, i, c.start, c.end, node.end);
    SolidSame(t, u, c.start);
  }

  /** So the change is carried outwards. */
  lemma CarriedOut(t: string, u: string, i: nat, k: nat, stray: bool, tree: Tree)
    requires Value(t, i).Some? && Value(t, i).value.kind.Object?
    requires k < |Value(t, i).value.kind.members|
    requires var c := Value(t, i).value.kind.members[k].value;
      && Outside(t, u, c.start, c.end)
      && BecomesTree(u, c.start, c.end + (|u| - |t|), stray, tree)
    ensures var node := Value(t, i).value;
      var m := node.kind.members[k];
      && Outside(t, u, i, node.end)
      && BecomesTree(u, i, node.end + (|u| - |t|), stray,
                     Branch(MemberTrees(t, node.kind.members)[k := (m.key, tree)]))
  {
    hide Value, Outside, SameUpTo, Revalued, TreeOf, MemberTrees;
    InsideMember(t, u, i, k);
    if stray {
      RevaluedFails(t, u, i, k);
    } else {
      ReplaceMemberValue(t, u, i, k, |u| - |t|);
    }
  }

  lemma SolidSame(t: string, u: string, q: nat)
    requires q < |t| && q < |u| && u[q] == t[q] && Value(t, q).Some?
    ensures Solid(u, q)
  {
    ValueStartsSolid(t, q);
    SolidLocal(t, u, q, 0);
  }

  // ---- the whole path -----------------------------------------------------------------------

  /** The path is new from here: the edit is an insertion. */
  lemma EditInserts(t: string, i: nat, segments: seq<string>, v: string, newline: string, unit: string)
    requires Value(t, i).Some? && WellFormed(t, Value(t, i).value) && Value(t, i).value.kind.Object?
    requires segments != [] && BlankUnits(newline, unit) && IsValueText(v)
    requires FindMember(Value(t, i).value.kind.members, segments[0]).None?
    ensures var node := Value(t, i).value;
      var member := BuildMember(segments[0], segments[1..], v, MemberIndent(t, node, unit), newline, unit);
      var u := InsertMember(t, node, member, newline, unit);
      && Outside(t, u, i, node.end)
      && Settable(TreeOf(t, node), segments)
      && BecomesTree(u, i, node.end + (|u| - |t|), StrayComma(t, node), TreeSet(TreeOf(t, node), segments, ValueTree(v)))
  {
    hide Value, WellFormed, MemberIndent, BuildMember, InsertMember, InsertSpan, AddedComma, Lead, Separator,
      Members, Agree, Stands, StrayComma, ValueTree, Chain, IsValueText, MemberTrees, Delimited, TreeSet, Settable, FindKey,
      FindMember, TreeOf, Quote;
    var node := Value(t, i).value;
    var key, tail := segments[0], segments[1..];
    var member := BuildMember(key, tail, v, MemberIndent(t, node, unit), newline, unit);
    var u := InsertMember(t, node, member, newline, unit);
    BuiltStarts(key, tail, v, MemberIndent(t, node, unit), newline, unit);
    InsertedObject(t, i, member, newline, unit);
    Within(t, u, 0, LastEnd(node), 0, 0, i + 1);
    InsertedTree(t, i, key, tail, v, newline, unit);
    FindSame(t, node.kind.members, key);
    BranchTree(t, node);
    NewKeySet(TreeOf(t, node), segments, ValueTree(v));
  }

  lemma NewKeySet(tree: Tree, segments: seq<string>, leaf: Tree)
    requires tree.Branch? && segments != [] && FindKey(tree.members, segments[0]).None?
    ensures Settable(tree, segments)
    ensures TreeSet(tree, segments, leaf) == Branch(tree.members + [(segments[0], Chain(segments[1..], leaf))])
  {
  }

  lemma LeafTree(t: string, node: Node)
    requires !node.kind.Object?
    ensures TreeOf(t, node).Leaf?
  {
  }

  lemma SpliceSame(t: string, i: nat, j: nat)
    requires i <= j <= |t|
    ensures Splice(t, i, j, t[i..j]) == t
  {
  }

  /** The path ends in a member that exists: the edit replaces its value's text. */
  lemma EditReplaces(t: string, i: nat, segments: seq<string>, v: string, newline: string, unit: string)
    requires Value(t, i).Some? && WellFormed(t, Value(t, i).value) && Value(t, i).value.kind.Object?
    requires |segments| == 1 && IsValueText(v)
    requires FindMember(Value(t, i).value.kind.members, segments[0]).Some?
    ensures var node := Value(t, i).value;
      var r := EditObject(t, node, segments, v, newline, unit);
      && r.Ok?
      && Outside(t, r.value, i, node.end)
      && Settable(TreeOf(t, node), segments)
      && BecomesTree(r.value, i, node.end + (|r.value| - |t|), false, TreeSet(TreeOf(t, node), segments, ValueTree(v)))
  {
    hide Value, WellFormed, Outside, BecomesTree, ValueTree, IsValueText, MemberTrees;
    var node := Value(t, i).value;
    var k := FindMember(node.kind.members, segments[0]).value;
    var c := node.kind.members[k].value;
    MemberPlace(t, i, k);
    SpliceSame(t, c.start, c.end);
    ReplacedLeaf(t, i, k, v);
    FindSame(t, node.kind.members, segments[0]);
    BranchTree(t, node);
  }

  /** Along any path, `set` changes the tree at the path and the text inside the object only. */
  lemma {:induction false} EditTree(t: string, i: nat, segments: seq<string>, v: string, newline: string, unit: string)
    requires Value(t, i).Some? && WellFormed(t, Value(t, i).value) && Value(t, i).value.kind.Object?
    requires segments != [] && BlankUnits(newline, unit) && IsValueText(v)
    ensures var node := Value(t, i).value;
      var r := EditObject(t, node, segments, v, newline, unit);
      && (r.Ok? <==> Settable(TreeOf(t, node), segments))
      && (r.Ok? ==>
            && Outside(t, r.value, i, node.end)
            && BecomesTree(r.value, i, node.end + (|r.value| - |t|), StrayAt(t, node, segments),
                           TreeSet(TreeOf(t, node), segments, ValueTree(v))))
    decreases |segments|
  {
    hide Value, WellFormed, Outside, BecomesTree, ValueTree, IsValueText, MemberTrees, StrayComma,
      MemberIndent, BuildMember, InsertMember;
    var node := Value(t, i).value;
    var ms := node.kind.members;
    FindSame(t, ms, segments[0]);
    BranchTree(t, node);
    match FindMember(ms, segments[0])
    case None =>
      EditInserts(t, i, segments, v, newline, unit);
    case Some(k) =>
      if |segments| == 1 {
        EditReplaces(t, i, segments, v, newline, unit);
      } else {
        EditDescends(t, i, segments, v, newline, unit, k);
      }
  }

  lemma {:induction false} EditDescends(t: string, i: nat, segments: seq<string>, v: string, newline: string, unit: string, k: nat)
    requires Value(t, i).Some? && WellFormed(t, Value(t, i).value) && Value(t, i).value.kind.Object?
    requires |segments| > 1 && BlankUnits(newline, unit) && IsValueText(v)
    requires FindMember(Value(t, i).value.kind.members, segments[0]) == Some(k)
    ensures var node := Value(t, i).value;
      var r := EditObject(t, node, segments, v, newline, unit);
      && (r.Ok? <==> Settable(TreeOf(t, node), segments))
      && (r.Ok? ==>
            && Outside(t, r.value, i, node.end)
            && BecomesTree(r.value, i, node.end + (|r.value| - |t|), StrayAt(t, node, segments),
                           TreeSet(TreeOf(t, node), segments, ValueTree(v))))
    decreases |segments|, 0
  {
    hide Value, WellFormed, Outside, BecomesTree, ValueTree, IsValueText, MemberTrees, StrayComma,
      MemberIndent, BuildMember, InsertMember;
    var node := Value(t, i).value;
    var ms := node.kind.members;
    var c := ms[k].value;
    FindSame(t, ms, segments[0]);
    BranchTree(t, node);
    MemberPlace(t, i, k);
    TreeAt(t, ms, k);
    if c.kind.Object? {
      EditTree(t, c.start, segments[1..], v, newline, unit);
      var r := EditObject(t, c, segments[1..], v, newline, unit);
      if r.Ok? {
        CarriedOut(t, r.value, i, k, StrayAt(t, c, segments[1..]), TreeSet(TreeOf(t, c), segments[1..], ValueTree(v)));
      }
    } else {
      LeafTree(t, c);
    }
  }

  lemma TreeAt(t: string, ms: seq<Member>, k: nat)
    requires k < |ms|
    ensures MemberTrees(t, ms)[k] == (ms[k].key, TreeOf(t, ms[k].value))
  {
    hide TreeOf;
  }
}
