/** `del` on documents: exactly when it leaves a document, and that it removes one member. */
module JsonDelLaws {
  import opened Text
  import opened JsonLexer
  import opened JsonStrict
  import opened JsonParser
  import opened JsonAgreement
  import opened JsonReader
  import opened JsonCompose
  import opened JsonEdit
  import opened JsonSetLaws
  import opened JsonDocument
  import opened JsonDel

  /**
   * Removing member `k` leaves a comma too many: the member's own comma is not on its
   * line right behind the value, and the branch taken counts on that.
   */
  predicate RemovalBreaks(t: string, node: Node, k: nat)
    requires WellFormed(t, node) && node.kind.Object? && k < |node.kind.members|
  {
    var ms := node.kind.members;
    LaidOrder(t, ms, node.start + 1, node.end - 1, k);
    && |ms| > 1 && !CommaAttached(t, ms[k].value.end)
    && if k + 1 < |ms| then OnOwnLine(t, node, ms[k]) else CommaAt(t, NextSignificant(t, ms[k].value.end))
  }

  /** Without its `k`-th entry. */
  function Without<T>(xs: seq<T>, k: nat): seq<T>
    requires k < |xs|
  {
    xs[..k] + xs[k + 1..]
  }

  lemma WithoutSlices<T>(xs: seq<T>, k: nat)
    requires k < |xs|
    ensures xs[..k] + xs[k + 1..] == Without(xs, k)
  {
  }

  /** What `RemoveMember` cuts out, case by case. */
  lemma RemoveShape(t: string, node: Node, k: nat)
    requires WellFormed(t, node) && node.kind.Object? && k < |node.kind.members|
    ensures var ms := node.kind.members;
      var (m, u) := (ms[k], RemoveMember(t, node, k));
      && m.keyStart <= m.value.end <= |t|
      && (|ms| == 1 ==> u == RemoveOnly(t, node))
      && (k + 1 < |ms| ==>
            if OnOwnLine(t, node, m) then
              LineStart(t, m.keyStart) <= ExtendLineEnd(t, MemberTailEnd(t, m.value.end)) <= |t|
              && u == Splice(t, LineStart(t, m.keyStart), ExtendLineEnd(t, MemberTailEnd(t, m.value.end)), "")
            else m.keyStart <= ms[k + 1].keyStart <= |t| && u == Splice(t, m.keyStart, ms[k + 1].keyStart, ""))
      && (1 < |ms| && k + 1 == |ms| ==>
            ms[k - 1].value.end <= m.value.end && u == WithoutLast(t, ms[k - 1].value.end, m.value.end))
  {
    hide WellFormed, OnOwnLine, LineStart, ExtendLineEnd, MemberTailEnd, RemoveOnly, NextSignificant, Splice;
    var ms := node.kind.members;
    MembersOrdered(t, node, k);
    if k > 0 {
      CommaAdded(t, ms[k - 1].value.end, MemberTailEnd(t, ms[k].value.end));
    }
  }

  /** Cutting and then putting a comma in is one splice. */
  lemma CommaAdded(t: string, at: nat, b: nat)
    requires at <= b <= |t|
    ensures at <= |Splice(t, at, b, "")|
    ensures Splice(Splice(t, at, b, ""), at, at, ",") == Splice(t, at, b, ",")
  {
    var w := Splice(t, at, b, "");
    assert w[..at] == t[..at] && w[at..] == t[b..];
  }

  lemma RemoveTree(t: string, i: nat, k: nat)
    requires Value(t, i).Some? && Value(t, i).value.kind.Object? && WellFormed(t, Value(t, i).value)
    requires k < |Value(t, i).value.kind.members|
    ensures var node := Value(t, i).value;
      var u := RemoveMember(t, node, k);
      && Outside(t, u, i, node.end)
      && BecomesTree(u, i, node.end + (|u| - |t|), RemovalBreaks(t, node, k),
                     Branch(Without(MemberTrees(t, node.kind.members), k)))
  {
    hide Value, WellFormed, Outside, BecomesTree, MemberTrees, CommaAttached, NextSignificant, MemberTailEnd,
      ExtendLineEnd, OnOwnLine, LineStart, RemoveOnly, RemoveMember, Without, Splice, WithoutLast;
    var node := Value(t, i).value;
    var ms := node.kind.members;
    TreesSize(t, ms);
    WithoutSlices(MemberTrees(t, ms), k);
    RemoveShape(t, node, k);
    if |ms| == 1 {
      RemoveOnlyTree(t, i);
    } else if k + 1 == |ms| {
      RemovesLast(t, i);
    } else if OnOwnLine(t, node, ms[k]) {
      LinePlaces(t, i, k);
      LineCutRemoves(t, i, k, LineStart(t, ms[k].keyStart), ExtendLineEnd(t, MemberTailEnd(t, ms[k].value.end)));
    } else {
      RemovesInline(t, i, k);
    }
  }

  lemma TreesSize(t: string, ms: seq<Member>)
    ensures |MemberTrees(t, ms)| == |ms|
  {
    hide TreeOf;
  }

  /** What `RemoveOnly` cuts out, case by case. */
  lemma RemoveOnlyShape(t: string, node: Node)
    requires WellFormed(t, node) && node.kind.Object? && |node.kind.members| == 1
    ensures var m := node.kind.members[0];
      && m.keyStart <= m.value.end <= |t|
      && var (line, end, u) := (LineStart(t, m.keyStart), MemberTailEnd(t, m.value.end), RemoveOnly(t, node));
         if !HasComment(t[node.start + 1..node.end - 1]) then u == Splice(t, node.start, node.end, "{}")
         else if OnOwnLine(t, node, m) then u == Splice(t, line, ExtendLineEnd(t, end), "")
         else u == Splice(t, m.keyStart, if m.keyStart == line then ExtendLineEnd(t, end) else end, "")
  {
    hide WellFormed, OnOwnLine, ExtendLineEnd, MemberTailEnd, HasComment, Splice;
    MembersOrdered(t, node, 0);
  }

  lemma RemoveOnlyTree(t: string, i: nat)
    requires Value(t, i).Some? && Value(t, i).value.kind.Object? && WellFormed(t, Value(t, i).value)
    requires |Value(t, i).value.kind.members| == 1
    ensures var node := Value(t, i).value;
      var u := RemoveOnly(t, node);
      && Outside(t, u, i, node.end)
      && BecomesTree(u, i, node.end + (|u| - |t|), false, Branch(Without(MemberTrees(t, node.kind.members), 0)))
  {
    hide Value, WellFormed, Outside, BecomesTree, MemberTrees, MemberTailEnd, ExtendLineEnd, OnOwnLine, HasComment,
      LineStart, RemoveOnly, Splice, Without, Members, Separator, Whitespace, After;
    var node := Value(t, i).value;
    var m := node.kind.members[0];
    AroundMember(t, i, 0);
    TreesLength(t, node.kind.members);
    TreesSize(t, node.kind.members);
    WithoutSlices(MemberTrees(t, node.kind.members), 0);
    RemoveOnlyShape(t, node);
    if !HasComment(t[node.start + 1..node.end - 1]) {
      BecomesEmpty(t, i);
    } else if OnOwnLine(t, node, m) {
      LineOfKey(t, node, m, i + 1);
      RemovesOnlyLine(t, i, LineStart(t, m.keyStart), ExtendLineEnd(t, MemberTailEnd(t, m.value.end)));
    } else {
      var b := if m.keyStart == LineStart(t, m.keyStart)
        then ExtendLineEnd(t, MemberTailEnd(t, m.value.end)) else MemberTailEnd(t, m.value.end);
      RemovesOnlyLine(t, i, m.keyStart, b);
    }
  }

  // ---- along a path -------------------------------------------------------------------------

  /** The first member on the path removed, if the whole path exists. */
  function TreeDel(tree: Tree, segments: seq<string>): Tree
    requires segments != []
    decreases |segments|
  {
    if tree.Leaf? then tree
    else
      match FindKey(tree.members, segments[0])
      case None => tree
      case Some(k) =>
        if |segments| == 1 then Branch(Without(tree.members, k))
        else Branch(tree.members[k := (segments[0], TreeDel(tree.members[k].1, segments[1..]))])
  }

  predicate DelBreaks(t: string, node: Node, segments: seq<string>)
    requires WellFormed(t, node) && segments != []
    decreases |segments|
  {
    && node.kind.Object?
    && match FindMember(node.kind.members, segments[0])
       case None => false
       case Some(k) =>
         assert WellFormedMember(t, node.kind.members[k]);
         if |segments| == 1 then RemovalBreaks(t, node, k)
         else DelBreaks(t, node.kind.members[k].value, segments[1..])
  }

  lemma Untouched(t: string, i: nat)
    requires Value(t, i).Some? && Value(t, i).value.kind.Object?
    ensures var node := Value(t, i).value;
      Outside(t, t, i, node.end) && BecomesTree(t, i, node.end, false, TreeOf(t, node))
  {
    AroundObject(t, i);
  }

  lemma AroundObject(t: string, i: nat)
    requires Value(t, i).Some? && Value(t, i).value.kind.Object?
    ensures 0 < Value(t, i).value.end <= |t| && i + 1 <= |t|
  {
  }

  /** Along any path, `del` removes the member at its end and changes nothing outside the object. */
  lemma {:induction false} DelTree(t: string, i: nat, segments: seq<string>)
    requires Value(t, i).Some? && Value(t, i).value.kind.Object? && WellFormed(t, Value(t, i).value)
    requires segments != []
    ensures var node := Value(t, i).value;
      var u := DelPath(t, node, segments);
      && Outside(t, u, i, node.end)
      && BecomesTree(u, i, node.end + (|u| - |t|), DelBreaks(t, node, segments), TreeDel(TreeOf(t, node), segments))
    decreases |segments|
  {
    hide Value, WellFormed, Outside, BecomesTree, MemberTrees, RemovalBreaks, RemoveMember;
    var node := Value(t, i).value;
    var ms := node.kind.members;
    FindSame(t, ms, segments[0]);
    BranchTree(t, node);
    match FindMember(ms, segments[0])
    case None => Untouched(t, i);
    case Some(k) =>
      MemberPlace(t, i, k);
      TreeAt(t, ms, k);
      if |segments| == 1 {
        RemoveTree(t, i, k);
      } else {
        DelDescends(t, i, segments, k);
      }
  }

  lemma DelDescends(t: string, i: nat, segments: seq<string>, k: nat)
    requires Value(t, i).Some? && Value(t, i).value.kind.Object? && WellFormed(t, Value(t, i).value)
    requires |segments| > 1 && FindMember(Value(t, i).value.kind.members, segments[0]) == Some(k)
    ensures var node := Value(t, i).value;
      var u := DelPath(t, node, segments);
      && Outside(t, u, i, node.end)
      && BecomesTree(u, i, node.end + (|u| - |t|), DelBreaks(t, node, segments), TreeDel(TreeOf(t, node), segments))
    decreases |segments|, 0
  {
    hide Value, WellFormed, Outside, BecomesTree, MemberTrees, RemovalBreaks, RemoveMember, Without, FindKey, FindMember;
    var node := Value(t, i).value;
    var ms := node.kind.members;
    var c := ms[k].value;
    FindSame(t, ms, segments[0]);
    BranchTree(t, node);
    MemberPlace(t, i, k);
    TreeAt(t, ms, k);
    if c.kind.Object? {
      DelTree(t, c.start, segments[1..]);
      CarriedOut(t, DelPath(t, c, segments[1..]), i, k, DelBreaks(t, c, segments[1..]), TreeDel(TreeOf(t, c), segments[1..]));
    } else {
      LeafTree(t, c);
      Untouched(t, i);
      UpdatedSame(MemberTrees(t, ms), k);
    }
  }

  lemma UpdatedSame<T>(xs: seq<T>, k: nat)
    requires k < |xs|
    ensures xs[k := xs[k]] == xs
  {
  }

  // ---- documents ------------------------------------------------------------------------------

  /** `del` would leave a comma too many. */
  predicate LeavesComma(t: string, path: string)
    requires ObjectDocument(t) && Segments(path) != []
  {
    ParsedDocumentIsWellFormed(t);
    DelBreaks(t, ParseDocument(t).value, Segments(path))
  }

  /**
   * `del` of one path succeeds on every object document. The result is a document again, with
   * exactly the addressed member gone, if and only if no comma is left over.
   */
  lemma {:induction false} DelOneLaw(t: string, path: string)
    ensures DelOne(t, path).Ok? <==> Accepts(t) && ObjectDocument(t) && Segments(path) != []
    ensures DelOne(t, path).Ok? ==>
      var u := DelOne(t, path).value;
      && SplitBom(u) == ("", u)
      && (Accepts(u) <==> !LeavesComma(t, path))
      && (Accepts(u) ==> ObjectDocument(u) && DocumentTree(u) == TreeDel(DocumentTree(t), Segments(path)))
  {
    hide WellFormed, ParseDocument, Accepts, TreeOf, TreeDel, DelBreaks, DelPath, Segments;
    if Accepts(t) && ObjectDocument(t) && Segments(path) != [] {
      RootDeleted(t, Segments(path));
    }
  }

  /** The deletion below the root object, and the document around it. */
  lemma {:induction false} RootDeleted(t: string, segments: seq<string>)
    requires Accepts(t) && ObjectDocument(t) && segments != []
    ensures var root := ParseDocument(t).value;
      && WellFormed(t, root)
      && var u := DelPath(t, root, segments);
         && SplitBom(u) == ("", u)
         && (Accepts(u) <==> !DelBreaks(t, root, segments))
         && (Accepts(u) ==> ObjectDocument(u) && DocumentTree(u) == TreeDel(TreeOf(t, root), segments))
  {
    hide Value, WellFormed, ParseDocument, Accepts, TreeOf, TreeDel, DelBreaks, DelPath, Outside, BecomesTree,
      DocumentTree, ObjectDocument, SplitBom, LeftOpen, Skip;
    RootIsObject(t);
    var root := ParseDocument(t).value;
    EditableText(t);
    DelTree(t, root.start, segments);
    EditedDocument(t, DelPath(t, root, segments), DelBreaks(t, root, segments), TreeDel(TreeOf(t, root), segments));
  }

  predicate AllPaths(paths: seq<string>) {
    forall i | 0 <= i < |paths| :: Segments(paths[i]) != []
  }

  function TreeDelAll(tree: Tree, paths: seq<string>): Tree
    requires AllPaths(paths)
    decreases |paths|
  {
    if paths == [] then tree else TreeDelAll(TreeDel(tree, Segments(paths[0])), paths[1..])
  }

  /** Some deletion of the list, when its turn comes, leaves a comma over. */
  predicate MeetsLeftover(t: string, paths: seq<string>)
    decreases |paths|
  {
    && paths != [] && Accepts(t) && ObjectDocument(t) && Segments(paths[0]) != []
    && (LeavesComma(t, paths[0])
        || (DelOneLaw(t, paths[0]); MeetsLeftover(DelOne(t, paths[0]).value, paths[1..])))
  }

  lemma DelAllStep(t: string, paths: seq<string>)
    ensures DelAll(t, paths) == if paths == [] then Ok(t)
                                else if DelOne(t, paths[0]).Ok? then DelAll(DelOne(t, paths[0]).value, paths[1..])
                                else Err(DelOne(t, paths[0]).error)
  {
    hide DelOne;
  }

  lemma LeftoverStep(t: string, paths: seq<string>)
    requires paths != [] && DelOne(t, paths[0]).Ok?
    ensures Accepts(t) && ObjectDocument(t) && Segments(paths[0]) != []
    ensures MeetsLeftover(t, paths) <==> LeavesComma(t, paths[0]) || MeetsLeftover(DelOne(t, paths[0]).value, paths[1..])
  {
    hide Accepts, ObjectDocument, DelOne, LeavesComma, Segments;
    DelOneLaw(t, paths[0]);
  }

  lemma PathsStep(paths: seq<string>)
    requires paths != []
    ensures AllPaths(paths) <==> Segments(paths[0]) != [] && AllPaths(paths[1..])
  {
    hide Segments;
    assert forall i | 0 <= i < |paths| :: i > 0 ==> paths[i] == paths[1..][i - 1];
  }

  lemma NoDeletion(t: string, tree: Tree)
    ensures !MeetsLeftover(t, []) && AllPaths([]) && TreeDelAll(tree, []) == tree
  {
  }

  lemma TreeDelStep(tree: Tree, paths: seq<string>)
    requires AllPaths(paths) && paths != []
    ensures AllPaths(paths[1..])
    ensures TreeDelAll(tree, paths) == TreeDelAll(TreeDel(tree, Segments(paths[0])), paths[1..])
  {
    hide TreeDel, Segments;
    PathsStep(paths);
  }

  /**
   * A list of deletions succeeds exactly if no path is empty and none but the last leaves a comma
   * over; its output is accepted exactly if the last does not either, and then exactly those
   * changes have been made, in order.
   */
  lemma {:induction false} DelAllLaw(t: string, paths: seq<string>)
    requires Accepts(t) && ObjectDocument(t)
    ensures paths != [] ==> (DelAll(t, paths).Ok? <==> AllPaths(paths) && !MeetsLeftover(t, paths[..|paths| - 1]))
    ensures DelAll(t, paths).Ok? ==>
      var u := DelAll(t, paths).value;
      && SplitBom(u) == ("", u) && AllPaths(paths)
      && (Accepts(u) <==> !MeetsLeftover(t, paths))
      && (Accepts(u) ==> ObjectDocument(u) && DocumentTree(u) == TreeDelAll(DocumentTree(t), paths))
    decreases |paths|
  {
    hide Accepts, ObjectDocument, DocumentTree, TreeDel, TreeDelAll, DelOne, DelAll, LeavesComma, MeetsLeftover,
      AllPaths, SplitBom, Segments;
    RootIsObject(t);
    DelAllStep(t, paths);
    NoDeletion(t, DocumentTree(t));
    if paths == [] {
      EditableText(t);
    } else {
      var rest, front := paths[1..], paths[..|paths| - 1];
      DelOneLaw(t, paths[0]);
      PathsStep(paths);
      if DelOne(t, paths[0]).Ok? {
        var u := DelOne(t, paths[0]).value;
        LeftoverStep(t, paths);
        DelAllStep(u, rest);
        if rest == [] {
          NoDeletion(u, DocumentTree(t));
          TreeDelStep(DocumentTree(t), paths);
          NoDeletion(u, TreeDel(DocumentTree(t), Segments(paths[0])));
          assert front == [];
        } else {
          LeftoverStep(t, front);
          assert front[1..] == rest[..|rest| - 1];
          if Accepts(u) {
            DelAllLaw(u, rest);
            if AllPaths(paths) {
              TreeDelStep(DocumentTree(t), paths);
            }
          } else {
            DelOneLaw(u, rest[0]);
          }
        }
      }
    }
  }

  /**
   * `del` leaves a text without content alone and otherwise succeeds exactly on an object; it keeps
   * the byte order mark and removes every path, in order, from the rest.
   */
  lemma DelLaw(original: string, paths: seq<string>)
    requires paths != []
    ensures var body := SplitBom(original).1;
      Del(original, paths).Ok?
      <==> || AllWhitespace(StripJsonc(body))
           || (&& Accepts(body) && ObjectDocument(body)
               && AllPaths(paths) && !MeetsLeftover(body, paths[..|paths| - 1]))
    ensures Del(original, paths).Ok? ==>
      var (bom, body) := SplitBom(original);
      var (bom2, u) := SplitBom(Del(original, paths).value);
      && bom2 == bom
      && (AllWhitespace(StripJsonc(body)) ==> u == body)
      && (!AllWhitespace(StripJsonc(body)) ==>
            && (Accepts(u) <==> !MeetsLeftover(body, paths))
            && (Accepts(u) ==> ObjectDocument(u) && DocumentTree(u) == TreeDelAll(DocumentTree(body), paths)))
  {
    hide Accepts, ObjectDocument, DocumentTree, DelOne, DelAll, StripJsonc, LeavesComma, MeetsLeftover, AllPaths,
      TreeDelAll, Segments;
    var (bom, body) := SplitBom(original);
    if !AllWhitespace(StripJsonc(body)) && Accepts(body) {
      DelAllStep(body, paths);
      DelOneLaw(body, paths[0]);
      if ObjectDocument(body) {
        DelAllLaw(body, paths);
        if DelAll(body, paths).Ok? {
          JoinedBom(bom, DelAll(body, paths).value);
        }
      }
    }
  }
}
