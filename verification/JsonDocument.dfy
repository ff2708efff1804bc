/** `set` on whole documents: success, acceptance and the tree, for one assignment and for lists. */
module JsonDocument {
  import opened Text
  import opened JsonLexer
  import opened JsonStrict
  import opened JsonParser
  import opened JsonLocality
  import opened JsonAgreement
  import opened JsonReader
  import opened JsonGuard
  import opened JsonEdit
  import opened JsonMember
  import opened JsonSet
  import opened JsonSetLaws

  /** The tree of a text the parser takes. */
  function DocumentTree(t: string): Tree
    requires ParseDocument(t).Ok?
  {
    TreeOf(t, ParseDocument(t).value)
  }

  predicate ObjectDocument(t: string) {
    ParseDocument(t).Ok? && ParseDocument(t).value.kind.Object?
  }

  // ---- acceptance ---------------------------------------------------------------------------

  lemma AcceptsIsStrict(t: string)
    requires SplitBom(t) == ("", t)
    ensures Accepts(t) <==> Document(t).Some?
  {
    GuardIsStrict(t);
  }

  /** A text that opens with a BOM is never taken for an object. */
  lemma BomIsNoObject(t: string)
    requires t != "" && t[0] == BOM
    ensures !ObjectDocument(t)
  {
    hide BareEnd, LooseSkip, ParseMembers;
    assert LooseSkip(t, 0) == 0 by { AtToken(t, 0); }
  }

  /** What an edit may rely on once its guard and its parse have passed. */
  lemma EditableText(t: string)
    requires Accepts(t) && ObjectDocument(t)
    ensures SplitBom(t) == ("", t)
    ensures Document(t) == Some(ParseDocument(t).value)
    ensures var root := ParseDocument(t).value;
      && Value(t, root.start) == Some(root) && Skip(t, 0) == root.start
      && Skip(t, root.end) == |t| && !LeftOpen(t, root.end) && WellFormed(t, root)
  {
    hide Value, Skip, WellFormed, ParseValue, LooseSkip, LeftOpen;
    if t != "" && t[0] == BOM {
      BomIsNoObject(t);
    }
    AcceptsIsStrict(t);
    AcceptedTextParses(t);
    ParsedDocumentIsWellFormed(t);
  }

  lemma {:induction false} LeftOpenTail(t: string, u: string, i: nat, d: int)
    requires i <= |t| && Agree(t, u, i, |t|, d) && |u| == |t| + d
    ensures LeftOpen(u, i + d) == LeftOpen(t, i)
    decreases |t| - i
  {
    hide CommentEnd, Agree;
    Within(t, u, i, |t|, d, i, |t|);
    if i < |t| {
      Within(t, u, i, |t|, d, i + 1, |t|);
      Within(t, u, i, |t|, d, |t| - 1, |t|);
      if JsonWs(t[i]) {
        LeftOpenTail(t, u, i + 1, d);
      } else if OpensComment(t, i) {
        CommentEndTail(t, u, i, d);
        var e := CommentEnd(t, i);
        if e.Some? {
          Within(t, u, i, |t|, d, e.value, |t|);
          LeftOpenTail(t, u, e.value, d);
        }
      } else {
        NoCommentThere(t, u, i, d);
      }
    }
  }

  lemma NoCommentThere(t: string, u: string, i: nat, d: int)
    requires i < |t| && Agree(t, u, i, |t|, d) && |u| == |t| + d && !OpensComment(t, i)
    ensures !OpensComment(u, i + d)
  {
    if i + 1 < |t| {
      assert u[(i + 1) + d] == t[i + 1];
    }
    assert u[i + d] == t[i];
  }

  /** The root stays where it is ... */
  lemma {:induction false} RootStays(t: string, u: string, i: nat, end: nat)
    requires Value(t, i).Some? && Value(t, i).value.kind.Object? && Skip(t, 0) == i
    requires Outside(t, u, i, end) && end <= |t| && Skip(t, end) == |t| && !LeftOpen(t, end)
    ensures Skip(u, 0) == i && SplitBom(u) == ("", u)
    ensures var to := end + (|u| - |t|); 0 <= to <= |u| && Skip(u, to) == |u| && !LeftOpen(u, to)
  {
    hide Value, Agree, Skip, LeftOpen, SplitBom, Solid;
    Within(t, u, 0, i + 1, 0, 0, i);
    Within(t, u, 0, i + 1, 0, i, i + 1);
    AgreeBounds(t, u, i, i + 1, 0);
    ValueOpens(t, i);
    AgreeFirst(t, u, i, i + 1, 0);
    SolidSame(t, u, i);
    SkipLocal(t, u, 0, 0);
    NoBomBefore(u, i);
    RestStays(t, u, end);
  }

  /** ... and so does what follows it. */
  lemma {:induction false} RestStays(t: string, u: string, end: nat)
    requires 0 < end <= |t| && Agree(t, u, end - 1, |t|, |u| - |t|) && Skip(t, end) == |t| && !LeftOpen(t, end)
    ensures var to := end + (|u| - |t|); 0 <= to <= |u| && Skip(u, to) == |u| && !LeftOpen(u, to)
  {
    hide Agree, Skip, LeftOpen;
    var d := |u| - |t|;
    Within(t, u, end - 1, |t|, d, end, |t|);
    AgreeBounds(t, u, end, |t|, d);
    SkipTail(t, u, end, d);
    LeftOpenTail(t, u, end, d);
  }

  lemma NoBomBefore(u: string, i: nat)
    requires Skip(u, 0) == i && i < |u| && u[i] == '{'
    ensures SplitBom(u) == ("", u)
  {
  }

  /** Around an edited root the document stands as before. */
  lemma EditedDocument(t: string, u: string, stray: bool, tree: Tree)
    requires Accepts(t) && ObjectDocument(t)
    requires var root := ParseDocument(t).value;
      && Outside(t, u, root.start, root.end)
      && BecomesTree(u, root.start, root.end + (|u| - |t|), stray, tree)
    ensures Accepts(u) <==> !stray
    ensures Accepts(u) ==> ObjectDocument(u) && DocumentTree(u) == tree
    ensures SplitBom(u) == ("", u)
  {
    hide Value, Skip, WellFormed, ParseDocument, LeftOpen, Agree, TreeOf, Accepts;
    var root := ParseDocument(t).value;
    EditableText(t);
    RootStays(t, u, root.start, root.end);
    AcceptsIsStrict(u);
    if !stray {
      AcceptedTextParses(u);
    }
  }

  // ---- one assignment -------------------------------------------------------------------------

  lemma NewlineIsBlank(t: string)
    ensures BlankUnits(NewlineStyle(t), DetectIndentUnit(t))
  {
  }

  /** Where `set` would insert into an object that holds only a comma. */
  predicate InsertsBesideComma(t: string, path: string)
    requires ObjectDocument(t) && Segments(path) != []
  {
    StrayAt(t, ParseDocument(t).value, Segments(path))
  }

  /** When `set` of one path succeeds. */
  predicate CanSet(t: string, path: string) {
    && Accepts(t) && ObjectDocument(t) && Segments(path) != []
    && Settable(DocumentTree(t), Segments(path))
  }

  /**
   * `set` succeeds exactly along objects; its output is accepted again, with exactly the
   * addressed path changed, unless it had to insert beside a stray comma.
   */
  lemma {:induction false} SetOneLaw(t: string, kv: KV)
    requires IsValueText(kv.text)
    ensures SetOne(t, kv).Ok? <==> CanSet(t, kv.path)
    ensures SetOne(t, kv).Ok? ==>
      var u := SetOne(t, kv).value;
      && SplitBom(u) == ("", u)
      && (Accepts(u) <==> !InsertsBesideComma(t, kv.path))
      && (Accepts(u) ==>
            && ObjectDocument(u)
            && DocumentTree(u) == TreeSet(DocumentTree(t), Segments(kv.path), ValueTree(kv.text)))
  {
    hide WellFormed, ParseDocument, Accepts, TreeOf, TreeSet, Settable, StrayAt, EditObject, Segments,
      ValueTree, DetectIndentUnit, NewlineStyle;
    if Accepts(t) && ObjectDocument(t) && Segments(kv.path) != [] {
      NewlineIsBlank(t);
      RootEdited(t, Segments(kv.path), kv.text, NewlineStyle(t), DetectIndentUnit(t));
    }
  }

  /** The edit of the root object, and the document around it. */
  lemma RootEdited(t: string, segments: seq<string>, v: string, newline: string, unit: string)
    requires Accepts(t) && ObjectDocument(t) && segments != [] && IsValueText(v) && BlankUnits(newline, unit)
    ensures var root := ParseDocument(t).value;
      && WellFormed(t, root)
      && var r := EditObject(t, root, segments, v, newline, unit);
         && (r.Ok? <==> Settable(TreeOf(t, root), segments))
         && (r.Ok? ==>
               && SplitBom(r.value) == ("", r.value)
               && (Accepts(r.value) <==> !StrayAt(t, root, segments))
               && (Accepts(r.value) ==>
                     && ObjectDocument(r.value)
                     && DocumentTree(r.value) == TreeSet(TreeOf(t, root), segments, ValueTree(v))))
  {
    hide Value, WellFormed, ParseDocument, Accepts, TreeOf, TreeSet, Settable, StrayAt, EditObject, Outside, BecomesTree,
      IsValueText, ValueTree, DocumentTree, ObjectDocument, BlankUnits, SplitBom, LeftOpen, Skip;
    RootIsObject(t);
    var root := ParseDocument(t).value;
    EditableText(t);
    EditTree(t, root.start, segments, v, newline, unit);
    var r := EditObject(t, root, segments, v, newline, unit);
    if r.Ok? {
      EditedDocument(t, r.value, StrayAt(t, root, segments), TreeSet(TreeOf(t, root), segments, ValueTree(v)));
    }
  }

  lemma RootIsObject(t: string)
    requires ObjectDocument(t)
    ensures ParseDocument(t).Ok? && ParseDocument(t).value.kind.Object?
  {
  }

  // ---- many assignments -------------------------------------------------------------------------

  predicate ValueTexts(kvs: seq<KV>) {
    forall i | 0 <= i < |kvs| :: IsValueText(kvs[i].text)
  }

  /** Every path in turn runs through objects only. */
  predicate AllSettable(tree: Tree, kvs: seq<KV>)
    requires ValueTexts(kvs)
    decreases |kvs|
  {
    kvs == []
    || (&& Segments(kvs[0].path) != [] && Settable(tree, Segments(kvs[0].path))
        && AllSettable(TreeSet(tree, Segments(kvs[0].path), ValueTree(kvs[0].text)), kvs[1..]))
  }

  function TreeSetAll(tree: Tree, kvs: seq<KV>): Tree
    requires ValueTexts(kvs) && AllSettable(tree, kvs)
    decreases |kvs|
  {
    if kvs == [] then tree
    else TreeSetAll(TreeSet(tree, Segments(kvs[0].path), ValueTree(kvs[0].text)), kvs[1..])
  }

  /** Some assignment of the list, when its turn comes, inserts beside a stray comma. */
  predicate MeetsComma(t: string, kvs: seq<KV>)
    requires ValueTexts(kvs)
    decreases |kvs|
  {
    && kvs != [] && CanSet(t, kvs[0].path)
    && (InsertsBesideComma(t, kvs[0].path)
        || (SetOneLaw(t, kvs[0]); MeetsComma(SetOne(t, kvs[0]).value, kvs[1..])))
  }

  /**
   * A list of assignments succeeds exactly if its paths run through objects and none but the last
   * inserts beside a stray comma; its output is accepted exactly if the last does not either, and
   * then exactly those changes have been made, in order.
   */
  lemma {:induction false} SetAllLaw(t: string, kvs: seq<KV>)
    requires Accepts(t) && ObjectDocument(t) && ValueTexts(kvs)
    ensures kvs != [] ==>
      (SetAll(t, kvs).Ok? <==> AllSettable(DocumentTree(t), kvs) && !MeetsComma(t, kvs[..|kvs| - 1]))
    ensures SetAll(t, kvs).Ok? ==>
      var u := SetAll(t, kvs).value;
      && SplitBom(u) == ("", u)
      && AllSettable(DocumentTree(t), kvs)
      && (Accepts(u) <==> !MeetsComma(t, kvs))
      && (Accepts(u) ==> ObjectDocument(u) && DocumentTree(u) == TreeSetAll(DocumentTree(t), kvs))
    decreases |kvs|
  {
    hide Accepts, ObjectDocument, DocumentTree, TreeSet, SetOne, SetAll, InsertsBesideComma, IsValueText, ValueTree,
      MeetsComma, AllSettable, TreeSetAll, CanSet, SplitBom, Segments;
    RootIsObject(t);
    SetAllStep(t, kvs);
    if kvs == [] {
      EditableText(t);
      NoAssignment(t, DocumentTree(t));
    } else {
      var rest, front := kvs[1..], kvs[..|kvs| - 1];
      SetOneLaw(t, kvs[0]);
      SettableStep(t, kvs);
      if SetOne(t, kvs[0]).Ok? {
        var u := SetOne(t, kvs[0]).value;
        MeetsStep(t, kvs);
        SetAllStep(u, rest);
        if rest == [] {
          OneSettable(t, kvs);
          NoAssignment(u, DocumentTree(t));
          NoAssignment(t, DocumentTree(t));
          assert front == [];
        } else {
          MeetsStep(t, front);
          assert front[1..] == rest[..|rest| - 1];
          if Accepts(u) {
            SetAllLaw(u, rest);
          } else {
            NotAccepted(u, rest[0]);
          }
        }
      }
    }
  }

  lemma SetAllStep(t: string, kvs: seq<KV>)
    ensures SetAll(t, kvs) == if kvs == [] then Ok(t)
                              else if SetOne(t, kvs[0]).Ok? then SetAll(SetOne(t, kvs[0]).value, kvs[1..])
                              else Err(SetOne(t, kvs[0]).error)
  {
    hide SetOne;
  }

  lemma CanSetIsObject(t: string, path: string)
    requires CanSet(t, path)
    ensures Accepts(t) && ObjectDocument(t)
  {
  }

  lemma NotAccepted(t: string, kv: KV)
    requires !Accepts(t)
    ensures SetOne(t, kv).Err?
  {
    hide Accepts;
  }

  lemma NoAssignment(t: string, tree: Tree)
    ensures !MeetsComma(t, [])
    ensures AllSettable(tree, []) && TreeSetAll(tree, []) == tree
  {
  }

  lemma MeetsStep(t: string, kvs: seq<KV>)
    requires ValueTexts(kvs) && kvs != [] && SetOne(t, kvs[0]).Ok?
    ensures CanSet(t, kvs[0].path)
    ensures MeetsComma(t, kvs) <==> InsertsBesideComma(t, kvs[0].path) || MeetsComma(SetOne(t, kvs[0]).value, kvs[1..])
  {
    hide Accepts, ObjectDocument, DocumentTree, SetOne, InsertsBesideComma, IsValueText, Settable, TreeSet;
    SetOneLaw(t, kvs[0]);
  }

  lemma OneSettable(t: string, kvs: seq<KV>)
    requires ValueTexts(kvs) && |kvs| == 1 && CanSet(t, kvs[0].path)
    ensures AllSettable(DocumentTree(t), kvs)
    ensures TreeSetAll(DocumentTree(t), kvs) == TreeSet(DocumentTree(t), Segments(kvs[0].path), ValueTree(kvs[0].text))
  {
    hide Accepts, ObjectDocument, DocumentTree, IsValueText, Settable, TreeSet, ValueTree, Segments;
  }

  /** The first assignment, and the others on what it makes of the tree. */
  lemma SettableStep(t: string, kvs: seq<KV>)
    requires ValueTexts(kvs) && kvs != [] && Accepts(t) && ObjectDocument(t)
    ensures AllSettable(DocumentTree(t), kvs)
       <==> CanSet(t, kvs[0].path)
            && AllSettable(TreeSet(DocumentTree(t), Segments(kvs[0].path), ValueTree(kvs[0].text)), kvs[1..])
    ensures AllSettable(DocumentTree(t), kvs) ==>
      var changed := TreeSet(DocumentTree(t), Segments(kvs[0].path), ValueTree(kvs[0].text));
      TreeSetAll(DocumentTree(t), kvs) == TreeSetAll(changed, kvs[1..])
  {
    hide Accepts, ObjectDocument, DocumentTree, IsValueText, Settable, TreeSet, ValueTree, Segments;
  }

  /** The text `set` starts from: an empty object where there was nothing but trivia. */
  function Normalized(body: string): string {
    if AllWhitespace(StripJsonc(body)) then "{}" else body
  }

  /**
   * `set` succeeds exactly on an object, or on a text without content, with paths through objects;
   * it keeps the byte order mark and sets every path, in order, on the rest.
   */
  lemma SetLaw(original: string, kvs: seq<KV>)
    requires ValueTexts(kvs) && kvs != []
    ensures var base := Normalized(SplitBom(original).1);
      Set(original, kvs).Ok?
      <==> && Accepts(base) && ObjectDocument(base)
           && AllSettable(DocumentTree(base), kvs) && !MeetsComma(base, kvs[..|kvs| - 1])
    ensures Set(original, kvs).Ok? ==>
      var (bom, body) := SplitBom(original);
      var (bom2, u) := SplitBom(Set(original, kvs).value);
      && bom2 == bom
      && (Accepts(u) <==> !MeetsComma(Normalized(body), kvs))
      && (Accepts(u) ==> ObjectDocument(u) && DocumentTree(u) == TreeSetAll(DocumentTree(Normalized(body)), kvs))
  {
    hide Accepts, ObjectDocument, DocumentTree, SetOne, SetAll, IsValueText, ValueTree, StripJsonc, InsertsBesideComma,
      AllSettable, TreeSetAll, MeetsComma;
    var (bom, body) := SplitBom(original);
    var base := Normalized(body);
    if Accepts(base) {
      SetAllStep(base, kvs);
      SetOneLaw(base, kvs[0]);
      if ObjectDocument(base) {
        SetAllLaw(base, kvs);
        if SetAll(base, kvs).Ok? {
          JoinedBom(bom, SetAll(base, kvs).value);
        }
      }
    }
  }

  lemma JoinedBom(bom: string, u: string)
    requires (bom == "" || bom == [BOM]) && SplitBom(u) == ("", u)
    ensures SplitBom(bom + u) == (bom, u)
    ensures Accepts(bom + u) <==> Accepts(u)
  {
    hide IsJson;
    if bom == "" {
      assert bom + u == u;
    } else {
      assert (bom + u)[1..] == u;
    }
  }
}
