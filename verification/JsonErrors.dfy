/** Which error an edit ends in. */
module JsonErrors {
  import opened Text
  import opened JsonLexer
  import opened JsonStrict
  import opened JsonParser
  import opened JsonAgreement
  import opened JsonReader
  import opened JsonEdit
  import opened JsonSetLaws
  import opened JsonDocument
  import opened JsonPaths

  predicate DotsOnly(path: string) {
    forall i | 0 <= i < |path| :: path[i] == '.'
  }

  lemma {:induction false} NoSegments(path: string)
    ensures Segments(path) == [] <==> DotsOnly(path)
    decreases |path|
  {
    hide Segments;
    if exists i :: 0 <= i < |path| && path[i] == '.' {
      var i :| 0 <= i < |path| && path[i] == '.';
      assert path == path[..i] + "." + path[i + 1..];
      SegmentsJoined(path[..i], path[i + 1..]);
      NoSegments(path[..i]);
      NoSegments(path[i + 1..]);
      DotsOnBothSides(path, i);
      assert Segments(path) == Segments(path[..i]) + Segments(path[i + 1..]);
    } else {
      assert '.' !in path;
      assert path != "" ==> path[0] != '.';
      SegmentsJoined(path, "");
    }
  }

  lemma DotsOnBothSides(path: string, i: nat)
    requires i < |path| && path[i] == '.'
    ensures DotsOnly(path) <==> DotsOnly(path[..i]) && DotsOnly(path[i + 1..])
  {
    assert forall k | i < k < |path| :: path[k] == path[i + 1..][k - i - 1];
    assert forall k | 0 <= k < i :: path[k] == path[..i][k];
  }

  lemma {:induction false} TailStops(t: string, i: nat)
    requires i <= |t| && Skip(t, i) == |t| && LooseSkip(t, i) != |t|
    ensures LooseSkip(t, i) == |t| - 1
    decreases |t| - i
  {
    hide LineEnd, BlockEnd;
    if i < |t| {
      if JsonWs(t[i]) {
        TailStops(t, i + 1);
      } else if CommentEnd(t, i).Some? {
        TailStops(t, CommentEnd(t, i).value);
      }
    }
  }

  /** On accepted text the parser can only stumble over the last character, with everything behind the root. */
  lemma ParserStumbles(t: string)
    requires Accepts(t) && SplitBom(t) == ("", t) && ParseDocument(t).Err?
    ensures ParseDocument(t) == Err(ParseError(TrailingData, |t| - 1))
  {
    hide Value, ParseValue, Skip, LooseSkip, LeftOpen, Accepts;
    AcceptsIsStrict(t);
    var root := Document(t).value;
    ValueStart(t, Skip(t, 0));
    SkipsAlike(t, 0);
    StrictValueParses(t, Skip(t, 0));
    TailStops(t, root.end);
  }

  /** The value that stands in the way, and the key in front of it. */
  ghost predicate StandsInTheWay(tree: Tree, ks: seq<string>, key: string) {
    exists n: nat, x: Tree | 0 < n < |ks| :: x.Leaf? && Holds(tree, ks[..n], x) && key == ks[n - 1]
  }

  lemma StandsBelow(tree: Tree, ks: seq<string>, k: nat, key: string)
    requires tree.Branch? && |ks| > 1 && FindKey(tree.members, ks[0]) == Some(k)
    requires StandsInTheWay(tree.members[k].1, ks[1..], key)
    ensures StandsInTheWay(tree, ks, key)
  {
    hide Holds;
    var rest := ks[1..];
    var n: nat, x: Tree :| 0 < n < |rest| && x.Leaf? && Holds(tree.members[k].1, rest[..n], x) && key == rest[n - 1];
    HoldsStep(tree, ks[..n + 1], x);
    assert ks[..n + 1][1..] == rest[..n];
  }

  lemma StandsHere(tree: Tree, ks: seq<string>, k: nat)
    requires tree.Branch? && |ks| > 1 && FindKey(tree.members, ks[0]) == Some(k) && tree.members[k].1.Leaf?
    ensures StandsInTheWay(tree, ks, ks[0])
  {
    hide Holds;
    var x := tree.members[k].1;
    HoldsStep(tree, ks[..1], x);
    HoldsNothing(x, ks[..1][1..]);
  }

  lemma {:induction false} EditFails(t: string, node: Node, ks: seq<string>, v: string, newline: string, unit: string)
    requires WellFormed(t, node) && node.kind.Object? && ks != []
    ensures var r := EditObject(t, node, ks, v, newline, unit);
      r.Err? ==> r.error.NotAnObject? && StandsInTheWay(TreeOf(t, node), ks, r.error.key)
    decreases |ks|
  {
    hide Holds, FindMember, FindKey, BuildMember, InsertMember, MemberIndent, Laid, Filler, StandsInTheWay;
    var ms := node.kind.members;
    FindSame(t, ms, ks[0]);
    var found := FindMember(ms, ks[0]);
    if found.Some? && |ks| > 1 {
      var value := ms[found.value].value;
      assert WellFormedMember(t, ms[found.value]);
      if value.kind.Object? {
        EditFails(t, value, ks[1..], v, newline, unit);
        if EditObject(t, value, ks[1..], v, newline, unit).Err? {
          StandsBelow(TreeOf(t, node), ks, found.value, EditObject(t, value, ks[1..], v, newline, unit).error.key);
        }
      } else {
        StandsHere(TreeOf(t, node), ks, found.value);
      }
    }
  }

  /** What is wrong with the text or the path before anything is edited. */
  ghost predicate Refused(t: string, path: string, e: EditError) {
    if !Accepts(t) then e == NotJson
    else if DotsOnly(path) then e == EmptyPath
    else if ParseDocument(t).Err? then e.Syntax? && (SplitBom(t) == ("", t) ==> e.error == ParseError(TrailingData, |t| - 1))
    else !ObjectDocument(t) && e == RootNotObject
  }

  /**
   * An edit that fails names what is wrong: no JSON, a path of dots only, a comment left open over the last
   * character, no object at the root, or, for `set` alone, the key of a value on the way that is no object.
   */
  lemma ErrorsAreNamed(t: string, path: string, v: string)
    ensures var (s, d) := (SetOne(t, KV(path, v)), DelOne(t, path));
      && (s.Err? ==>
            || Refused(t, path, s.error)
            || (s.error.NotAnObject? && ObjectDocument(t)
                && StandsInTheWay(DocumentTree(t), Segments(path), s.error.key)))
      && (d.Err? ==> Refused(t, path, d.error))
  {
    hide Accepts, ParseValue, LooseSkip, WellFormed, Segments, EditObject, DelPath, StandsInTheWay, DetectIndentUnit, NewlineStyle;
    NoSegments(path);
    if Accepts(t) && SplitBom(t) == ("", t) && ParseDocument(t).Err? {
      ParserStumbles(t);
    }
    if ObjectDocument(t) && Segments(path) != [] {
      ParsedDocumentIsWellFormed(t);
      EditFails(t, ParseDocument(t).value, Segments(path), v, NewlineStyle(t), DetectIndentUnit(t));
    }
  }

  // ---- the parser's own errors ------------------------------------------------------------------------

  /** What stands at the place an error of the parser names, and what it must have met before. */
  ghost predicate PointsAt(t: string, e: ParseError) {
    && e.at <= |t|
    && match e.reason
       case EmptyDocument => e.at == |t| && LooseSkip(t, 0) == |t|
       case TrailingData => e.at < |t| && !AsciiWhitespace(t[e.at]) && !OpensComment(t, e.at)
       case UnexpectedEnd => e.at == |t| && (LooseSkip(t, 0) == |t| || ':' in t)
       case UnexpectedCharacter => e.at < |t| && t[e.at] in ",}]/"
       case UnterminatedObject => e.at == |t| && '{' in t
       case UnterminatedArray => e.at == |t| && '[' in t
       case UnterminatedString => e.at == |t| && '"' in t
       case ExpectedColon => '"' in t && (e.at == |t| || t[e.at] != ':')
       case ExpectedKey => '{' in t && e.at < |t| && t[e.at] != '}' && t[e.at] != ',' && t[e.at] != '"'
       case BadKey => 0 < e.at && t[e.at - 1] == '"'
  }

  lemma {:induction false} ValueErrs(t: string, i: nat)
    requires i <= |t| && (LooseSkip(t, i) == |t| ==> LooseSkip(t, 0) == |t| || ':' in t)
    ensures ParseValue(t, i).Err? ==> PointsAt(t, ParseValue(t, i).error)
    decreases |t| - i, 0
  {
    hide LooseSkip, StringEnd, LineEnd, BlockEnd;
    var start := LooseSkip(t, i);
    if start < |t| {
      if t[start] == '{' {
        MembersErr(t, start + 1);
      } else if t[start] == '[' {
        ElementsErr(t, start + 1);
      } else if BareEnd(t, start) == start {
        BareStopsAt(t, start);
      }
    }
  }

  lemma BareStopsAt(t: string, i: nat)
    requires i < |t| && BareEnd(t, i) == i && !AsciiWhitespace(t[i])
    ensures t[i] in ",}]/"
  {
  }

  lemma KeyErrs(t: string, q: nat)
    requires q < |t| && t[q] == '"'
    ensures match ParseKey(t, q)
      case Err(e) => PointsAt(t, e)
      case Ok(head) => head.1 > 0 && t[head.1 - 1] == ':'
  {
    hide LooseSkip, Decode;
  }

  lemma {:induction false} MembersErr(t: string, p: nat)
    requires p <= |t| && '{' in t
    ensures ParseMembers(t, p).Err? ==> PointsAt(t, ParseMembers(t, p).error)
    decreases |t| - p, 1
  {
    hide LooseSkip, ParseKey, ParseValue, StringEnd;
    var q := LooseSkip(t, p);
    if q == |t| {
    } else if t[q] == ',' {
      MembersErr(t, q + 1);
    } else if t[q] == '"' {
      KeyErrs(t, q);
      if ParseKey(t, q).Ok? {
        var head := ParseKey(t, q).value;
        ValueErrs(t, head.1);
        if ParseValue(t, head.1).Ok? {
          MembersErr(t, ParseValue(t, head.1).value.end);
        }
      }
    }
  }

  lemma {:induction false} ElementsErr(t: string, p: nat)
    requires p <= |t| && '[' in t
    ensures ParseElements(t, p).Err? ==> PointsAt(t, ParseElements(t, p).error)
    decreases |t| - p, 1
  {
    hide LooseSkip, ParseValue;
    var q := LooseSkip(t, p);
    if q < |t| && t[q] == ',' {
      ElementsErr(t, q + 1);
    } else if q < |t| && t[q] != ']' {
      LooseSkipTwice(t, p);
      ValueErrs(t, q);
      if ParseValue(t, q).Ok? {
        ElementsErr(t, ParseValue(t, q).value.end);
      }
    }
  }

  /** Whatever stops the parser, it names the reason for the place it stopped at. */
  lemma ParserPointsAt(t: string)
    ensures ParseDocument(t).Err? ==> PointsAt(t, ParseDocument(t).error)
  {
    hide ParseValue;
    var start := LooseSkip(t, 0);
    if start < |t| {
      LooseSkipTwice(t, 0);
      ValueErrs(t, start);
    }
  }
}
