/** What `del` leaves of the text itself: where it cuts, and which comments go with a member. */
module JsonDelFrame {
  import opened Text
  import opened JsonLexer
  import opened JsonStrict
  import opened JsonParser
  import opened JsonLocality
  import opened JsonReader
  import opened JsonComments
  import opened JsonCompose
  import opened JsonEdit
  import opened JsonMember
  import opened JsonInsert
  import opened JsonSet
  import opened JsonSetLaws
  import opened JsonDocument
  import opened JsonDel
  import opened JsonDelLaws

  // ---- the member a path leads to ---------------------------------------------------------------

  /** An object, and which of its members. */
  datatype Place = Place(node: Node, k: nat)

  predicate InObject(p: Place) {
    p.node.kind.Object? && p.k < |p.node.kind.members|
  }

  /** The member at the end of the path. */
  function Addressed(node: Node, segments: seq<string>): (r: Option<Place>)
    requires segments != []
    ensures r.Some? ==> InObject(r.value)
    decreases |segments|
  {
    if !node.kind.Object? then None
    else
      match FindMember(node.kind.members, segments[0])
      case None => None
      case Some(k) =>
        if |segments| == 1 then Some(Place(node, k)) else Addressed(node.kind.members[k].value, segments[1..])
  }

  /** From an object's brace a scanner reaches every member. */
  lemma {:induction false} KeyClean(t: string, i: nat, k: nat)
    requires Value(t, i).Some? && Value(t, i).value.kind.Object? && k < |Value(t, i).value.kind.members|
    ensures var ms := Value(t, i).value.kind.members;
      var at := After(ms, i + 1, k);
      && Clean(t, i, at) && Clean(t, at, ms[k].keyStart) && Clean(t, i, ms[k].keyStart)
      && Clean(t, ms[k].keyStart, ms[k].value.start) && Clean(t, ms[k].keyStart, ms[k].value.end)
    decreases k
  {
    hide Clean, Members, Value, MemberAt, Separator;
    ObjectMembers(t, i);
    var (ms, end) := Members(t, i + 1, true).value;
    var at := After(ms, i + 1, k);
    MembersFrom(t, i + 1, true, k);
    MembersStep(t, at, k == 0);
    if k == 0 {
      CleanChar(t, i);
    } else {
      KeyClean(t, i, k - 1);
      CleanJoin(t, i, ms[k - 1].keyStart, at);
    }
    SeparatorClean(t, at, k == 0, '}');
    MemberClean(t, ms[k].keyStart);
    CleanJoin(t, i, at, ms[k].keyStart);
  }

  /** `del` removes the member it leads to, or changes nothing. */
  lemma {:induction false} DelAddresses(t: string, i: nat, segments: seq<string>)
    requires Value(t, i).Some? && WellFormed(t, Value(t, i).value) && segments != [] && Clean(t, 0, i)
    ensures match Addressed(Value(t, i).value, segments)
      case None => DelPath(t, Value(t, i).value, segments) == t
      case Some(p) =>
        && Value(t, p.node.start) == Some(p.node) && WellFormed(t, p.node) && Clean(t, 0, p.node.start)
        && DelPath(t, Value(t, i).value, segments) == RemoveMember(t, p.node, p.k)
    decreases |segments|
  {
    hide Value, WellFormed, RemoveMember, FindMember, Clean;
    var node := Value(t, i).value;
    if node.kind.Object? {
      match FindMember(node.kind.members, segments[0])
      case None =>
      case Some(k) =>
        if |segments| > 1 {
          var c := node.kind.members[k].value;
          MemberPlace(t, i, k);
          KeyClean(t, i, k);
          CleanJoin(t, 0, i, node.kind.members[k].keyStart);
          CleanJoin(t, 0, node.kind.members[k].keyStart, c.start);
          DelAddresses(t, c.start, segments[1..]);
        }
    }
  }

  // ---- where it cuts ------------------------------------------------------------------------------

  /**
   * The cut for member `k` of `node`, and what is put in its place: the whole object, if it holds
   * no other member and no comment; the member's own line; from the key of an only member inside a
   * line to the end of its tail; from the key to the next one; or from the end of the value before
   * to the end of the tail, a trailing comma staying.
   */
  predicate Cut(t: string, node: Node, k: nat, a: nat, b: nat, x: string)
    requires node.kind.Object? && k < |node.kind.members|
  {
    var ms := node.kind.members;
    var (m, e) := (ms[k], ms[k].value.end);
    && m.keyStart <= e <= |t| && a <= b <= |t|
    && (|| (|ms| == 1 && a == node.start && b == node.end && x == "{}"
            && a + 1 < b && !HasComment(t[a + 1..b - 1]))
        || (OnOwnLine(t, node, m) && a == LineStart(t, m.keyStart) && b == ExtendLineEnd(t, MemberTailEnd(t, e))
            && x == "" && (|ms| == 1 || k + 1 < |ms|))
        || (!OnOwnLine(t, node, m) && a == m.keyStart && b == MemberTailEnd(t, e) && x == "" && |ms| == 1)
        || (k + 1 < |ms| && !OnOwnLine(t, node, m) && a == m.keyStart && b == ms[k + 1].keyStart && x == "")
        || (0 < k && k + 1 == |ms| && a == ms[k - 1].value.end && b == MemberTailEnd(t, e)
            && x == if CommaAt(t, NextSignificant(t, e)) then "," else ""))
  }

  lemma RemoveCuts(t: string, node: Node, k: nat) returns (a: nat, b: nat, x: string)
    requires WellFormed(t, node) && node.kind.Object? && k < |node.kind.members|
    ensures Cut(t, node, k, a, b, x) && RemoveMember(t, node, k) == Splice(t, a, b, x)
  {
    hide WellFormed, Splice, RemoveMember, RemoveOnly, LineStart, ExtendLineEnd, MemberTailEnd, NextSignificant,
      OnOwnLine, HasComment;
    var ms := node.kind.members;
    var m, e := ms[k], ms[k].value.end;
    RemoveShape(t, node, k);
    MembersOrdered(t, node, k);
    NodeBounds(t, node);
    var line, tail := LineStart(t, m.keyStart), MemberTailEnd(t, e);
    if |ms| == 1 {
      RemoveOnlyShape(t, node);
      if !HasComment(t[node.start + 1..node.end - 1]) {
        a, b, x := node.start, node.end, "{}";
      } else if OnOwnLine(t, node, m) {
        a, b, x := line, ExtendLineEnd(t, tail), "";
      } else {
        KeyOpensNoLine(t, node, m);
        a, b, x := m.keyStart, tail, "";
      }
    } else if k + 1 < |ms| {
      if OnOwnLine(t, node, m) {
        a, b, x := line, ExtendLineEnd(t, tail), "";
      } else {
        a, b, x := m.keyStart, ms[k + 1].keyStart, "";
      }
    } else {
      a, b, x := ms[k - 1].value.end, tail, if CommaAt(t, NextSignificant(t, e)) then "," else "";
    }
  }

  lemma KeyOpensNoLine(t: string, node: Node, m: Member)
    requires node.start < m.keyStart <= |t| && !OnOwnLine(t, node, m)
    ensures LineStart(t, m.keyStart) != m.keyStart
  {
    hide LineStart;
  }

  /** `del` of one path changes nothing or makes one such cut for the member it leads to. */
  lemma DelLeavesRest(t: string, path: string)
    requires DelOne(t, path).Ok?
    ensures Accepts(t) && ObjectDocument(t) && Segments(path) != []
    ensures var u := DelOne(t, path).value;
      match Addressed(ParseDocument(t).value, Segments(path))
      case None => u == t
      case Some(p) => exists a, b, x :: Cut(t, p.node, p.k, a, b, x) && u == Splice(t, a, b, x)
  {
    hide Value, WellFormed, ParseDocument, Accepts, DelPath, Cut, Segments, Addressed, Clean, Splice, RemoveMember;
    RootAddresses(t, path);
    match Addressed(ParseDocument(t).value, Segments(path))
    case None =>
    case Some(p) =>
      var a, b, x := RemoveCuts(t, p.node, p.k);
  }

  lemma RootAddresses(t: string, path: string)
    requires DelOne(t, path).Ok?
    ensures Accepts(t) && ObjectDocument(t) && Segments(path) != []
    ensures match Addressed(ParseDocument(t).value, Segments(path))
      case None => DelOne(t, path).value == t
      case Some(p) =>
        && Value(t, p.node.start) == Some(p.node) && WellFormed(t, p.node) && Clean(t, 0, p.node.start)
        && DelOne(t, path).value == RemoveMember(t, p.node, p.k)
  {
    hide Value, WellFormed, ParseDocument, Accepts, DelPath, Segments, Addressed, Clean, Skip, RemoveMember;
    EditableText(t);
    SkipClean(t, 0);
    DelAddresses(t, ParseDocument(t).value.start, Segments(path));
  }

  // ---- which comments go --------------------------------------------------------------------------

  /** Between the end of an element, or of a tail behind it, and a token: at most one comma, which `Skip` meets. */
  predicate Gap(t: string, p: nat, q: nat)
    requires p <= |t| && q <= |t|
  {
    && Skip(t, p) < |t|
    && (Skip(t, p) == q || (t[Skip(t, p)] == ',' && q < |t| && Skip(t, Skip(t, p) + 1) == q))
  }

  /** In a gap every slash belongs to a comment. */
  lemma GapComments(t: string, p: nat, q: nat)
    requires p <= |t| && q <= |t| && Gap(t, p, q)
    ensures p <= q && Clean(t, p, q)
    ensures HasComment(t[p..q]) <==> CommentsIn(t, p, q) != []
  {
    hide Clean, CommentsIn, Skip;
    var c := Skip(t, p);
    SkipClean(t, p);
    if c != q {
      CleanChar(t, c);
      SkipClean(t, c + 1);
      CleanJoin(t, c, c + 1, q);
      CleanJoin(t, p, c, q);
    }
    if CommentsIn(t, p, q) != [] {
      var k := CommentInside(t, p, q);
      assert OpensComment(t[p..q], k - p);
    } else {
      assert forall k | p <= k < q :: t[k] != '/';
      assert forall k | 0 <= k < q - p :: t[p..q][k] == t[p + k];
    }
  }

  /** The comments of a text with one stretch replaced by braces, a comma or nothing. */
  lemma SpliceComments(t: string, a: nat, b: nat, x: string)
    requires Clean(t, 0, a) && a <= b <= |t| && x in ["", ",", "{}"]
    ensures Comments(Splice(t, a, b, x), 0) == CommentsIn(t, 0, a) + Comments(t, b)
  {
    hide Clean, Comments, CommentsIn, Agree, Stands, Splice;
    var u := Splice(t, a, b, x);
    assert u == t[..a] + x + t[b..] by { SpliceIs(t, a, b, x); }
    SpliceAgree(t, u, a, b, x);
    AgreeBounds(t, u, b, |t|, |u| - |t|);
    CommentsFront(t, u, 0, a);
    CommentsTail(t, u, b, |u| - |t|);
    if x != "" {
      StandsAt(u, a, x, 0);
      CleanChar(u, a);
      if x == "{}" {
        StandsAt(u, a, x, 1);
        CleanChar(u, a + 1);
      }
    }
  }

  lemma SpliceIs(t: string, a: nat, b: nat, x: string)
    requires a <= b <= |t|
    ensures Splice(t, a, b, x) == t[..a] + x + t[b..]
  {
  }

  lemma ListsMeet<T>(p: seq<T>, x: seq<T>, y: seq<T>, q: seq<T>)
    ensures p + q == (p + x) + (y + q) <==> x == [] && y == []
  {
    assert x == [] && y == [] ==> p + x == p && y + q == q;
    assert p + q == (p + x) + (y + q) ==> |p + q| == |(p + x) + (y + q)|;
  }

  /**
   * A comment that is not the member's own goes with it: the last of several takes what stands
   * between the value before and its key; one that shares its line takes what stands between its
   * tail and the next key.
   */
  predicate TakesComment(t: string, node: Node, k: nat)
    requires node.kind.Object? && k < |node.kind.members|
  {
    var ms := node.kind.members;
    && |ms| > 1 && ms[k].keyStart <= |t| && ms[k].value.end <= |t|
    && if k + 1 < |ms| then
         && !OnOwnLine(t, node, ms[k])
         && HasComment(Slice(t, MemberTailEnd(t, ms[k].value.end), ms[k + 1].keyStart))
       else HasComment(Slice(t, ms[k - 1].value.end, ms[k].keyStart))
  }

  /** The comments in front of the member and behind its tail. */
  function OtherComments(t: string, m: Member): seq<string>
    requires Clean(t, 0, m.keyStart) && m.value.end <= |t|
  {
    CommentsIn(t, 0, m.keyStart) + Comments(t, MemberTailEnd(t, m.value.end))
  }

  /** Where the member stands for a scanner. */
  lemma {:induction false} PlaceIsClean(t: string, node: Node, k: nat)
    requires Value(t, node.start) == Some(node) && node.kind.Object? && k < |node.kind.members| && Clean(t, 0, node.start)
    ensures var (at, key) := (After(node.kind.members, node.start + 1, k), node.kind.members[k].keyStart);
      && Clean(t, 0, at) && Clean(t, at, key) && Clean(t, 0, key)
      && CommentsIn(t, 0, key) == CommentsIn(t, 0, at) + CommentsIn(t, at, key)
      && Clean(t, node.start, key)
      && CommentsIn(t, 0, key) == CommentsIn(t, 0, node.start) + CommentsIn(t, node.start, key)
  {
    hide Clean, CommentsIn, Value, After;
    KeyClean(t, node.start, k);
    var (at, key) := (After(node.kind.members, node.start + 1, k), node.kind.members[k].keyStart);
    CleanJoin(t, 0, node.start, at);
    CleanJoin(t, 0, at, key);
    CleanJoin(t, 0, node.start, key);
  }

  lemma LineEndHasNoComment(t: string, m: nat)
    requires m <= |t|
    ensures Comments(t, m) == Comments(t, ExtendLineEnd(t, m))
  {
    hide Comments;
    var a := if m < |t| && t[m] == '\r' then m + 1 else m;
    if m < a {
      CleanChar(t, m);
    }
    if a < |t| && t[a] == '\n' {
      CleanChar(t, a);
    }
  }

  /** The start of the member's own line. */
  lemma {:induction false} OwnLineIsClean(t: string, node: Node, k: nat)
    requires Value(t, node.start) == Some(node) && node.kind.Object? && k < |node.kind.members| && Clean(t, 0, node.start)
    requires node.kind.members[k].keyStart <= |t| && OnOwnLine(t, node, node.kind.members[k])
    ensures var (line, key) := (LineStart(t, node.kind.members[k].keyStart), node.kind.members[k].keyStart);
      Clean(t, 0, line) && Clean(t, 0, key) && CommentsIn(t, 0, key) == CommentsIn(t, 0, line)
  {
    hide Clean, CommentsIn, Value, After, LineStart, OnOwnLine, Separator, Members, Whitespace;
    var m := node.kind.members[k];
    var at := After(node.kind.members, node.start + 1, k);
    PlaceIsClean(t, node, k);
    AroundMember(t, node.start, k);
    AfterStart(node, k);
    LineOfKey(t, node, m, at);
    var line := LineStart(t, m.keyStart);
    CleanBack(t, at, line, m.keyStart);
    NotWhite();
    RunClean(t, line, m.keyStart);
    CleanJoin(t, 0, at, line);
    CleanJoin(t, 0, line, m.keyStart);
  }

  lemma AfterStart(node: Node, k: nat)
    requires node.kind.Object? && k <= |node.kind.members|
    ensures k == 0 ==> After(node.kind.members, node.start + 1, k) == node.start + 1
    ensures k > 0 ==> After(node.kind.members, node.start + 1, k) == node.kind.members[k - 1].value.end
  {
  }

  /** Key or line start to tail or line end: the other comments stay. */
  lemma {:induction false} LineKeepsComments(t: string, node: Node, k: nat, a: nat, b: nat)
    requires Value(t, node.start) == Some(node) && node.kind.Object? && k < |node.kind.members| && Clean(t, 0, node.start)
    requires var m := node.kind.members[k];
      && m.keyStart <= m.value.end <= |t| && a <= b <= |t|
      && (a == m.keyStart || (a == LineStart(t, m.keyStart) && OnOwnLine(t, node, m)))
      && (b == MemberTailEnd(t, m.value.end) || b == ExtendLineEnd(t, MemberTailEnd(t, m.value.end)))
    ensures Clean(t, 0, node.kind.members[k].keyStart)
    ensures Comments(Splice(t, a, b, ""), 0) == OtherComments(t, node.kind.members[k])
  {
    hide Clean, CommentsIn, Comments, Value, After, LineStart, OnOwnLine, MemberTailEnd, ExtendLineEnd, Splice;
    var m := node.kind.members[k];
    PlaceIsClean(t, node, k);
    if a != m.keyStart {
      OwnLineIsClean(t, node, k);
    }
    LineEndHasNoComment(t, MemberTailEnd(t, m.value.end));
    SpliceComments(t, a, b, "");
  }

  /** Key to next key: what stands between the tail and the next key goes. */
  lemma {:induction false} InlineComments(t: string, node: Node, k: nat)
    requires Value(t, node.start) == Some(node) && node.kind.Object? && k + 1 < |node.kind.members| && Clean(t, 0, node.start)
    ensures var (m, b) := (node.kind.members[k], node.kind.members[k + 1].keyStart);
      && m.keyStart <= b <= |t| && m.value.end <= |t| && Clean(t, 0, m.keyStart)
      && (Comments(Splice(t, m.keyStart, b, ""), 0) == OtherComments(t, m)
          <==> !HasComment(Slice(t, MemberTailEnd(t, m.value.end), b)))
  {
    hide Clean, CommentsIn, Comments, Value, After, MemberTailEnd, Splice, Members, Separator, HasComment, Skip,
      CommaAttached, ExtendLineEnd;
    var m, b := node.kind.members[k], node.kind.members[k + 1].keyStart;
    PlaceIsClean(t, node, k);
    AroundMember(t, node.start, k);
    NextKey(t, m.value.end);
    assert node.kind.members[k + 1..][0] == node.kind.members[k + 1];
    TailGoesOn(t, m.value.end);
    var tail := MemberTailEnd(t, m.value.end);
    SkipStays(t, m.value.end);
    assert Gap(t, tail, b);
    GapComments(t, tail, b);
    CommentsFrom(t, tail, b);
    SpliceComments(t, m.keyStart, b, "");
    ListsMeet(CommentsIn(t, 0, m.keyStart), [], CommentsIn(t, tail, b), Comments(t, b));
    assert CommentsIn(t, 0, m.keyStart) + [] == CommentsIn(t, 0, m.keyStart);
  }

  /** Value before to tail: what stands between that value and the key goes. */
  lemma {:induction false} LastComments(t: string, node: Node, x: string)
    requires Value(t, node.start) == Some(node) && node.kind.Object? && |node.kind.members| > 1 && Clean(t, 0, node.start)
    requires x in ["", ","]
    ensures var (p, m) := (node.kind.members[|node.kind.members| - 2], node.kind.members[|node.kind.members| - 1]);
      && p.value.end <= m.keyStart <= m.value.end <= |t| && m.value.end <= MemberTailEnd(t, m.value.end) <= |t|
      && Clean(t, 0, m.keyStart)
      && (Comments(Splice(t, p.value.end, MemberTailEnd(t, m.value.end), x), 0) == OtherComments(t, m)
          <==> !HasComment(Slice(t, p.value.end, m.keyStart)))
  {
    hide Clean, CommentsIn, Comments, Value, After, MemberTailEnd, Splice, Members, Separator, HasComment, Skip;
    var k := |node.kind.members| - 1;
    var a, m := node.kind.members[k - 1].value.end, node.kind.members[k];
    PlaceIsClean(t, node, k);
    AroundMember(t, node.start, k);
    AfterStart(node, k);
    SeparatorIsGap(t, a, m.keyStart);
    GapComments(t, a, m.keyStart);
    var tail := MemberTailEnd(t, m.value.end);
    SpliceComments(t, a, tail, x);
    ListsMeet(CommentsIn(t, 0, a), CommentsIn(t, a, m.keyStart), [], Comments(t, tail));
    assert [] + Comments(t, tail) == Comments(t, tail);
  }

  lemma SeparatorIsGap(t: string, p: nat, q: nat)
    requires p <= |t| && Separator(t, p, false, '}') == Some(q) && t[q] == '"'
    ensures Gap(t, p, q)
  {
    hide Skip;
  }

  /** The whole object, without a comment in it. */
  lemma {:induction false} OnlyComments(t: string, node: Node)
    requires Value(t, node.start) == Some(node) && node.kind.Object? && |node.kind.members| == 1 && Clean(t, 0, node.start)
    requires node.start + 1 < node.end <= |t| && !HasComment(t[node.start + 1..node.end - 1])
    ensures var m := node.kind.members[0];
      && m.value.end <= |t| && Clean(t, 0, m.keyStart)
      && Comments(Splice(t, node.start, node.end, "{}"), 0) == OtherComments(t, m)
  {
    hide Clean, CommentsIn, Comments, Value, After, MemberTailEnd, Splice, Members, Separator, HasComment, Skip,
      CommaAttached, ExtendLineEnd, NextSignificant;
    var m, close := node.kind.members[0], node.end - 1;
    PlaceIsClean(t, node, 0);
    AroundMember(t, node.start, 0);
    ValueOpens(t, node.start);
    LastEndIs(node);
    LastZone(t, node.start);
    var tail := MemberTailEnd(t, m.value.end);
    SkipStays(t, m.value.end);
    assert Gap(t, tail, close);
    GapComments(t, tail, close);
    CommentWithin(t, node.start, close, node.start, m.keyStart);
    CommentWithin(t, node.start, close, tail, close);
    CommentsFrom(t, tail, close);
    CleanChar(t, close);
    SpliceComments(t, node.start, node.end, "{}");
    ListsMeet(CommentsIn(t, 0, node.start), [], [], Comments(t, node.end));
  }

  /** A comment behind the brace and before the other is one in the object. */
  lemma CommentWithin(t: string, i: nat, close: nat, p: nat, q: nat)
    requires i + 1 <= close <= |t| && t[i] == '{' && i <= p && q <= close && Clean(t, p, q)
    ensures CommentsIn(t, p, q) != [] ==> HasComment(t[i + 1..close])
  {
    hide Clean, CommentsIn;
    if CommentsIn(t, p, q) != [] {
      var k := CommentInside(t, p, q);
      var s := t[i + 1..close];
      assert k > i && s[k - i - 1] == t[k] && s[k - i] == t[k + 1];
      assert OpensComment(s, k - i - 1);
    }
  }

  /** Of the comments that are not the member's own all stay, unless the removal takes one. */
  lemma {:induction false} RemoveKeepsComments(t: string, node: Node, k: nat)
    requires Value(t, node.start) == Some(node) && WellFormed(t, node) && node.kind.Object? && k < |node.kind.members|
    requires Clean(t, 0, node.start)
    ensures Clean(t, 0, node.kind.members[k].keyStart) && node.kind.members[k].value.end <= |t|
    ensures Comments(RemoveMember(t, node, k), 0) == OtherComments(t, node.kind.members[k]) <==> !TakesComment(t, node, k)
  {
    hide Clean, CommentsIn, Comments, Value, WellFormed, MemberTailEnd, Splice, HasComment, RemoveMember, OtherComments,
      OnOwnLine, LineStart, ExtendLineEnd;
    var a, b, x := RemoveCuts(t, node, k);
    var n := |node.kind.members|;
    if n == 1 && x == "{}" {
      OnlyComments(t, node);
    } else if n > 1 && k + 1 == n {
      LastComments(t, node, x);
    } else if k + 1 < n && !OnOwnLine(t, node, node.kind.members[k]) {
      InlineComments(t, node, k);
    } else {
      LineKeepsComments(t, node, k, a, b);
    }
  }

  /**
   * Which comments survive `del`: all but those in the removed member and its tail, in order, exactly
   * unless the member is the last of several with a comment between the value before and its key, or
   * shares its line and has a comment between its tail and the next key.
   */
  lemma DelKeepsComments(t: string, path: string)
    requires DelOne(t, path).Ok?
    ensures Accepts(t) && ObjectDocument(t) && Segments(path) != []
    ensures var u := DelOne(t, path).value;
      match Addressed(ParseDocument(t).value, Segments(path))
      case None => u == t
      case Some(p) =>
        var m := p.node.kind.members[p.k];
        && Clean(t, 0, m.keyStart) && m.value.end <= |t|
        && (Comments(u, 0) == OtherComments(t, m) <==> !TakesComment(t, p.node, p.k))
  {
    hide Clean, CommentsIn, Comments, Value, WellFormed, ParseDocument, Accepts, Segments, Addressed, RemoveMember,
      OtherComments, TakesComment;
    RootAddresses(t, path);
    match Addressed(ParseDocument(t).value, Segments(path))
    case None =>
    case Some(p) => RemoveKeepsComments(t, p.node, p.k);
  }
}
