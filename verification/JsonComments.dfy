/** The comments of a text, as a scanner meets them, and how they go with pieces of the text. */
module JsonComments {
  import opened Text
  import opened JsonLexer
  import opened JsonStrict
  import opened JsonLocality
  import opened JsonReader

  /** The comments from `i` on, in order, `i` standing outside strings and comments. */
  function Comments(t: string, i: nat): seq<string>
    requires i <= |t|
    decreases |t| - i
  {
    if i == |t| then []
    else if t[i] == '"' then Comments(t, StringStop(t, i))
    else if OpensComment(t, i) then [t[i..CommentStop(t, i)]] + Comments(t, CommentStop(t, i))
    else Comments(t, i + 1)
  }

  /** A scanner outside strings and comments at `i` is so again at `j`, whatever follows there. */
  predicate Clean(t: string, i: nat, j: nat)
    decreases |t| - i
  {
    && i <= j <= |t|
    && (i < j ==>
          if t[i] == '"' then StringEnd(t, i + 1).Some? && Clean(t, StringEnd(t, i + 1).value, j)
          else if OpensComment(t, i) then
            && CommentEnd(t, i).Some? && (t[i + 1] == '/' ==> CommentEnd(t, i).value < j)
            && Clean(t, CommentEnd(t, i).value, j)
          else t[i] != '/' && Clean(t, i + 1, j))
  }

  /** The comments between two such places. */
  function CommentsIn(t: string, i: nat, j: nat): seq<string>
    requires Clean(t, i, j)
    decreases |t| - i
  {
    if i == j then []
    else if t[i] == '"' then CommentsIn(t, StringEnd(t, i + 1).value, j)
    else if OpensComment(t, i) then [t[i..CommentEnd(t, i).value]] + CommentsIn(t, CommentEnd(t, i).value, j)
    else CommentsIn(t, i + 1, j)
  }

  lemma CommentsStep(t: string, i: nat)
    requires i < |t|
    ensures Comments(t, i) == if t[i] == '"' then Comments(t, StringStop(t, i))
                              else if OpensComment(t, i) then [t[i..CommentStop(t, i)]] + Comments(t, CommentStop(t, i))
                              else Comments(t, i + 1)
  {
  }

  /** Where the scanner goes on. */
  function Onward(t: string, i: nat): (e: nat)
    requires i < |t|
    ensures i < e <= |t|
  {
    if t[i] == '"' then StringStop(t, i) else if OpensComment(t, i) then CommentStop(t, i) else i + 1
  }

  lemma CleanStep(t: string, i: nat, j: nat)
    requires Clean(t, i, j) && i < j
    ensures j <= |t| && Onward(t, i) <= j && Clean(t, Onward(t, i), j)
    ensures CommentsIn(t, i, j)
         == if t[i] != '"' && OpensComment(t, i) then [t[i..Onward(t, i)]] + CommentsIn(t, Onward(t, i), j)
            else CommentsIn(t, Onward(t, i), j)
    ensures t[i] == '"' ==> StringEnd(t, i + 1) == Some(Onward(t, i))
    ensures t[i] != '"' && OpensComment(t, i) ==>
      CommentEnd(t, i) == Some(Onward(t, i)) && (t[i + 1] == '/' ==> Onward(t, i) < j)
    ensures t[i] != '"' && !OpensComment(t, i) ==> t[i] != '/'
  {
    hide StringEnd, CommentEnd;
  }

  lemma CleanBounds(t: string, i: nat, j: nat)
    requires Clean(t, i, j)
    ensures i <= j <= |t|
  {
  }

  lemma CleanHere(t: string, i: nat)
    requires i <= |t|
    ensures Clean(t, i, i) && CommentsIn(t, i, i) == []
  {
  }

  /** Any character that opens nothing. */
  lemma CleanChar(t: string, i: nat)
    requires i < |t| && t[i] != '"' && t[i] != '/'
    ensures Clean(t, i, i + 1) && CommentsIn(t, i, i + 1) == []
    ensures Comments(t, i) == Comments(t, i + 1)
  {
    CleanHere(t, i + 1);
  }

  lemma {:induction false} CleanJoin(t: string, i: nat, j: nat, k: nat)
    requires Clean(t, i, j) && Clean(t, j, k)
    ensures Clean(t, i, k) && CommentsIn(t, i, k) == CommentsIn(t, i, j) + CommentsIn(t, j, k)
    decreases |t| - i
  {
    hide Clean, CommentsIn;
    CleanBounds(t, i, j);
    CleanBounds(t, j, k);
    if i == j {
      CleanHere(t, i);
      assert [] + CommentsIn(t, j, k) == CommentsIn(t, j, k);
    } else {
      var e := Onward(t, i);
      CleanStep(t, i, j);
      CleanJoin(t, e, j, k);
      CleanCons(t, i, k);
      var x, y := CommentsIn(t, e, j), CommentsIn(t, j, k);
      assert [t[i..e]] + (x + y) == [t[i..e]] + x + y;
    }
  }

  lemma CleanCons(t: string, i: nat, j: nat)
    requires i < |t| && Onward(t, i) <= j <= |t| && Clean(t, Onward(t, i), j)
    requires t[i] == '"' ==> StringEnd(t, i + 1).Some?
    requires t[i] != '"' && OpensComment(t, i) ==>
      CommentEnd(t, i).Some? && (t[i + 1] == '/' ==> Onward(t, i) < j)
    requires t[i] != '"' && !OpensComment(t, i) ==> t[i] != '/'
    ensures Clean(t, i, j)
    ensures CommentsIn(t, i, j)
         == if t[i] != '"' && OpensComment(t, i) then [t[i..Onward(t, i)]] + CommentsIn(t, Onward(t, i), j)
            else CommentsIn(t, Onward(t, i), j)
  {
    hide StringEnd, CommentEnd;
  }

  // ---- the same comments elsewhere ----------------------------------------------------------------

  lemma {:induction false} StringEndTail(t: string, u: string, i: nat, d: int)
    requires i <= |t| && Agree(t, u, i, |t|, d) && |u| == |t| + d
    ensures StringEnd(u, i + d) == match StringEnd(t, i) case Some(e) => Some(e + d) case None => None
    decreases |t| - i
  {
    if i < |t| && t[i] != '"' {
      if t[i] != '\\' {
        StringEndTail(t, u, i + 1, d);
      } else if i + 2 <= |t| {
        StringEndTail(t, u, i + 2, d);
      }
    }
  }

  /** A common tail has the same comments. */
  lemma {:induction false} CommentsTail(t: string, u: string, i: nat, d: int)
    requires i <= |t| && Agree(t, u, i, |t|, d) && |u| == |t| + d
    ensures Comments(u, i + d) == Comments(t, i)
    decreases |t| - i
  {
    hide Agree, StringEnd, CommentEnd, Comments;
    AgreeBounds(t, u, i, |t|, d);
    if i == |t| {
      NoMore(t);
      NoMore(u);
    } else {
      CommentsStep(t, i);
      CommentsStep(u, i + d);
      Within(t, u, i, |t|, d, i, |t|);
      Within(t, u, i, |t|, d, i + 1, |t|);
      var e := Onward(t, i);
      Within(t, u, i, |t|, d, i, e);
      Within(t, u, i, |t|, d, e, |t|);
      SliceLocal(t, u, i, e, d);
      if t[i] == '"' {
        StringEndTail(t, u, i + 1, d);
      } else if OpensComment(t, i) {
        CommentEndTail(t, u, i, d);
      } else {
        StillNoComment(t, u, i, d);
      }
      assert Onward(u, i + d) == e + d;
      hide Onward, StringStop, CommentStop;
      CommentsTail(t, u, e, d);
    }
  }

  lemma NoMore(t: string)
    ensures Comments(t, |t|) == []
  {
  }

  lemma StillNoComment(t: string, u: string, i: nat, d: int)
    requires i < |t| && Agree(t, u, i, |t|, d) && |u| == |t| + d && !OpensComment(t, i)
    ensures !OpensComment(u, i + d)
  {
    assert i + 1 < |t| ==> u[(i + 1) + d] == t[i + 1];
  }

  /** A common front has the same comments, whatever goes on behind it. */
  lemma {:induction false} CommentsFront(t: string, u: string, i: nat, j: nat)
    requires Clean(t, i, j) && Agree(t, u, i, j, 0)
    ensures i <= j <= |u| && Comments(u, i) == CommentsIn(t, i, j) + Comments(u, j)
    decreases |t| - i
  {
    hide Agree, StringEnd, CommentEnd, Clean, CommentsIn, Comments, StringStop, CommentStop;
    AgreeBounds(t, u, i, j, 0);
    if i == j {
      CleanHere(t, i);
      assert [] + Comments(u, j) == Comments(u, j);
    } else {
      var e := Onward(t, i);
      CleanStep(t, i, j);
      CommentsStep(u, i);
      Within(t, u, i, j, 0, i, e);
      Within(t, u, i, j, 0, e, j);
      SameOnward(t, u, i, j);
      SliceLocal(t, u, i, e, 0);
      CommentsFront(t, u, e, j);
    }
  }

  /** The step is the same in both texts. */
  lemma SameOnward(t: string, u: string, i: nat, j: nat)
    requires Clean(t, i, j) && i < j && Agree(t, u, i, j, 0)
    ensures i < j <= |t| && j <= |u| && u[i] == t[i]
    ensures Onward(u, i) == Onward(t, i)
    ensures t[i] != '"' ==> (OpensComment(u, i) <==> OpensComment(t, i))
  {
    hide Agree, StringEnd, CommentEnd, Clean, CommentsIn;
    CleanBounds(t, i, j);
    var e := Onward(t, i);
    CleanStep(t, i, j);
    AgreeBounds(t, u, i, j, 0);
    Within(t, u, i, j, 0, i, j);
    if t[i] == '"' {
      Within(t, u, i, j, 0, i + 1, e);
      StringEndLocal(t, u, i + 1, 0);
    } else if OpensComment(t, i) {
      CommentFront(t, u, i, j);
    }
  }

  lemma CommentFront(t: string, u: string, i: nat, j: nat)
    requires OpensComment(t, i) && CommentEnd(t, i).Some? && CommentEnd(t, i).value <= j && Agree(t, u, i, j, 0)
    requires t[i + 1] == '/' ==> CommentEnd(t, i).value < j
    ensures OpensComment(u, i) && CommentEnd(u, i) == CommentEnd(t, i)
  {
    hide LineEnd, BlockEnd;
    assert u[i + 0] == t[i] && u[(i + 1) + 0] == t[i + 1];
    if t[i + 1] == '/' {
      LineEndLocal(t, u, i + 2, 0);
    } else {
      BlockEndLocal(t, u, i + 2, 0);
    }
  }

  lemma CommentsFrom(t: string, i: nat, j: nat)
    requires Clean(t, i, j)
    ensures j <= |t| && Comments(t, i) == CommentsIn(t, i, j) + Comments(t, j)
  {
    CleanBounds(t, i, j);
    CommentsFront(t, t, i, j);
  }

  // ---- what the grammar passes over ---------------------------------------------------------------

  /** Up to the next token; without comments there is only white space. */
  lemma {:induction false} SkipClean(t: string, p: nat)
    requires p <= |t| && Skip(t, p) < |t|
    ensures Clean(t, p, Skip(t, p))
    ensures CommentsIn(t, p, Skip(t, p)) == [] ==> forall k | p <= k < Skip(t, p) :: JsonWs(t[k])
    decreases |t| - p
  {
    hide CommentEnd;
    var q := Skip(t, p);
    if p == q {
      CleanHere(t, p);
    } else if JsonWs(t[p]) {
      SkipClean(t, p + 1);
    } else {
      CommentSkipped(t, p);
      SkipClean(t, CommentEnd(t, p).value);
    }
  }

  lemma SeparatorClean(t: string, p: nat, first: bool, close: char)
    requires p <= |t| && Separator(t, p, first, close).Some?
    ensures Clean(t, p, Separator(t, p, first, close).value)
  {
    hide Skip, Clean;
    var q, r := Skip(t, p), Separator(t, p, first, close).value;
    SkipClean(t, p);
    if q < r {
      CleanChar(t, q);
      SkipClean(t, q + 1);
      CleanJoin(t, p, q, q + 1);
      CleanJoin(t, p, q + 1, r);
    }
  }

  lemma StringClean(t: string, i: nat)
    requires i < |t| && t[i] == '"' && StringEnd(t, i + 1).Some?
    ensures Clean(t, i, StringEnd(t, i + 1).value)
  {
    CleanHere(t, StringEnd(t, i + 1).value);
  }

  lemma {:induction false} RunClean(t: string, i: nat, e: nat)
    requires i <= e <= |t| && forall k | i <= k < e :: t[k] != '"' && t[k] != '/'
    ensures Clean(t, i, e) && CommentsIn(t, i, e) == []
    decreases e - i
  {
    if i < e {
      RunClean(t, i + 1, e);
    }
  }

  lemma ScalarClean(t: string, i: nat)
    requires i < |t| && ScalarEnd(t, i).Some?
    ensures Clean(t, i, ScalarEnd(t, i).value)
  {
    hide Clean, Decode, IsLiteral;
    if t[i] == '"' {
      StringClean(t, i);
    } else {
      var e := ScalarEnd(t, i).value;
      LiteralChars(t[i..e]);
      assert forall k | i <= k < e :: t[k] == t[i..e][k - i];
      RunClean(t, i, e);
    }
  }

  /** From a member's key to its value. */
  lemma HeadClean(t: string, q: nat)
    requires q < |t| && MemberHead(t, q).Some? && MemberHead(t, q).value.1 < |t|
    ensures Clean(t, q, MemberHead(t, q).value.1)
  {
    hide Clean, Skip, StringEnd, Decode;
    var e := StringEnd(t, q + 1).value;
    var colon, start := Skip(t, e), MemberHead(t, q).value.1;
    StringClean(t, q);
    SkipClean(t, e);
    CleanChar(t, colon);
    SkipClean(t, colon + 1);
    CleanJoin(t, q, e, colon);
    CleanJoin(t, q, colon, colon + 1);
    CleanJoin(t, q, colon + 1, start);
  }

  lemma {:induction false} ValueClean(t: string, i: nat)
    requires Value(t, i).Some?
    ensures Clean(t, i, Value(t, i).value.end)
    decreases |t| - i, 0
  {
    hide Clean, ScalarEnd;
    var end := Value(t, i).value.end;
    if t[i] == '{' {
      CleanChar(t, i);
      MembersClean(t, i + 1, true);
      CleanJoin(t, i, i + 1, end);
    } else if t[i] == '[' {
      CleanChar(t, i);
      ElementsClean(t, i + 1, true);
      CleanJoin(t, i, i + 1, end);
    } else {
      ScalarClean(t, i);
    }
  }

  lemma {:induction false} MemberClean(t: string, q: nat)
    requires q < |t| && MemberAt(t, q).Some?
    ensures var m := MemberAt(t, q).value;
      Clean(t, q, m.value.start) && Clean(t, m.value.start, m.value.end) && Clean(t, q, m.value.end)
    decreases |t| - q, 1
  {
    hide Clean, MemberHead, Value;
    var start := MemberHead(t, q).value.1;
    HeadClean(t, q);
    ValueClean(t, start);
    CleanJoin(t, q, start, Value(t, start).value.end);
  }

  lemma {:induction false} MembersClean(t: string, p: nat, first: bool)
    requires p <= |t| && Members(t, p, first).Some?
    ensures Clean(t, p, Members(t, p, first).value.1)
    decreases |t| - p, 2
  {
    hide Clean, Separator, MemberAt, Members;
    MembersStepwise(t, p, first);
    var q, end := Separator(t, p, first, '}').value, Members(t, p, first).value.1;
    SeparatorClean(t, p, first, '}');
    if t[q] == '}' {
      CleanChar(t, q);
      CleanJoin(t, p, q, q + 1);
    } else {
      var e := MemberAt(t, q).value.value.end;
      MemberClean(t, q);
      MembersClean(t, e, false);
      CleanJoin(t, p, q, e);
      CleanJoin(t, p, e, end);
    }
  }

  lemma {:induction false} ElementsClean(t: string, p: nat, first: bool)
    requires p <= |t| && Elements(t, p, first).Some?
    ensures Clean(t, p, Elements(t, p, first).value)
    decreases |t| - p, 1
  {
    hide Clean, Separator, Value;
    var q, end := Separator(t, p, first, ']').value, Elements(t, p, first).value;
    SeparatorClean(t, p, first, ']');
    if t[q] == ']' {
      CleanChar(t, q);
      CleanJoin(t, p, q, q + 1);
    } else {
      var e := Value(t, q).value.end;
      ValueClean(t, q);
      ElementsClean(t, e, false);
      CleanJoin(t, p, q, e);
      CleanJoin(t, p, e, end);
    }
  }

  // ---- comments in gaps ---------------------------------------------------------------------------

  /** A comment starts where the text has one. */
  lemma {:induction false} CommentInside(t: string, i: nat, j: nat) returns (p: nat)
    requires Clean(t, i, j) && CommentsIn(t, i, j) != []
    ensures i <= p && p + 1 < j <= |t| && OpensComment(t, p)
    decreases |t| - i
  {
    hide StringEnd, LineEnd, BlockEnd;
    if t[i] == '"' {
      p := CommentInside(t, StringEnd(t, i + 1).value, j);
    } else if OpensComment(t, i) {
      CleanBounds(t, CommentEnd(t, i).value, j);
      p := i;
    } else {
      p := CommentInside(t, i + 1, j);
    }
  }

  /** Back over white space of one line. */
  lemma {:induction false} CleanBack(t: string, p: nat, a: nat, q: nat)
    requires Clean(t, p, q) && p <= a <= q && forall k | a <= k < q :: Whitespace(t[k]) && t[k] != '\n'
    ensures Clean(t, p, a)
    decreases |t| - p
  {
    hide StringEnd, CommentEnd;
    CleanBounds(t, p, q);
    NotWhite();
    if p < a {
      if t[p] == '"' {
        CleanBounds(t, StringEnd(t, p + 1).value, q);
        CleanBack(t, StringEnd(t, p + 1).value, a, q);
      } else if OpensComment(t, p) {
        var e := CommentEnd(t, p).value;
        CommentCloses(t, p);
        CleanBounds(t, e, q);
        CleanBack(t, e, a, q);
      } else {
        CleanBack(t, p + 1, a, q);
      }
    }
  }

  lemma NotWhite()
    ensures !Whitespace('"') && !Whitespace('/')
  {
  }

  lemma CommentCloses(t: string, p: nat)
    requires OpensComment(t, p) && CommentEnd(t, p).Some?
    ensures var e := CommentEnd(t, p).value;
      if t[p + 1] == '/' then e < |t| ==> t[e] == '\n' else t[e - 1] == '/'
  {
    hide LineEnd, BlockEnd;
  }
}
