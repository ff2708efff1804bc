/**
 * The strict grammar is local: what a value parses to depends on its own text
 * and on nothing else, so text can be moved, replaced, added or removed around it.
 */
module JsonLocality {
  import opened Text
  import opened JsonLexer
  import opened JsonStrict

  /** `t[i..j]` stands in `u` as well, `d` characters further on. */
  ghost predicate Agree(t: string, u: string, i: nat, j: nat, d: int) {
    && i <= j <= |t| && 0 <= i + d && j + d <= |u|
    && forall k | i <= k < j :: u[k + d] == t[k]
  }

  /** No trivia starts here. */
  predicate Solid(t: string, i: nat) {
    i < |t| && !JsonWs(t[i]) && !OpensComment(t, i)
  }

  /** A bare literal may end here. */
  predicate Delimited(t: string, i: nat) {
    i == |t| || (i < |t| && EndsBare(t[i]))
  }

  ghost predicate Shifted(n: Node, m: Node, d: int)
    decreases n
  {
    && m.start == n.start + d && m.end == n.end + d
    && match n.kind {
      case Object(ms) =>
        && m.kind.Object? && |m.kind.members| == |ms|
        && forall i | 0 <= i < |ms| :: assert ms[i] in ms; ShiftedMember(ms[i], m.kind.members[i], d)
      case Array => m.kind.Array?
      case Scalar => m.kind.Scalar?
    }
  }

  ghost predicate ShiftedMember(a: Member, b: Member, d: int)
    decreases a
  {
    b.key == a.key && b.keyStart == a.keyStart + d && Shifted(a.value, b.value, d)
  }

  ghost predicate ShiftedMembers(ms: seq<Member>, ns: seq<Member>, d: int) {
    |ns| == |ms| && forall i | 0 <= i < |ms| :: ShiftedMember(ms[i], ns[i], d)
  }

  lemma Within(t: string, u: string, i: nat, j: nat, d: int, a: nat, b: nat)
    requires Agree(t, u, i, j, d) && i <= a <= b <= j
    ensures Agree(t, u, a, b, d)
    ensures a < b ==> u[a + d] == t[a]
  {
  }

  // ---- tokens -----------------------------------------------------------------------

  lemma {:induction false} LineEndLocal(t: string, u: string, i: nat, d: int)
    requires i <= |t| && LineEnd(t, i) < |t|
    requires Agree(t, u, i, LineEnd(t, i) + 1, d)
    ensures LineEnd(u, i + d) == LineEnd(t, i) + d
    decreases |t| - i
  {
    if t[i] != '\n' {
      LineEndLocal(t, u, i + 1, d);
    }
  }

  lemma {:induction false} BlockEndLocal(t: string, u: string, i: nat, d: int)
    requires i <= |t| && BlockEnd(t, i).Some?
    requires Agree(t, u, i, BlockEnd(t, i).value, d)
    ensures BlockEnd(u, i + d) == Some(BlockEnd(t, i).value + d)
    decreases |t| - i
  {
    if !ClosesAt(t, i) {
      BlockEndLocal(t, u, i + 1, d);
    }
  }

  lemma CommentEndLocal(t: string, u: string, i: nat, j: nat, d: int)
    requires Agree(t, u, i, j, d) && j < |t|
    requires OpensComment(t, i) && CommentEnd(t, i).Some?
    requires CommentEnd(t, i).value <= j
    requires t[i + 1] == '/' ==> CommentEnd(t, i).value < j
    ensures OpensComment(u, i + d)
    ensures CommentEnd(u, i + d) == Some(CommentEnd(t, i).value + d)
  {
    if t[i + 1] == '/' {
      LineEndLocal(t, u, i + 2, d);
    } else {
      BlockEndLocal(t, u, i + 2, d);
    }
  }

  lemma CommentSkipped(t: string, i: nat)
    requires OpensComment(t, i) && CommentEnd(t, i).Some?
    ensures Skip(t, i) == Skip(t, CommentEnd(t, i).value) >= CommentEnd(t, i).value
    ensures t[i + 1] == '/' && Skip(t, i) < |t| ==> Skip(t, i) > CommentEnd(t, i).value
  {
  }

  /** Trivia is skipped alike wherever it stands, up to the next token. */
  lemma {:induction false} SkipLocal(t: string, u: string, i: nat, d: int)
    requires i <= |t| && Skip(t, i) < |t|
    requires Agree(t, u, i, Skip(t, i), d)
    requires Solid(u, Skip(t, i) + d)
    ensures Skip(u, i + d) == Skip(t, i) + d
    decreases |t| - i
  {
    hide Agree, CommentEnd;
    var j := Skip(t, i);
    Within(t, u, i, j, d, i, j);
    if i < j {
      Within(t, u, i, j, d, i + 1, j);
      if JsonWs(t[i]) {
        SkipLocal(t, u, i + 1, d);
      } else {
        var e := CommentEnd(t, i).value;
        CommentSkipped(t, i);
        CommentEndLocal(t, u, i, j, d);
        Within(t, u, i, j, d, e, j);
        SkipLocal(t, u, e, d);
      }
    }
  }

  /** A common tail is skipped alike, even when a comment in it is left open. */
  lemma {:induction false} SkipTail(t: string, u: string, i: nat, d: int)
    requires i <= |t| && Agree(t, u, i, |t|, d) && |u| == |t| + d
    ensures Skip(u, i + d) == Skip(t, i) + d
    decreases |t| - i
  {
    hide Agree, CommentEnd;
    Within(t, u, i, |t|, d, i, |t|);
    if i < |t| {
      Within(t, u, i, |t|, d, i + 1, |t|);
      if JsonWs(t[i]) {
        SkipTail(t, u, i + 1, d);
      } else if OpensComment(t, i) {
        CommentEndTail(t, u, i, d);
        var e := CommentEnd(t, i);
        if e.Some? {
          Within(t, u, i, |t|, d, e.value, |t|);
          SkipTail(t, u, e.value, d);
        }
      }
    }
  }

  lemma CommentEndTail(t: string, u: string, i: nat, d: int)
    requires Agree(t, u, i, |t|, d) && |u| == |t| + d
    requires OpensComment(t, i)
    ensures OpensComment(u, i + d)
    ensures CommentEnd(u, i + d)
         == match CommentEnd(t, i) case Some(e) => Some(e + d) case None => None
  {
    LineEndTail(t, u, i + 2, d);
    BlockEndTail(t, u, i + 2, d);
  }

  lemma {:induction false} LineEndTail(t: string, u: string, i: nat, d: int)
    requires Agree(t, u, i, |t|, d) && |u| == |t| + d
    ensures LineEnd(u, i + d) == LineEnd(t, i) + d
    decreases |t| - i
  {
    if i < |t| && t[i] != '\n' {
      LineEndTail(t, u, i + 1, d);
    }
  }

  lemma {:induction false} BlockEndTail(t: string, u: string, i: nat, d: int)
    requires Agree(t, u, i, |t|, d) && |u| == |t| + d
    ensures BlockEnd(u, i + d)
         == match BlockEnd(t, i) case Some(e) => Some(e + d) case None => None
    decreases |t| - i
  {
    if i < |t| && !ClosesAt(t, i) {
      BlockEndTail(t, u, i + 1, d);
    }
  }

  lemma {:induction false} StringEndLocal(t: string, u: string, i: nat, d: int)
    requires StringEnd(t, i).Some?
    requires Agree(t, u, i, StringEnd(t, i).value, d)
    ensures StringEnd(u, i + d) == Some(StringEnd(t, i).value + d)
    decreases |t| - i
  {
    if t[i] == '\\' {
      StringEndLocal(t, u, i + 2, d);
    } else if t[i] != '"' {
      StringEndLocal(t, u, i + 1, d);
    }
  }

  lemma {:induction false} BareEndLocal(t: string, u: string, i: nat, d: int)
    requires i <= |t| && Agree(t, u, i, BareEnd(t, i), d)
    requires Delimited(u, BareEnd(t, i) + d)
    ensures BareEnd(u, i + d) == BareEnd(t, i) + d
    decreases |t| - i
  {
    if i < BareEnd(t, i) {
      BareEndLocal(t, u, i + 1, d);
    }
  }

  lemma SliceLocal(t: string, u: string, i: nat, j: nat, d: int)
    requires Agree(t, u, i, j, d)
    ensures u[i + d..j + d] == t[i..j]
  {
  }

  // ---- separators and member heads ----------------------------------------------------

  lemma SolidLocal(t: string, u: string, q: nat, d: int)
    requires q < |t| && 0 <= q + d < |u| && u[q + d] == t[q]
    requires !JsonWs(t[q]) && t[q] != '/'
    ensures Solid(u, q + d)
  {
  }

  lemma SeparatorLocal(t: string, u: string, p: nat, first: bool, close: char, d: int)
    requires p <= |t| && Separator(t, p, first, close).Some?
    requires Agree(t, u, p, Separator(t, p, first, close).value + 1, d)
    requires t[Separator(t, p, first, close).value] != '/' && close != ','
    ensures Separator(u, p + d, first, close) == Some(Separator(t, p, first, close).value + d)
  {
    hide Agree, Skip;
    var q, end := Skip(t, p), Separator(t, p, first, close).value;
    Within(t, u, p, end + 1, d, p, q);
    Within(t, u, p, end + 1, d, q, end + 1);
    SolidLocal(t, u, q, d);
    SkipLocal(t, u, p, d);
    if q < end {
      var r := Skip(t, q + 1);
      Within(t, u, p, end + 1, d, q + 1, r);
      Within(t, u, p, end + 1, d, r, end + 1);
      SolidLocal(t, u, r, d);
      SkipLocal(t, u, q + 1, d);
    }
  }

  lemma MemberHeadLocal(t: string, u: string, q: nat, d: int)
    requires q < |t| && MemberHead(t, q).Some? && MemberHead(t, q).value.1 < |t|
    requires Agree(t, u, q, MemberHead(t, q).value.1, d)
    requires Solid(u, MemberHead(t, q).value.1 + d)
    ensures MemberHead(u, q + d)
         == Some((MemberHead(t, q).value.0, MemberHead(t, q).value.1 + d))
  {
    hide Agree, Skip, StringEnd, Decode;
    var start := MemberHead(t, q).value.1;
    var e := StringEnd(t, q + 1).value;
    var colon := Skip(t, e);
    Within(t, u, q, start, d, q, e);
    Within(t, u, q, start, d, q + 1, e);
    Within(t, u, q, start, d, q + 1, e - 1);
    Within(t, u, q, start, d, e, colon);
    Within(t, u, q, start, d, colon, start);
    Within(t, u, q, start, d, colon + 1, start);
    StringEndLocal(t, u, q + 1, d);
    SliceLocal(t, u, q + 1, e - 1, d);
    SolidLocal(t, u, colon, d);
    SkipLocal(t, u, e, d);
    SkipLocal(t, u, colon + 1, d);
  }

  lemma ValueStartsSolid(t: string, i: nat)
    requires Value(t, i).Some?
    ensures Solid(t, i) && t[i] != '/' && t[i] != ',' && t[i] != '}' && t[i] != ']'
  {
    assert t[i..i] == "" && !IsLiteral("");
  }

  lemma ScalarEndLocal(t: string, u: string, i: nat, d: int)
    requires i < |t| && ScalarEnd(t, i).Some?
    requires Agree(t, u, i, ScalarEnd(t, i).value, d)
    requires Delimited(u, ScalarEnd(t, i).value + d)
    ensures ScalarEnd(u, i + d) == Some(ScalarEnd(t, i).value + d)
  {
    hide Agree, Decode, IsLiteral;
    var end := ScalarEnd(t, i).value;
    Within(t, u, i, end, d, i, end);
    if t[i] == '"' {
      Within(t, u, i, end, d, i + 1, end);
      Within(t, u, i, end, d, i + 1, end - 1);
      StringEndLocal(t, u, i + 1, d);
      SliceLocal(t, u, i + 1, end - 1, d);
    } else {
      BareEndLocal(t, u, i, d);
      SliceLocal(t, u, i, end, d);
    }
  }

  // ---- values ---------------------------------------------------------------------------

  lemma {:induction false} ValueLocal(t: string, u: string, i: nat, d: int)
    requires Value(t, i).Some?
    requires Agree(t, u, i, Value(t, i).value.end, d)
    requires Delimited(u, Value(t, i).value.end + d)
    ensures Value(u, i + d).Some?
    ensures Value(u, i + d).value.end == Value(t, i).value.end + d
    ensures Shifted(Value(t, i).value, Value(u, i + d).value, d)
    decreases |t| - i, 0
  {
    hide Agree, ScalarEnd;
    var end := Value(t, i).value.end;
    Within(t, u, i, end, d, i, end);
    Within(t, u, i, end, d, i + 1, end);
    if t[i] == '{' {
      MembersLocal(t, u, i + 1, true, d);
    } else if t[i] == '[' {
      ElementsLocal(t, u, i + 1, true, d);
    } else {
      ScalarEndLocal(t, u, i, d);
    }
  }

  lemma {:induction false} MemberAtLocal(t: string, u: string, q: nat, d: int)
    requires q < |t| && MemberAt(t, q).Some?
    requires Agree(t, u, q, MemberAt(t, q).value.value.end, d)
    requires Delimited(u, MemberAt(t, q).value.value.end + d)
    ensures MemberAt(u, q + d).Some?
    ensures MemberAt(u, q + d).value.value.end == MemberAt(t, q).value.value.end + d
    ensures ShiftedMember(MemberAt(t, q).value, MemberAt(u, q + d).value, d)
    decreases |t| - q, 1
  {
    hide Agree, Skip, MemberHead;
    var start := MemberHead(t, q).value.1;
    var value := Value(t, start).value;
    Within(t, u, q, value.end, d, q, start);
    Within(t, u, q, value.end, d, start, value.end);
    ValueStartsSolid(t, start);
    SolidLocal(t, u, start, d);
    MemberHeadLocal(t, u, q, d);
    ValueLocal(t, u, start, d);
  }

  lemma AgreeBounds(t: string, u: string, i: nat, j: nat, d: int)
    requires Agree(t, u, i, j, d)
    ensures i <= j <= |t| && 0 <= i + d && j + d <= |u|
  {
  }

  lemma MembersStepwise(t: string, p: nat, first: bool)
    requires p <= |t|
    ensures Members(t, p, first) == match Separator(t, p, first, '}')
      case None => None
      case Some(q) =>
        if t[q] == '}' then Some(([], q + 1))
        else if MemberAt(t, q).None? || Members(t, MemberAt(t, q).value.value.end, false).None? then None
        else
          var r := Members(t, MemberAt(t, q).value.value.end, false).value;
          Some(([MemberAt(t, q).value] + r.0, r.1))
  {
    hide Separator, MemberAt;
  }

  lemma {:induction false} MembersLocal(t: string, u: string, p: nat, first: bool, d: int)
    requires p <= |t| && Members(t, p, first).Some?
    requires Agree(t, u, p, Members(t, p, first).value.1, d)
    ensures Members(u, p + d, first).Some?
    ensures Members(u, p + d, first).value.1 == Members(t, p, first).value.1 + d
    ensures ShiftedMembers(Members(t, p, first).value.0, Members(u, p + d, first).value.0, d)
    decreases |t| - p, 2
  {
    hide Agree, Skip, Separator, MemberAt, ShiftedMember, Members;
    MembersStepwise(t, p, first);
    var q := Separator(t, p, first, '}').value;
    var end := Members(t, p, first).value.1;
    Within(t, u, p, end, d, p, q + 1);
    Within(t, u, p, end, d, q, end);
    AgreeBounds(t, u, p, end, d);
    if t[q] != '}' {
      MemberStartsWithQuote(t, q);
    }
    SeparatorLocal(t, u, p, first, '}', d);
    MembersStepwise(u, p + d, first);
    if t[q] != '}' {
      var e := MemberAt(t, q).value.value.end;
      MembersStepwise(t, e, false);
      Within(t, u, p, end, d, q, e);
      Within(t, u, p, end, d, e, end);
      DelimitedHere(t, u, e, '}', d);
      MemberAtLocal(t, u, q, d);
      MembersLocal(t, u, e, false, d);
    }
  }

  lemma {:induction false} ElementsLocal(t: string, u: string, p: nat, first: bool, d: int)
    requires p <= |t| && Elements(t, p, first).Some?
    requires Agree(t, u, p, Elements(t, p, first).value, d)
    ensures Elements(u, p + d, first) == Some(Elements(t, p, first).value + d)
    decreases |t| - p, 1
  {
    hide Agree, Skip, Separator, Shifted, Value;
    var q := Separator(t, p, first, ']').value;
    var end := Elements(t, p, first).value;
    Within(t, u, p, end, d, p, q + 1);
    Within(t, u, p, end, d, q, end);
    if t[q] == ']' {
      SeparatorLocal(t, u, p, first, ']', d);
    } else {
      var value := Value(t, q).value;
      ValueStartsSolid(t, q);
      SeparatorLocal(t, u, p, first, ']', d);
      Within(t, u, p, end, d, q, value.end);
      Within(t, u, p, end, d, value.end, end);
      DelimitedHere(t, u, value.end, ']', d);
      ValueLocal(t, u, q, d);
      ElementsLocal(t, u, value.end, false, d);
    }
  }

  lemma MemberStartsWithQuote(t: string, q: nat)
    requires q < |t| && MemberAt(t, q).Some?
    ensures t[q] == '"'
  {
  }

  lemma DelimitedHere(t: string, u: string, e: nat, close: char, d: int)
    requires e <= |t| && Separator(t, e, false, close).Some?
    requires close == '}' || close == ']'
    requires 0 <= e + d < |u| && (e < |t| ==> u[e + d] == t[e])
    ensures e < |t| && Delimited(u, e + d)
  {
    DelimitedAfter(t, e, close);
  }

  /** Whatever follows an element delimits it. */
  lemma DelimitedAfter(t: string, e: nat, close: char)
    requires e <= |t| && Separator(t, e, false, close).Some?
    requires close == '}' || close == ']'
    ensures e < |t| && EndsBare(t[e])
  {
  }
}
