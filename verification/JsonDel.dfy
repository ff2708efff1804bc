/** Removing one member: what the object parses to afterwards, and when it still parses. */
module JsonDel {
  import opened Text
  import opened JsonLexer
  import opened JsonStrict
  import opened JsonParser
  import opened JsonLocality
  import opened JsonCompose
  import opened JsonEdit
  import opened JsonMember
  import opened JsonInsert
  import opened JsonSet
  import opened JsonSetLaws

  // ---- the zone behind a member -----------------------------------------------------------

  /** Only blanks of the same line stand between a value and its comma. */
  predicate CommaAttached(t: string, e: nat)
    requires e <= |t|
  {
    CommaAt(t, BlankRun(t, e, |t|))
  }

  lemma {:induction false} BlankRunSkips(t: string, e: nat)
    requires e <= |t|
    ensures Skip(t, BlankRun(t, e, |t|)) == Skip(t, e)
    decreases |t| - e
  {
    if e < |t| && Blank(t[e]) {
      BlankRunSkips(t, e + 1);
    }
  }

  lemma CommentTail(t: string, b: nat)
    requires OpensComment(t, b) && Skip(t, b) < |t|
    ensures CommentEnd(t, b).Some? && Skip(t, CommentEnd(t, b).value) == Skip(t, b)
  {
  }

  /** Where the tail of a member ends, trivia goes on as it did before, or behind the comma. */
  lemma TailGoesOn(t: string, e: nat)
    requires e <= |t| && Skip(t, e) < |t|
    requires t[Skip(t, e)] == ',' ==> Skip(t, Skip(t, e) + 1) < |t|
    ensures CommaAttached(t, e) ==> t[Skip(t, e)] == ','
    ensures var target := if CommaAttached(t, e) then Skip(t, Skip(t, e) + 1) else Skip(t, e);
      && Skip(t, MemberTailEnd(t, e)) == target
      && Skip(t, ExtendLineEnd(t, MemberTailEnd(t, e))) == target
  {
    hide Skip, BlankRun, CommentEnd;
    var a := BlankRun(t, e, |t|);
    BlankRunSkips(t, e);
    var from := if CommaAt(t, a) then a + 1 else a;
    if CommaAt(t, a) {
      SkipAtComma(t, a);
    }
    var b := BlankRun(t, from, |t|);
    BlankRunSkips(t, from);
    if OpensComment(t, b) {
      CommentTail(t, b);
    }
    LineEndSkips(t, MemberTailEnd(t, e));
  }

  lemma SkipAtComma(t: string, a: nat)
    requires CommaAt(t, a)
    ensures Skip(t, a) == a
  {
  }

  lemma LineEndSkips(t: string, m: nat)
    requires m <= |t|
    ensures Skip(t, ExtendLineEnd(t, m)) == Skip(t, m)
  {
  }

  // ---- the zone in front of a member ---------------------------------------------------------

  /** From `p` the new text arrives at `x`, having met a comma exactly if one had to be there. */
  lemma ZoneBefore(t: string, u: string, p: nat, first: bool, q: nat, x: nat)
    requires p <= |t| && Separator(t, p, first, '}') == Some(q) && t[q] == '"'
    requires p <= x <= q && (forall k | x <= k < q :: Whitespace(t[k]) && t[k] != '\n')
    requires Agree(t, u, p, x, 0)
    ensures x <= |u|
    ensures first ==> Skip(u, p) == Skip(u, x)
    ensures !first ==> Skip(u, p) < x && u[Skip(u, p)] == ',' && Skip(u, Skip(u, p) + 1) == Skip(u, x)
    ensures !first && p < x ==> Delimited(u, p)
  {
    hide Skip, Agree;
    AgreeBounds(t, u, p, x, 0);
    var c := Skip(t, p);
    if first {
      BlankZone(t, p, x, q);
      SkipReach(t, u, p, x, q, 0);
    } else {
      assert !Whitespace(',') && c < x;
      Within(t, u, p, x, 0, p, c);
      Within(t, u, p, x, 0, c, x);
      Within(t, u, p, x, 0, c + 1, x);
      SolidLocal(t, u, c, 0);
      SkipLocal(t, u, p, 0);
      BlankZone(t, c + 1, x, q);
      SkipReach(t, u, c + 1, x, q, 0);
      Within(t, u, p, x, 0, p, x);
      DelimitedAfter(t, p, '}');
    }
  }

  // ---- what the joined text holds -------------------------------------------------------------

  /** From a separator on, the rest of `t`'s members stand in `u`, moved. */
  lemma RestMoved(t: string, u: string, e: nat, from: nat, first: bool, d: int)
    requires e <= |t| && Members(t, e, false).Some? && Members(t, e, false).value.0 != []
    requires var r := Members(t, e, false).value;
      && Agree(t, u, r.0[0].keyStart, |t|, d) && |u| == |t| + d
      && from <= |u| && 0 <= r.0[0].keyStart + d && Separator(u, from, first, '}') == Some(r.0[0].keyStart + d)
    ensures Members(u, from, first).Some?
    ensures Members(u, from, first).value.1 == Members(t, e, false).value.1 + d
    ensures MemberTrees(u, Members(u, from, first).value.0) == MemberTrees(t, Members(t, e, false).value.0)
  {
    hide Members, Separator, MemberAt, Agree, Laid, WellFormed, MemberTrees, ShiftedMembers;
    var (ms, end) := Members(t, e, false).value;
    var key := ms[0].keyStart;
    MembersAreLaid(t, e, false);
    LaidOrder(t, ms, e, end - 1, 0);
    RestShifted(t, u, e, from, first, d);
    Within(t, u, key, |t|, d, key, end);
    AllWithin(t, ms, e, end - 1, key);
    MemberTreesLocal(t, u, ms, Members(u, from, first).value.0, key, end, d);
  }

  lemma {:induction false} RestShifted(t: string, u: string, e: nat, from: nat, first: bool, d: int)
    requires e <= |t| && Members(t, e, false).Some? && Members(t, e, false).value.0 != []
    requires var r := Members(t, e, false).value;
      && Agree(t, u, r.0[0].keyStart, |t|, d) && |u| == |t| + d
      && from <= |u| && 0 <= r.0[0].keyStart + d && Separator(u, from, first, '}') == Some(r.0[0].keyStart + d)
    ensures Members(u, from, first).Some?
    ensures Members(u, from, first).value.1 == Members(t, e, false).value.1 + d
    ensures ShiftedMembers(Members(t, e, false).value.0, Members(u, from, first).value.0, d)
  {
    hide Members, Separator, MemberAt, Agree, Laid, WellFormed, Shifted;
    var (ms, end) := Members(t, e, false).value;
    var m := ms[0];
    MembersStep(t, e, false);
    MembersAreLaid(t, e, false);
    LaidOrder(t, ms, e, end - 1, 0);
    Within(t, u, m.keyStart, |t|, d, m.keyStart, m.value.end);
    Within(t, u, m.keyStart, |t|, d, m.value.end, end);
    HasSeparator(t, m.value.end, false);
    DelimitedAfter(t, m.value.end, '}');
    MovedDelimiter(t, u, m.keyStart, m.value.end, d);
    MemberAtLocal(t, u, m.keyStart, d);
    MembersLocal(t, u, m.value.end, false, d);
    var n := MemberAt(u, m.keyStart + d).value;
    MemberKeyAt(u, m.keyStart + d);
    MembersCons(u, from, first, n);
    ConsShifted(m, n, ms, Members(u, n.value.end, false).value.0, d);
  }

  lemma MovedDelimiter(t: string, u: string, i: nat, e: nat, d: int)
    requires i <= e < |t| && Agree(t, u, i, |t|, d) && |u| == |t| + d
    ensures 0 <= e + d < |u| && u[e + d] == t[e]
  {
  }

  lemma MemberKeyAt(u: string, q: nat)
    requires q < |u| && MemberAt(u, q).Some?
    ensures u[q] == '"' && MemberAt(u, q).value.keyStart == q
  {
    MemberStartsWithQuote(u, q);
  }

  lemma {:induction false} ConsShifted(m: Member, n: Member, ms: seq<Member>, rest: seq<Member>, d: int)
    requires ms != [] && m == ms[0] && ShiftedMember(m, n, d) && ShiftedMembers(ms[1..], rest, d)
    ensures ShiftedMembers(ms, [n] + rest, d)
  {
    hide ShiftedMember;
    forall x | 0 <= x < |ms| ensures ShiftedMember(ms[x], ([n] + rest)[x], d) {
      if x > 0 {
        assert ShiftedMember(ms[1..][x - 1], rest[x - 1], d);
      }
    }
  }

  lemma AllWithin(t: string, ms: seq<Member>, lo: nat, hi: nat, from: nat)
    requires hi < |t| && Laid(t, ms, lo, hi) && ms != [] && from == ms[0].keyStart
    requires forall m | m in ms :: WellFormed(t, m.value)
    ensures forall k | 0 <= k < |ms| ::
      WellFormed(t, ms[k].value) && from <= ms[k].value.start && ms[k].value.end <= hi + 1
  {
    hide WellFormed, Laid;
    forall k | 0 <= k < |ms|
      ensures WellFormed(t, ms[k].value) && from <= ms[k].value.start && ms[k].value.end <= hi + 1
    {
      assert ms[k] in ms;
      LaidOrder(t, ms, lo, hi, k);
      EndsGrow(t, ms, lo, hi, 0, k);
      LaidOrder(t, ms, lo, hi, 0);
    }
  }

  /** A list that would have to go on at a comma is none. */
  lemma StopsAtComma(u: string, from: nat, first: bool)
    requires from <= |u|
    requires var s := Separator(u, from, first, '}'); s.None? || u[s.value] == ','
    ensures Members(u, from, first).None?
  {
    hide Separator;
    var s := Separator(u, from, first, '}');
    if s.Some? {
      NoMemberAtComma(u, s.value);
    }
  }

  lemma NoMemberAtComma(u: string, q: nat)
    requires CommaAt(u, q)
    ensures MemberAt(u, q).None?
  {
  }

  lemma JoinSeparator(u: string, p: nat, first: bool, z: nat)
    requires p <= |u| && z < |u| && Skip(u, z) == z
    requires first ==> Skip(u, p) == z
    requires !first ==> Skip(u, p) < |u| && u[Skip(u, p)] == ',' && Skip(u, Skip(u, p) + 1) == z
    ensures u[z] != ',' ==> Separator(u, p, first, '}') == Some(z)
    ensures u[z] == ',' && !first ==> Separator(u, p, first, '}') == Some(z)
    ensures u[z] == ',' && first ==>
      var r := Skip(u, z + 1);
      Separator(u, p, first, '}') == if r < |u| && u[r] == '}' then Some(r) else None
  {
    hide Skip;
  }

  lemma SkipStays(t: string, p: nat)
    requires p <= |t|
    ensures Skip(t, Skip(t, p)) == Skip(t, p)
  {
  }

  // ---- an object without one of its members ------------------------------------------------------

  /** What stands of object `i` once its first `k` members are followed by a list without the next. */
  lemma WithoutMember(t: string, u: string, i: nat, k: nat, broken: bool, d: int)
    requires Value(t, i).Some? && Value(t, i).value.kind.Object?
    requires k < |Value(t, i).value.kind.members|
    requires var node := Value(t, i).value;
      var (ms, at) := (node.kind.members, After(node.kind.members, i + 1, k));
      && at <= |t| && at <= |u| && Agree(t, u, i, at, 0) && (k > 0 ==> Delimited(u, at))
      && (Members(u, at, k == 0).None? <==> broken)
      && (!broken ==>
            && Members(u, at, k == 0).value.1 == node.end + d
            && MemberTrees(u, Members(u, at, k == 0).value.0) == MemberTrees(t, ms)[k + 1..])
    ensures var node := Value(t, i).value;
      var trees := MemberTrees(t, node.kind.members);
      BecomesTree(u, i, node.end + d, broken, Branch(trees[..k] + trees[k + 1..]))
  {
    hide Members, Agree, Value, MemberTrees, TreeOf;
    var ms := Value(t, i).value.kind.members;
    KeepPrefix(t, u, i, k);
    if !broken {
      var rest := Members(u, After(ms, i + 1, k), k == 0).value.0;
      MemberTreesAppend(u, ms[..k], rest);
      BranchTree(u, Value(u, i).value);
    }
  }

  /** The places around member `k` and the next one. */
  lemma {:induction false} AroundMember(t: string, i: nat, k: nat)
    requires Value(t, i).Some? && Value(t, i).value.kind.Object?
    requires k < |Value(t, i).value.kind.members|
    ensures var node := Value(t, i).value;
      var (ms, m) := (node.kind.members, node.kind.members[k]);
      var at := After(ms, i + 1, k);
      && node.start == i < at <= m.keyStart < m.value.start < m.value.end <= node.end - 1 < |t|
      && t[node.end - 1] == '}'
      && Separator(t, at, k == 0, '}') == Some(m.keyStart) && t[m.keyStart] == '"'
      && (k > 0 ==> !Whitespace(t[at - 1]) && at > i + 1)
      && Members(t, m.value.end, false) == Some((ms[k + 1..], node.end))
  {
    hide Members, Value, Laid, MemberAt, Separator, WellFormed;
    ObjectMembers(t, i);
    ClosingZone(t, i);
    var (ms, end) := Members(t, i + 1, true).value;
    MembersAreLaid(t, i + 1, true);
    LaidOrder(t, ms, i + 1, end - 1, k);
    MembersFrom(t, i + 1, true, k);
    MembersFrom(t, i + 1, true, k + 1);
    MembersStep(t, After(ms, i + 1, k), k == 0);
    ValueOpens(t, i);
    if k > 0 {
      LaidOrder(t, ms, i + 1, end - 1, k - 1);
      MembersFrom(t, i + 1, true, k - 1);
      MembersStep(t, After(ms, i + 1, k - 1), k == 1);
      MemberValue(t, ms[k - 1].keyStart);
      EndsVisible(t, ms[k - 1].value.start);
    }
  }

  /** The comma and the key that follow a member that is not the last. */
  lemma NextKey(t: string, e: nat)
    requires e <= |t| && Members(t, e, false).Some? && Members(t, e, false).value.0 != []
    ensures var key := Members(t, e, false).value.0[0].keyStart;
      && Skip(t, e) < |t| && t[Skip(t, e)] == ','
      && Skip(t, Skip(t, e) + 1) == key < |t| && t[key] == '"'
      && e < key
  {
    hide Skip, MemberAt, Members;
    MembersStep(t, e, false);
  }

  /** Splicing inside object `i`'s braces leaves everything outside its interior. */
  lemma CutOut(t: string, i: nat, a: nat, b: nat, end: nat, x: string)
    requires i < a <= b <= end - 1 < |t|
    ensures var u := Splice(t, a, b, x);
      && |u| == |t| + |x| - (b - a)
      && Agree(t, u, 0, a, 0) && Agree(t, u, b, |t|, |u| - |t|) && Stands(u, a, x)
      && Agree(t, u, i, a, 0)
      && Outside(t, u, i, end)
  {
    hide Agree, Stands;
    var u := Splice(t, a, b, x);
    SpliceAgree(t, u, a, b, x);
    Within(t, u, 0, a, 0, 0, i + 1);
    Within(t, u, 0, a, 0, i, a);
    Within(t, u, b, |t|, |u| - |t|, end - 1, |t|);
  }

  /** Whitespace from a line's start to a key, seen from the member before. */
  lemma {:induction false} LineOfKey(t: string, node: Node, m: Member, at: nat)
    requires node.start < at <= m.keyStart <= |t| && OnOwnLine(t, node, m)
    requires at == node.start + 1 || !Whitespace(t[at - 1])
    ensures var line := LineStart(t, m.keyStart);
      && at <= line <= m.keyStart
      && forall k | line <= k < m.keyStart :: Whitespace(t[k]) && t[k] != '\n'
  {
    var line := LineStart(t, m.keyStart);
    forall k | line <= k < m.keyStart ensures Whitespace(t[k]) && t[k] != '\n' {
      assert t[k] == t[line..m.keyStart][k - line];
    }
  }

  // ---- the branches of `remove_member` -------------------------------------------------------------

  /** A cut from the front of the member's line to a place from which trivia goes on as said. */
  ghost predicate LineCut(t: string, i: nat, k: nat, a: nat, b: nat) {
    && Value(t, i).Some? && Value(t, i).value.kind.Object?
    && k + 1 < |Value(t, i).value.kind.members|
    && var node := Value(t, i).value;
       var (m, at) := (node.kind.members[k], After(node.kind.members, i + 1, k));
       && at <= a <= m.keyStart <= |t| && a <= b <= node.end - 1 < |t|
       && (forall x | a <= x < m.keyStart :: Whitespace(t[x]) && t[x] != '\n')
       && m.value.end <= |t| && Members(t, m.value.end, false).Some?
       && Members(t, m.value.end, false).value.0 != []
       && Skip(t, b) == if CommaAttached(t, m.value.end)
            then Members(t, m.value.end, false).value.0[0].keyStart else Skip(t, m.value.end)
  }

  lemma LinePlaces(t: string, i: nat, k: nat)
    requires Value(t, i).Some? && Value(t, i).value.kind.Object?
    requires k + 1 < |Value(t, i).value.kind.members|
    requires Value(t, i).value.kind.members[k].keyStart <= |t|
    requires OnOwnLine(t, Value(t, i).value, Value(t, i).value.kind.members[k])
    ensures var m := Value(t, i).value.kind.members[k];
      && m.value.end <= |t|
      && LineCut(t, i, k, LineStart(t, m.keyStart), ExtendLineEnd(t, MemberTailEnd(t, m.value.end)))
  {
    hide Value, Members, Skip, Separator, OnOwnLine, MemberTailEnd, CommaAttached, LineStart, ExtendLineEnd;
    var node := Value(t, i).value;
    var m := node.kind.members[k];
    var e, at := m.value.end, After(node.kind.members, i + 1, k);
    AroundMember(t, i, k);
    LineOfKey(t, node, m, at);
    NextKey(t, e);
    TailGoesOn(t, e);
    LaidBelow(t, e, node.end);
    SkipAhead(t, ExtendLineEnd(t, MemberTailEnd(t, e)));
  }

  /** Cutting there removes the member, if its comma went with it. */
  lemma {:induction false} LineCutRemoves(t: string, i: nat, k: nat, a: nat, b: nat)
    requires LineCut(t, i, k, a, b)
    ensures var node := Value(t, i).value;
      var (u, trees) := (Splice(t, a, b, ""), MemberTrees(t, node.kind.members));
      && Outside(t, u, i, node.end)
      && BecomesTree(u, i, node.end + (|u| - |t|), !CommaAttached(t, node.kind.members[k].value.end),
                     Branch(trees[..k] + trees[k + 1..]))
  {
    hide Value, Members, Agree, Skip, Separator, MemberTrees, BecomesTree, CommaAttached, Delimited, Outside, Splice;
    var node := Value(t, i).value;
    var m := node.kind.members[k];
    var e, at, u := m.value.end, After(node.kind.members, i + 1, k), Splice(t, a, b, "");
    var d: int := a as int - b;
    AroundMember(t, i, k);
    CutOut(t, i, a, b, node.end, "");
    AgreeBounds(t, u, 0, a, 0);
    Within(t, u, 0, a, 0, at, a);
    Within(t, u, 0, a, 0, i, at);
    ZoneBefore(t, u, at, k == 0, m.keyStart, a);
    SkipTail(t, u, b, d);
    LineJoin(t, u, at, k == 0, a, b, e, d);
    if k > 0 {
      SkipAhead(u, at);
      LineDelimits(t, u, at, m.keyStart, a);
    }
    WithoutMember(t, u, i, k, !CommaAttached(t, e), d);
  }

  lemma LineDelimits(t: string, u: string, at: nat, q: nat, a: nat)
    requires at <= a <= q < |t| && Separator(t, at, false, '}') == Some(q) && t[q] == '"'
    requires at <= |u| && Skip(u, at) < a && Agree(t, u, 0, a, 0)
    requires at <= Skip(u, at)
    ensures Delimited(u, at)
  {
    DelimitedAfter(t, at, '}');
    assert u[at + 0] == t[at];
  }

  lemma LaidBelow(t: string, e: nat, end: nat)
    requires e <= |t| && Members(t, e, false).Some? && Members(t, e, false).value.0 != []
    requires Members(t, e, false).value.1 == end
    ensures Members(t, e, false).value.0[0].keyStart < end - 1 < |t|
  {
    hide Members, Laid, WellFormed;
    MembersAreLaid(t, e, false);
    LaidOrder(t, Members(t, e, false).value.0, e, end - 1, 0);
  }

  lemma SkipAhead(t: string, b: nat)
    requires b <= |t|
    ensures b <= Skip(t, b) <= |t|
  {
  }

  /** What follows the cut decides whether the list goes on. */
  lemma LineJoin(t: string, u: string, at: nat, first: bool, a: nat, b: nat, e: nat, d: int)
    requires e <= |t| && Members(t, e, false).Some? && Members(t, e, false).value.0 != []
    requires at <= a <= |u| && b <= |t| && d == a - b && |u| == |t| + d && Agree(t, u, b, |t|, d)
    requires Skip(u, a) == Skip(t, b) + d
    requires Skip(t, b) == if CommaAttached(t, e) then Members(t, e, false).value.0[0].keyStart else Skip(t, e)
    requires first ==> Skip(u, at) == Skip(u, a)
    requires !first ==> Skip(u, at) < a && u[Skip(u, at)] == ',' && Skip(u, Skip(u, at) + 1) == Skip(u, a)
    ensures Members(u, at, first).None? <==> !CommaAttached(t, e)
    ensures CommaAttached(t, e) ==>
      && Members(u, at, first).value.1 == Members(t, e, false).value.1 + d
      && MemberTrees(u, Members(u, at, first).value.0) == MemberTrees(t, Members(t, e, false).value.0)
  {
    hide Members, Agree, Skip, Separator, MemberTrees, CommaAttached;
    NextKey(t, e);
    var key, comma := Members(t, e, false).value.0[0].keyStart, Skip(t, e);
    var z := Skip(u, a);
    SkipStays(u, a);
    if CommaAttached(t, e) {
      Within(t, u, b, |t|, d, key, |t|);
      JoinSeparator(u, at, first, z);
      RestMoved(t, u, e, at, first, d);
    } else {
      SkipAhead(t, b);
      Within(t, u, b, |t|, d, comma, |t|);
      Within(t, u, b, |t|, d, comma + 1, |t|);
      Within(t, u, b, |t|, d, key, |t|);
      SkipTail(t, u, comma + 1, d);
      JoinSeparator(u, at, first, z);
      StopsAtComma(u, at, first);
    }
  }

  /** A member sharing its line, before another: everything up to the next key goes. */
  lemma RemovesInline(t: string, i: nat, k: nat)
    requires Value(t, i).Some? && Value(t, i).value.kind.Object?
    requires k + 1 < |Value(t, i).value.kind.members|
    ensures var node := Value(t, i).value;
      var (ms, trees) := (node.kind.members, MemberTrees(t, node.kind.members));
      && ms[k].keyStart <= ms[k + 1].keyStart <= |t|
      && var u := Splice(t, ms[k].keyStart, ms[k + 1].keyStart, "");
         && Outside(t, u, i, node.end)
         && BecomesTree(u, i, node.end + (|u| - |t|), false, Branch(trees[..k] + trees[k + 1..]))
  {
    hide Value, Members, Agree, Skip, Separator, MemberTrees, BecomesTree, Delimited, Outside, Splice;
    var node := Value(t, i).value;
    var ms, m := node.kind.members, node.kind.members[k];
    var at, a, b := After(ms, i + 1, k), m.keyStart, ms[k + 1].keyStart;
    AroundMember(t, i, k);
    NextKey(t, m.value.end);
    LaidBelow(t, m.value.end, node.end);
    assert ms[k + 1..][0] == ms[k + 1];
    var u := Splice(t, a, b, "");
    var d: int := a as int - b;
    CutOut(t, i, a, b, node.end, "");
    Within(t, u, 0, a, 0, at, a);
    Within(t, u, 0, a, 0, i, at);
    AgreeBounds(t, u, 0, a, 0);
    InlineJoin(t, u, at, k == 0, a, m.value.end, d);
    WithoutMember(t, u, i, k, false, d);
  }

  lemma InlineJoin(t: string, u: string, at: nat, first: bool, a: nat, e: nat, d: int)
    requires at <= |t| && Separator(t, at, first, '}') == Some(a) && t[a] == '"'
    requires e <= |t| && Members(t, e, false).Some? && Members(t, e, false).value.0 != []
    requires var b := Members(t, e, false).value.0[0].keyStart;
      && d == a - b && |u| == |t| + d && Agree(t, u, at, a, 0) && Agree(t, u, b, |t|, d)
    ensures at <= |u| && (!first ==> Delimited(u, at))
    ensures Members(u, at, first).Some?
    ensures Members(u, at, first).value.1 == Members(t, e, false).value.1 + d
    ensures MemberTrees(u, Members(u, at, first).value.0) == MemberTrees(t, Members(t, e, false).value.0)
  {
    hide Members, Agree, Skip, Separator, MemberTrees, Delimited;
    var b := Members(t, e, false).value.0[0].keyStart;
    NextKey(t, e);
    AgreeFirst(t, u, b, |t|, d);
    JoinedPrefix(t, u, at, a);
    SeparatorLocal(t, u, at, first, '}', 0);
    RestMoved(t, u, e, at, first, d);
    if !first {
      CommaTakesRoom(t, at, a);
      EndsDelimited(t, u, at, a);
    }
  }

  lemma CommaTakesRoom(t: string, at: nat, q: nat)
    requires at <= |t| && Separator(t, at, false, '}') == Some(q) && t[q] == '"'
    ensures at < q
  {
    hide Skip;
  }

  lemma JoinedPrefix(t: string, u: string, at: nat, a: nat)
    requires Agree(t, u, at, a, 0) && a < |t| && a < |u| && u[a] == t[a]
    ensures Agree(t, u, at, a + 1, 0)
  {
  }

  // ---- the last of several members ----------------------------------------------------------------

  /** The zone behind the last member, as `remove_member` leaves it. */
  lemma LastZone(t: string, i: nat)
    requires Value(t, i).Some? && Value(t, i).value.kind.Object?
    requires Value(t, i).value.kind.members != []
    ensures var node := Value(t, i).value;
      var (e, close) := (LastEnd(node), node.end - 1);
      && e <= close < |t| && t[close] == '}' && Skip(t, close) == close
      && e <= Skip(t, e) <= close
      && (Skip(t, e) < close ==> t[Skip(t, e)] == ',' && Skip(t, Skip(t, e) + 1) == close)
      && (CommaAt(t, NextSignificant(t, e)) <==> Skip(t, e) < close)
      && (CommaAttached(t, e) ==> Skip(t, e) < close)
      && var m := MemberTailEnd(t, e);
         && m <= close && ExtendLineEnd(t, m) <= close
         && Skip(t, m) == (if CommaAttached(t, e) then close else Skip(t, e))
         && Skip(t, ExtendLineEnd(t, m)) == Skip(t, m)
  {
    hide Value, Skip, CommaAttached, MemberTailEnd, ExtendLineEnd, NextSignificant;
    var node := Value(t, i).value;
    var e, close := LastEnd(node), node.end - 1;
    ClosingZone(t, i);
    SkipAhead(t, e);
    if Skip(t, e) < |t| {
      NextSame(t, e);
    }
    TailGoesOn(t, e);
    SkipAhead(t, MemberTailEnd(t, e));
    SkipAhead(t, ExtendLineEnd(t, MemberTailEnd(t, e)));
    SkipStays(t, e);
    if Skip(t, e) < close {
      SkipStays(t, Skip(t, e) + 1);
    }
  }

  /** The text after the last member's removal; a trailing comma moves to the one before. */
  function WithoutLast(t: string, at: nat, e: nat): string
    requires at <= e <= |t|
  {
    Splice(t, at, MemberTailEnd(t, e), if CommaAt(t, NextSignificant(t, e)) then "," else "")
  }

  lemma LastCut(t: string, i: nat)
    requires Value(t, i).Some? && Value(t, i).value.kind.Object?
    requires |Value(t, i).value.kind.members| > 1
    ensures var node := Value(t, i).value;
      var ms := node.kind.members;
      var (at, e) := (ms[|ms| - 2].value.end, ms[|ms| - 1].value.end);
      && i < at <= e <= |t|
      && var (u, comma) := (WithoutLast(t, at, e), CommaAt(t, NextSignificant(t, e)));
         var d := |u| - |t|;
         && Outside(t, u, i, node.end)
         && Agree(t, u, i, at, 0) && at <= |u| && Delimited(u, at)
         && Members(u, at, false) == if comma && !CommaAttached(t, e) then None else Some(([], node.end + d))
  {
    hide Value, Members, Agree, Skip, Separator, MemberTrees, Delimited, Outside, CommaAttached,
      MemberTailEnd, NextSignificant, Stands, Splice;
    var node := Value(t, i).value;
    var ms, k := node.kind.members, |node.kind.members| - 1;
    var at, e := ms[k - 1].value.end, ms[k].value.end;
    AroundMember(t, i, k);
    LastZone(t, i);
    var b := MemberTailEnd(t, e);
    var comma := if CommaAt(t, NextSignificant(t, e)) then "," else "";
    var u := Splice(t, at, b, comma);
    var d := |u| - |t|;
    CutOut(t, i, at, b, node.end, comma);
    AgreeBounds(t, u, 0, at, 0);
    LastJoin(t, u, at, b, e, node.end - 1, comma, d);
  }

  /** The last member goes, from the end of the one before; a trailing comma is kept. */
  lemma RemovesLast(t: string, i: nat)
    requires Value(t, i).Some? && Value(t, i).value.kind.Object?
    requires |Value(t, i).value.kind.members| > 1
    ensures var node := Value(t, i).value;
      var (ms, trees) := (node.kind.members, MemberTrees(t, node.kind.members));
      var (at, e) := (ms[|ms| - 2].value.end, ms[|ms| - 1].value.end);
      && at <= e <= |t|
      && var u := WithoutLast(t, at, e);
         && Outside(t, u, i, node.end)
         && BecomesTree(u, i, node.end + (|u| - |t|),
                        CommaAt(t, NextSignificant(t, e)) && !CommaAttached(t, e),
                        Branch(trees[..|ms| - 1] + trees[|ms|..]))
  {
    hide Value, Members, Agree, MemberTrees, BecomesTree, Delimited, Outside, CommaAttached, NextSignificant, WithoutLast;
    var node := Value(t, i).value;
    var ms := node.kind.members;
    var at, e := ms[|ms| - 2].value.end, ms[|ms| - 1].value.end;
    LastCut(t, i);
    NoTrees(t, WithoutLast(t, at, e), ms);
    WithoutMember(t, WithoutLast(t, at, e), i, |ms| - 1,
                  CommaAt(t, NextSignificant(t, e)) && !CommaAttached(t, e), |WithoutLast(t, at, e)| - |t|);
  }

  lemma NoTrees(t: string, u: string, ms: seq<Member>)
    ensures MemberTrees(u, []) == [] && MemberTrees(t, ms)[|ms|..] == []
  {
    hide TreeOf;
  }

  lemma LastJoin(t: string, u: string, at: nat, b: nat, e: nat, close: nat, comma: string, d: int)
    requires e <= |t| && b <= close < |t| && t[close] == '}' && Skip(t, close) == close
    requires at <= |u| && Stands(u, at, comma) && Agree(t, u, b, |t|, d) && |u| == |t| + d && b + d == at + |comma|
    requires Skip(t, b) == if CommaAttached(t, e) then close else Skip(t, e)
    requires Skip(t, e) <= close
    requires Skip(t, e) < close ==> t[Skip(t, e)] == ',' && Skip(t, Skip(t, e) + 1) == close
    requires comma == if Skip(t, e) < close then "," else ""
    ensures Delimited(u, at)
    ensures Members(u, at, false)
         == if comma == "," && !CommaAttached(t, e) then None else Some(([], close + d + 1))
  {
    hide Agree, Skip, CommaAttached, Separator, Stands;
    SkipTail(t, u, b, d);
    AgreeBounds(t, u, b, |t|, d);
    SkipAhead(t, b);
    Within(t, u, b, |t|, d, close, |t|);
    var z := Skip(t, b) + d;
    if comma == "," {
      StandsAt(u, at, ",", 0);
      SkipAtComma(u, at);
      SkipStays(u, at + 1);
      if !CommaAttached(t, e) {
        Within(t, u, b, |t|, d, Skip(t, e), |t|);
      }
      JoinSeparator(u, at, false, z);
      if CommaAttached(t, e) {
        ClosesAtBrace(u, at, false, z);
      } else {
        StopsAtComma(u, at, false);
      }
    } else {
      AtBrace(u, at, z);
      BareTail(t, u, b, d, at);
    }
  }

  lemma ClosesAtBrace(u: string, at: nat, first: bool, z: nat)
    requires at <= |u| && Separator(u, at, first, '}') == Some(z) && u[z] == '}'
    ensures Members(u, at, first) == Some(([], z + 1))
  {
    hide Separator;
  }

  lemma AtBrace(u: string, at: nat, z: nat)
    requires at <= z < |u| && Skip(u, at) == z && u[z] == '}'
    ensures Members(u, at, false) == Some(([], z + 1))
    ensures Members(u, at, true) == Some(([], z + 1))
  {
    hide Skip;
  }

  /** The text behind a cut starts with trivia or the brace, so it delimits what is before. */
  lemma BareTail(t: string, u: string, b: nat, d: int, at: nat)
    requires b <= |t| && at <= |u| && Skip(u, at) < |u| && u[Skip(u, at)] == '}'
    ensures Delimited(u, at)
  {
  }

  // ---- an only member --------------------------------------------------------------------------------

  /** Without comments the object becomes `{}`. */
  lemma BecomesEmpty(t: string, i: nat)
    requires Value(t, i).Some? && Value(t, i).value.kind.Object?
    requires |Value(t, i).value.kind.members| == 1
    ensures var node := Value(t, i).value;
      && node.start == i && node.end <= |t|
      && var u := Splice(t, i, node.end, "{}");
         && Outside(t, u, i, node.end)
         && BecomesTree(u, i, node.end + (|u| - |t|), false, Branch([]))
  {
    hide Value, Members, Agree, TreeOf;
    var node := Value(t, i).value;
    var end := node.end;
    AroundMember(t, i, 0);
    ValueOpens(t, i);
    var u := Splice(t, i, end, "{}");
    var d := |u| - |t|;
    SpliceAgree(t, u, i, end, "{}");
    StandsAt(u, i, "{}", 0);
    StandsAt(u, i, "{}", 1);
    JoinedPrefix(t, u, 0, i);
    BraceKept(t, u, end, d);
    SkipRun(u, i + 1, i + 1);
    AtBrace(u, i + 1, i + 1);
    ObjectValue(u, i);
    BranchTree(u, Value(u, i).value);
    NoTrees(u, u, []);
  }

  lemma BraceKept(t: string, u: string, end: nat, d: int)
    requires 0 < end <= |t| && |u| == |t| + d && Agree(t, u, end, |t|, d)
    requires 0 <= end - 1 + d < |u| && u[end - 1 + d] == t[end - 1]
    ensures Agree(t, u, end - 1, |t|, d)
  {
    forall k | end - 1 <= k < |t| ensures u[k + d] == t[k] {
      if k >= end {
        assert u[k + d] == t[k];
      }
    }
  }

  /** With comments the member goes with one comment behind it; a stray comma may stay. */
  lemma {:induction false} RemovesOnlyLine(t: string, i: nat, a: nat, b: nat)
    requires Value(t, i).Some? && Value(t, i).value.kind.Object?
    requires |Value(t, i).value.kind.members| == 1
    requires OnlyCut(t, Value(t, i).value, a, b)
    ensures var node := Value(t, i).value;
      && a <= b <= |t|
      && var u := Splice(t, a, b, "");
         && Outside(t, u, i, node.end)
         && BecomesTree(u, i, node.end + (|u| - |t|), false, Branch([]))
  {
    hide Value, Members, Agree, MemberTrees, BecomesTree, Outside, Splice, OnlyCut;
    var ms := Value(t, i).value.kind.members;
    OnlyLeft(t, i, a, b);
    var u := Splice(t, a, b, "");
    Within(t, u, 0, a, 0, i, i + 1);
    assert ms[1..] == [];
    NoTrees(t, u, ms);
    WithoutMember(t, u, i, 0, false, |u| - |t|);
    TreesLength(t, ms);
  }

  /** A cut from the blanks before the only member to behind its tail. */
  predicate OnlyCut(t: string, node: Node, a: nat, b: nat)
    requires node.kind.Object? && |node.kind.members| == 1
  {
    var (m, e) := (node.kind.members[0], node.kind.members[0].value.end);
    && node.start + 1 <= a <= m.keyStart <= |t| && e <= |t|
    && (forall x | a <= x < m.keyStart :: Whitespace(t[x]) && t[x] != '\n')
    && (b == MemberTailEnd(t, e) || b == ExtendLineEnd(t, MemberTailEnd(t, e)))
  }

  /** What is left between the braces has no member. */
  lemma {:induction false} OnlyLeft(t: string, i: nat, a: nat, b: nat)
    requires Value(t, i).Some? && Value(t, i).value.kind.Object?
    requires |Value(t, i).value.kind.members| == 1
    requires OnlyCut(t, Value(t, i).value, a, b)
    ensures var node := Value(t, i).value;
      && i < a <= b <= |t|
      && var u := Splice(t, a, b, "");
         && a <= |u| && Outside(t, u, i, node.end) && Agree(t, u, 0, a, 0)
         && Members(u, i + 1, true) == Some(([], node.end + (|u| - |t|)))
  {
    hide Value, Members, Agree, Skip, Separator, Outside, CommaAttached, MemberTailEnd, ExtendLineEnd, NextSignificant, Splice;
    var node := Value(t, i).value;
    var m, close := node.kind.members[0], node.end - 1;
    AroundMember(t, i, 0);
    LastZone(t, i);
    SkipAhead(t, b);
    var u := Splice(t, a, b, "");
    CutOut(t, i, a, b, node.end, "");
    AgreeBounds(t, u, 0, a, 0);
    Within(t, u, 0, a, 0, i + 1, a);
    ZoneBefore(t, u, i + 1, true, m.keyStart, a);
    SkipTail(t, u, b, |u| - |t|);
    OnlyJoin(t, u, i + 1, b, close, |u| - |t|);
  }

  lemma TreesLength(t: string, ms: seq<Member>)
    requires |ms| == 1
    ensures MemberTrees(t, ms)[..0] + MemberTrees(t, ms)[1..] == []
  {
    hide TreeOf;
  }

  lemma OnlyJoin(t: string, u: string, at: nat, b: nat, close: nat, d: int)
    requires b <= |t| && close < |t| && t[close] == '}' && Skip(t, close) == close
    requires Agree(t, u, b, |t|, d) && |u| == |t| + d && at <= |u|
    requires Skip(u, at) == Skip(t, b) + d
    requires Skip(t, b) <= close
    requires Skip(t, b) < close ==> t[Skip(t, b)] == ',' && Skip(t, Skip(t, b) + 1) == close
    ensures Members(u, at, true) == Some(([], close + d + 1))
  {
    hide Agree, Skip, Separator;
    var z := Skip(t, b);
    AgreeBounds(t, u, b, |t|, d);
    SkipAhead(t, b);
    SkipAhead(u, at);
    Within(t, u, b, |t|, d, close, |t|);
    if z == close {
      AtBrace(u, at, close + d);
    } else {
      Within(t, u, b, |t|, d, z, |t|);
      Within(t, u, b, |t|, d, z + 1, |t|);
      SkipTail(t, u, z + 1, d);
      SkipStays(u, at);
      JoinSeparator(u, at, true, z + d);
      ClosesAtBrace(u, at, true, close + d);
    }
  }
}
