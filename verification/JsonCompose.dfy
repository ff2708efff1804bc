/** Taking member lists apart and putting them together again in another text. */
module JsonCompose {
  import opened Text
  import opened JsonStrict
  import opened JsonParser
  import opened JsonLocality
  import opened JsonAgreement

  // ---- spans --------------------------------------------------------------------------

  lemma LaidStep(t: string, ms: seq<Member>, lo: nat, hi: nat)
    requires hi <= |t| && Laid(t, ms, lo, hi) && ms != []
    ensures var m := ms[0];
      && lo <= m.keyStart < m.value.start < m.value.end <= hi && t[m.keyStart] == '"'
      && Laid(t, ms[1..], m.value.end, hi)
  {
    hide Filler;
  }

  lemma {:induction false} LaidOrder(t: string, ms: seq<Member>, lo: nat, hi: nat, k: nat)
    requires hi <= |t| && Laid(t, ms, lo, hi) && k < |ms|
    ensures lo <= ms[k].keyStart < ms[k].value.start < ms[k].value.end <= hi
    ensures t[ms[k].keyStart] == '"'
    ensures k > 0 ==> ms[k - 1].value.end <= ms[k].keyStart
    decreases k
  {
    hide Laid;
    LaidStep(t, ms, lo, hi);
    if k > 0 {
      LaidOrder(t, ms[1..], ms[0].value.end, hi, k - 1);
      assert k > 1 ==> ms[k - 1] == ms[1..][k - 2];
    }
  }

  lemma ObjectIsLaid(t: string, node: Node)
    requires WellFormed(t, node) && node.kind.Object?
    ensures node.start + 1 <= node.end - 1 < |t| && Laid(t, node.kind.members, node.start + 1, node.end - 1)
  {
  }

  /** The members of an object stand one behind the other. */
  lemma {:induction false} MembersOrdered(t: string, node: Node, k: nat)
    requires WellFormed(t, node) && node.kind.Object? && k < |node.kind.members|
    ensures var ms := node.kind.members;
      && node.start < ms[k].keyStart < ms[k].value.end < node.end <= |t|
      && (0 < k ==> ms[k - 1].value.end <= ms[k].keyStart)
      && (k + 1 < |ms| ==> ms[k].value.end <= ms[k + 1].keyStart < |t|)
  {
    hide WellFormed, Laid;
    var ms := node.kind.members;
    ObjectIsLaid(t, node);
    LaidOrder(t, ms, node.start + 1, node.end - 1, k);
    if k + 1 < |ms| {
      LaidOrder(t, ms, node.start + 1, node.end - 1, k + 1);
    }
  }

  lemma StrictIsWellFormed(t: string, i: nat)
    requires Value(t, i).Some?
    ensures WellFormed(t, Value(t, i).value)
  {
    hide WellFormed, Value, ParseValue;
    StrictValueParses(t, i);
    ParsedValueIsWellFormed(t, i);
  }

  lemma MembersAreLaid(t: string, p: nat, first: bool)
    requires p <= |t| && Members(t, p, first).Some?
    ensures Laid(t, Members(t, p, first).value.0, p, Members(t, p, first).value.1 - 1)
    ensures forall m | m in Members(t, p, first).value.0 :: WellFormed(t, m.value)
  {
    hide Laid, Members, ParseMembers, WellFormed;
    StrictMembersParse(t, p, first);
    ParsedMembersAreLaid(t, p);
    forall m | m in Members(t, p, first).value.0 ensures WellFormed(t, m.value) {
      assert WellFormedMember(t, m);
    }
  }

  /** Moved text says the same. */
  lemma {:induction false} TreeLocal(t: string, u: string, n: Node, m: Node, d: int)
    requires WellFormed(t, n) && Shifted(n, m, d)
    requires Agree(t, u, n.start, n.end, d)
    ensures TreeOf(u, m) == TreeOf(t, n)
    decreases n
  {
    hide TreeOf, Agree, WellFormed;
    match n.kind
    case Object(ms) =>
      var ns := m.kind.members;
      assert |ns| == |ms|;
      forall k | 0 <= k < |ms| ensures ns[k].key == ms[k].key && TreeOf(u, ns[k].value) == TreeOf(t, ms[k].value) {
        assert ShiftedMember(ms[k], ns[k], d);
        MemberWithin(t, n, k);
        Within(t, u, n.start, n.end, d, ms[k].value.start, ms[k].value.end);
        TreeLocal(t, u, ms[k].value, ns[k].value, d);
      }
      BranchTree(t, n);
      BranchTree(u, m);
      assert MemberTrees(u, ns) == MemberTrees(t, ms);
    case _ =>
      NodeBounds(t, n);
      LeafTrees(t, u, n, m, d);
  }

  lemma MemberWithin(t: string, n: Node, k: nat)
    requires WellFormed(t, n) && n.kind.Object? && k < |n.kind.members|
    ensures var m := n.kind.members[k];
      m in n.kind.members && WellFormed(t, m.value) && n.start <= m.value.start <= m.value.end <= n.end
  {
    var ms := n.kind.members;
    assert ms[k] in ms && WellFormedMember(t, ms[k]);
    LaidOrder(t, ms, n.start + 1, n.end - 1, k);
  }

  lemma BranchTree(t: string, n: Node)
    requires n.kind.Object?
    ensures TreeOf(t, n) == Branch(MemberTrees(t, n.kind.members))
  {
  }

  lemma LeafTrees(t: string, u: string, n: Node, m: Node, d: int)
    requires !n.kind.Object? && Shifted(n, m, d) && n.start < n.end <= |t| && Agree(t, u, n.start, n.end, d)
    ensures TreeOf(u, m) == TreeOf(t, n)
  {
    SliceLocal(t, u, n.start, n.end, d);
  }

  lemma MemberTreesLocal(t: string, u: string, ms: seq<Member>, ns: seq<Member>, lo: nat, hi: nat, d: int)
    requires ShiftedMembers(ms, ns, d) && hi <= |t|
    requires forall k | 0 <= k < |ms| :: WellFormed(t, ms[k].value)
    requires forall k | 0 <= k < |ms| :: lo <= ms[k].value.start && ms[k].value.end <= hi
    requires Agree(t, u, lo, hi, d)
    ensures MemberTrees(u, ns) == MemberTrees(t, ms)
  {
    hide WellFormed, Shifted, Agree;
    forall k | 0 <= k < |ms| ensures TreeOf(u, ns[k].value) == TreeOf(t, ms[k].value) {
      assert ShiftedMember(ms[k], ns[k], d);
      assert ms[k].value.start <= ms[k].value.end by { NodeBounds(t, ms[k].value); }
      Within(t, u, lo, hi, d, ms[k].value.start, ms[k].value.end);
      TreeLocal(t, u, ms[k].value, ns[k].value, d);
    }
  }

  lemma NodeBounds(t: string, n: Node)
    requires WellFormed(t, n)
    ensures n.start < n.end <= |t| && !AsciiWhitespace(t[n.end - 1])
  {
  }

  // ---- member lists, cut at a member ------------------------------------------------------

  /** Where the list stands after its first `k` members. */
  function After(ms: seq<Member>, p: nat, k: nat): nat
    requires k <= |ms|
  {
    if k == 0 then p else ms[k - 1].value.end
  }

  lemma MembersStep(t: string, p: nat, first: bool)
    requires p <= |t| && Members(t, p, first).Some? && Members(t, p, first).value.0 != []
    ensures var (q, r) := (Separator(t, p, first, '}'), Members(t, p, first).value);
      && q.Some? && MemberAt(t, q.value) == Some(r.0[0]) && t[q.value] == '"'
      && r.0[0].keyStart == q.value
      && Members(t, r.0[0].value.end, false) == Some((r.0[1..], r.1))
  {
    hide Separator, MemberAt;
    var q := Separator(t, p, first, '}').value;
    if t[q] != '}' {
      MemberStartsWithQuote(t, q);
      var m := MemberAt(t, q).value;
      var r := Members(t, m.value.end, false).value;
      assert ([m] + r.0)[1..] == r.0;
    }
  }

  lemma {:induction false} MembersFrom(t: string, p: nat, first: bool, k: nat)
    requires p <= |t| && Members(t, p, first).Some?
    requires k <= |Members(t, p, first).value.0|
    ensures var (ms, end) := Members(t, p, first).value;
      && After(ms, p, k) <= |t|
      && Members(t, After(ms, p, k), first && k == 0) == Some((ms[k..], end))
    decreases k
  {
    hide Members, MemberAt, Separator;
    var (ms, end) := Members(t, p, first).value;
    if k > 0 {
      MembersStep(t, p, first);
      var e := ms[0].value.end;
      MembersFrom(t, e, false, k - 1);
      assert After(ms[1..], e, k - 1) == After(ms, p, k);
      assert ms[1..][k - 1..] == ms[k..];
    }
  }

  lemma FirstMemberKept(t: string, u: string, p: nat, first: bool)
    requires p <= |t| && Members(t, p, first).Some? && Members(t, p, first).value.0 != []
    requires Agree(t, u, p, Members(t, p, first).value.0[0].value.end, 0)
    requires Delimited(u, Members(t, p, first).value.0[0].value.end)
    ensures var m := Members(t, p, first).value.0[0];
      && Separator(u, p, first, '}') == Some(m.keyStart)
      && u[m.keyStart] == '"'
      && MemberAt(u, m.keyStart) == Some(m)
  {
    hide MemberAt, Separator, Agree, Shifted, Members;
    var m := Members(t, p, first).value.0[0];
    var q, e := m.keyStart, m.value.end;
    MembersStep(t, p, first);
    Within(t, u, p, e, 0, p, q + 1);
    Within(t, u, p, e, 0, q, e);
    SeparatorLocal(t, u, p, first, '}', 0);
    MemberAtLocal(t, u, q, 0);
    SameMember(m, MemberAt(u, q).value);
  }

  lemma MembersCons(u: string, p: nat, first: bool, m: Member)
    requires p <= |u| && Separator(u, p, first, '}') == Some(m.keyStart)
    requires u[m.keyStart] == '"' && MemberAt(u, m.keyStart) == Some(m)
    ensures Members(u, p, first) == match Members(u, m.value.end, false)
      case Some(r) => Some(([m] + r.0, r.1))
      case None => None
  {
    hide MemberAt, Separator;
  }

  /** Keeping the first `k` members and going on with another list. */
  lemma {:induction false} MembersSplice(t: string, u: string, p: nat, first: bool, k: nat)
    requires p <= |t| && Members(t, p, first).Some?
    requires k <= |Members(t, p, first).value.0|
    requires var at := After(Members(t, p, first).value.0, p, k);
      && at <= |t| && at <= |u| && Agree(t, u, p, at, 0)
      && (k > 0 ==> Delimited(u, at))
    ensures var (ms, at) := (Members(t, p, first).value.0, After(Members(t, p, first).value.0, p, k));
      Members(u, p, first) == match Members(u, at, first && k == 0)
        case Some(rest) => Some((ms[..k] + rest.0, rest.1))
        case None => None
    decreases k
  {
    hide MemberAt, Separator, Agree, Members, Delimited;
    var (ms, end) := Members(t, p, first).value;
    var at := After(ms, p, k);
    var rest := Members(u, at, first && k == 0);
    if k == 0 {
      assert rest.Some? ==> ms[..0] + rest.value.0 == rest.value.0;
    } else {
      SpliceReady(t, u, p, first, k);
      MembersSplice(t, u, ms[0].value.end, false, k - 1);
      MembersCons(u, p, first, ms[0]);
      assert rest.Some? ==> ms[..k] + rest.value.0 == [ms[0]] + (ms[1..][..k - 1] + rest.value.0);
    }
  }

  /** The first member stands in both texts, and so does what is kept behind it. */
  lemma {:induction false} SpliceReady(t: string, u: string, p: nat, first: bool, k: nat)
    requires p <= |t| && Members(t, p, first).Some?
    requires 0 < k <= |Members(t, p, first).value.0|
    requires var at := After(Members(t, p, first).value.0, p, k);
      at <= |t| && at <= |u| && Agree(t, u, p, at, 0) && Delimited(u, at)
    ensures var (ms, end) := Members(t, p, first).value;
      var (m, e, at) := (ms[0], ms[0].value.end, After(ms, p, k));
      && p < m.keyStart + 1 && m.keyStart < e <= |t| && e <= |u| && Members(t, e, false) == Some((ms[1..], end))
      && After(ms[1..], e, k - 1) == at && Agree(t, u, e, at, 0)
      && Separator(u, p, first, '}') == Some(m.keyStart) && u[m.keyStart] == '"' && MemberAt(u, m.keyStart) == Some(m)
  {
    hide MemberAt, Separator, Agree, Shifted, Members, Laid, Delimited;
    var (ms, end) := Members(t, p, first).value;
    var at, e := After(ms, p, k), ms[0].value.end;
    MembersStep(t, p, first);
    MembersAreLaid(t, p, first);
    AfterGrows(t, ms, p, end - 1, k);
    Within(t, u, p, at, 0, p, e);
    Within(t, u, p, at, 0, e, at);
    if k > 1 {
      MembersStep(t, e, false);
      EndsDelimited(t, u, e, at);
    }
    FirstMemberKept(t, u, p, first);
  }

  lemma AfterGrows(t: string, ms: seq<Member>, p: nat, hi: nat, k: nat)
    requires hi <= |t| && Laid(t, ms, p, hi) && 0 < k <= |ms|
    ensures ms[0].value.end <= After(ms, p, k)
    ensures k > 1 ==> ms[0].value.end < After(ms, p, k)
    decreases k
  {
    if k > 1 {
      AfterGrows(t, ms, p, hi, k - 1);
      LaidOrder(t, ms, p, hi, k - 1);
    }
  }

  lemma EndsDelimited(t: string, u: string, e: nat, at: nat)
    requires e < at <= |t| && Agree(t, u, e, at, 0)
    requires Separator(t, e, false, '}').Some?
    ensures Delimited(u, e)
  {
    DelimitedAfter(t, e, '}');
  }

  lemma SameMember(a: Member, b: Member)
    requires ShiftedMember(a, b, 0)
    ensures a == b
    decreases a
  {
    SameNode(a.value, b.value);
  }

  lemma SameNode(n: Node, m: Node)
    requires Shifted(n, m, 0)
    ensures n == m
    decreases n
  {
    if n.kind.Object? {
      var ms, ns := n.kind.members, m.kind.members;
      forall k | 0 <= k < |ms| ensures ms[k] == ns[k] {
        assert ms[k] in ms;
        assert ShiftedMember(ms[k], ns[k], 0);
        SameMember(ms[k], ns[k]);
      }
      assert ms == ns;
    }
  }

  // ---- objects ------------------------------------------------------------------------------

  lemma {:induction false} ShiftedSelf(n: Node)
    ensures Shifted(n, n, 0)
    decreases n
  {
    if n.kind.Object? {
      var ms := n.kind.members;
      forall k | 0 <= k < |ms| ensures ShiftedMember(ms[k], ms[k], 0) {
        assert ms[k] in ms;
        assert ms[k].value < ms[k] < n;
        ShiftedSelf(ms[k].value);
      }
    }
  }

  lemma ObjectMembers(t: string, i: nat)
    requires Value(t, i).Some? && Value(t, i).value.kind.Object?
    ensures t[i] == '{'
    ensures Members(t, i + 1, true) == Some((Value(t, i).value.kind.members, Value(t, i).value.end))
  {
    hide Members, Elements, ScalarEnd;
  }

  lemma ObjectValue(u: string, i: nat)
    requires i < |u| && u[i] == '{'
    ensures Value(u, i) == match Members(u, i + 1, true)
      case Some(r) => Some(Node(Object(r.0), i, r.1))
      case None => None
  {
    hide Members;
  }

  lemma MemberTreesAppend(u: string, a: seq<Member>, b: seq<Member>)
    ensures MemberTrees(u, a + b) == MemberTrees(u, a) + MemberTrees(u, b)
  {
    hide TreeOf;
  }

  lemma TreesSlice(t: string, ms: seq<Member>, i: nat, j: nat)
    requires i <= j <= |ms|
    ensures MemberTrees(t, ms[i..j]) == MemberTrees(t, ms)[i..j]
  {
    hide TreeOf;
  }

  /** An object whose first `k` members stay and whose text goes on differently. */
  lemma KeepPrefix(t: string, u: string, i: nat, k: nat)
    requires Value(t, i).Some? && Value(t, i).value.kind.Object?
    requires k <= |Value(t, i).value.kind.members|
    requires var at := After(Value(t, i).value.kind.members, i + 1, k);
      && at <= |t| && at <= |u| && Agree(t, u, i, at, 0)
      && (k > 0 ==> Delimited(u, at))
    ensures var (ms, at) := (Value(t, i).value.kind.members, After(Value(t, i).value.kind.members, i + 1, k));
      && (Value(u, i) == match Members(u, at, k == 0)
           case Some(r) => Some(Node(Object(ms[..k] + r.0), i, r.1))
           case None => None)
      && MemberTrees(u, ms[..k]) == MemberTrees(t, ms)[..k]
  {
    hide Members, Agree, Shifted, Laid, Value, WellFormed, TreeOf;
    ObjectMembers(t, i);
    var (ms, end) := Members(t, i + 1, true).value;
    var at := After(ms, i + 1, k);
    MembersAreLaid(t, i + 1, true);
    if k > 0 {
      LaidOrder(t, ms, i + 1, end - 1, k - 1);
    }
    Within(t, u, i, at, 0, i, at);
    Within(t, u, i, at, 0, i + 1, at);
    MembersSplice(t, u, i + 1, true, k);
    ObjectValue(u, i);
    KeptTrees(t, u, ms, i + 1, end - 1, k);
    TreesSlice(t, ms, 0, k);
  }

  lemma KeptTrees(t: string, u: string, ms: seq<Member>, lo: nat, hi: nat, k: nat)
    requires hi <= |t| && Laid(t, ms, lo, hi) && k <= |ms|
    requires forall m | m in ms :: WellFormed(t, m.value)
    requires After(ms, lo, k) <= hi
    requires Agree(t, u, lo, After(ms, lo, k), 0)
    ensures MemberTrees(u, ms[..k]) == MemberTrees(t, ms[..k])
  {
    hide Agree, Shifted, WellFormed, TreeOf;
    var ns := ms[..k];
    forall x | 0 <= x < k
      ensures ShiftedMember(ns[x], ns[x], 0) && WellFormed(t, ns[x].value)
      ensures lo <= ns[x].value.start && ns[x].value.end <= After(ms, lo, k)
    {
      assert ns[x] == ms[x] && ms[x] in ms;
      ShiftedSelf(ms[x].value);
      LaidOrder(t, ms, lo, hi, x);
      EndsGrow(t, ms, lo, hi, x, k - 1);
    }
    MemberTreesLocal(t, u, ns, ns, lo, After(ms, lo, k), 0);
  }

  lemma {:induction false} EndsGrow(t: string, ms: seq<Member>, lo: nat, hi: nat, x: nat, y: nat)
    requires hi <= |t| && Laid(t, ms, lo, hi) && x <= y < |ms|
    ensures ms[x].value.end <= ms[y].value.end
    ensures x < y ==> ms[x].value.end <= ms[y].keyStart
    decreases y - x
  {
    hide Laid;
    if x < y {
      EndsGrow(t, ms, lo, hi, x, y - 1);
      LaidOrder(t, ms, lo, hi, y);
    }
  }

  /** The members from `k` on, moved by `d` with everything up to the closing brace. */
  lemma SuffixMoved(t: string, u: string, i: nat, k: nat, d: int)
    requires Value(t, i).Some? && Value(t, i).value.kind.Object?
    requires 0 < k <= |Value(t, i).value.kind.members|
    requires var node := Value(t, i).value;
      var at := After(node.kind.members, i + 1, k);
      at <= node.end && Agree(t, u, at, node.end, d)
    ensures var node := Value(t, i).value;
      var (ms, at) := (node.kind.members, After(node.kind.members, i + 1, k));
      && 0 <= at + d <= |u|
      && Members(u, at + d, false).Some?
      && Members(u, at + d, false).value.1 == node.end + d
      && MemberTrees(u, Members(u, at + d, false).value.0) == MemberTrees(t, ms)[k..]
  {
    hide Members, Agree, Shifted, Laid, Value, WellFormed, TreeOf;
    ObjectMembers(t, i);
    var (ms, end) := Members(t, i + 1, true).value;
    var at := After(ms, i + 1, k);
    AgreeBounds(t, u, at, end, d);
    MembersFrom(t, i + 1, true, k);
    MembersLocal(t, u, at, false, d);
    MembersAreLaid(t, at, false);
    var kept, moved := ms[k..], Members(u, at + d, false).value.0;
    forall x | 0 <= x < |kept|
      ensures WellFormed(t, kept[x].value) && at <= kept[x].value.start && kept[x].value.end <= end
    {
      assert kept[x] in kept;
      LaidOrder(t, kept, at, end - 1, x);
    }
    MemberTreesLocal(t, u, kept, moved, at, end, d);
    TreesSlice(t, ms, k, |ms|);
  }

  /** `u` is `t` up to member `k`'s value, where something else starts. */
  ghost predicate SameUpTo(t: string, u: string, i: nat, k: nat) {
    && Value(t, i).Some? && Value(t, i).value.kind.Object?
    && k < |Value(t, i).value.kind.members|
    && var c := Value(t, i).value.kind.members[k].value;
       i <= c.start && Agree(t, u, i, c.start, 0) && Solid(u, c.start)
  }

  /** `u` is `t` with another value in place of member `k`'s, so `d` characters longer. */
  ghost predicate Revalued(t: string, u: string, i: nat, k: nat, d: int) {
    && SameUpTo(t, u, i, k)
    && var node := Value(t, i).value;
       var c := node.kind.members[k].value;
       && c.end <= node.end
       && Agree(t, u, c.end, node.end, d)
       && Value(u, c.start).Some? && Value(u, c.start).value.end == c.end + d
  }

  lemma RevaluedStart(t: string, u: string, i: nat, k: nat)
    requires SameUpTo(t, u, i, k)
    ensures var ms := Value(t, i).value.kind.members;
      var (at, m) := (After(ms, i + 1, k), ms[k]);
      && i < at <= |t| && at <= |u| && Agree(t, u, i, at, 0) && (k > 0 ==> Delimited(u, at))
      && Separator(u, at, k == 0, '}') == Some(m.keyStart)
      && u[m.keyStart] == '"'
      && MemberAt(u, m.keyStart) == match Value(u, m.value.start)
           case Some(v) => Some(Member(m.key, m.keyStart, v))
           case None => None
  {
    hide Members, Agree, Laid, Value, WellFormed, MemberAt, Separator, Solid;
    ObjectMembers(t, i);
    var (ms, end) := Members(t, i + 1, true).value;
    var at, m := After(ms, i + 1, k), ms[k];
    MembersAreLaid(t, i + 1, true);
    LaidOrder(t, ms, i + 1, end - 1, k);
    MembersFrom(t, i + 1, true, k);
    assert ms[k..][0] == m;
    if k > 0 {
      LaidOrder(t, ms, i + 1, end - 1, k - 1);
      Within(t, u, i, m.value.start, 0, at, m.value.start);
      MembersStep(t, at, false);
      EndsDelimited(t, u, at, m.value.start);
    }
    Within(t, u, i, m.value.start, 0, i, at);
    AgreeBounds(t, u, i, at, 0);
    MemberRevalued(t, u, at, k == 0, i);
  }

  /** If what starts there is no value, the object is none either. */
  lemma RevaluedFails(t: string, u: string, i: nat, k: nat)
    requires SameUpTo(t, u, i, k)
    requires Value(u, Value(t, i).value.kind.members[k].value.start).None?
    ensures Value(u, i).None?
  {
    hide Agree, Value, MemberAt, Separator, Solid, MemberTrees;
    RevaluedStart(t, u, i, k);
    KeepPrefix(t, u, i, k);
  }

  lemma {:induction false} RevaluedList(t: string, u: string, i: nat, k: nat, d: int)
    requires Revalued(t, u, i, k, d)
    ensures var node := Value(t, i).value;
      var (ms, m) := (node.kind.members, node.kind.members[k]);
      var (at, value) := (After(ms, i + 1, k), Value(u, m.value.start).value);
      && at <= |t| && at <= |u| && Agree(t, u, i, at, 0) && (k > 0 ==> Delimited(u, at))
      && Members(u, value.end, false).Some?
      && MemberTrees(u, Members(u, value.end, false).value.0) == MemberTrees(t, ms)[k + 1..]
      && Members(u, at, k == 0)
         == Some(([Member(m.key, m.keyStart, value)] + Members(u, value.end, false).value.0, node.end + d))
  {
    hide Members, Agree, Value, MemberAt, Separator, MemberTrees, SameUpTo, Revalued, After, Delimited;
    RevaluedParts(t, u, i, k, d);
    var ms := Value(t, i).value.kind.members;
    var m, value := ms[k], Value(u, ms[k].value.start).value;
    AfterNext(ms, i + 1, k);
    RevaluedStart(t, u, i, k);
    SuffixMoved(t, u, i, k + 1, d);
    MembersCons(u, After(ms, i + 1, k), k == 0, Member(m.key, m.keyStart, value));
  }

  lemma AfterNext(ms: seq<Member>, p: nat, k: nat)
    requires k < |ms|
    ensures After(ms, p, k + 1) == ms[k].value.end
  {
  }

  lemma RevaluedParts(t: string, u: string, i: nat, k: nat, d: int)
    requires Revalued(t, u, i, k, d)
    ensures SameUpTo(t, u, i, k)
    ensures Value(t, i).Some? && Value(t, i).value.kind.Object? && k < |Value(t, i).value.kind.members|
    ensures var node := Value(t, i).value;
      var c := node.kind.members[k].value;
      && c.end <= node.end && Agree(t, u, c.end, node.end, d)
      && Value(u, c.start).Some? && Value(u, c.start).value.end == c.end + d
  {
    hide Value, Agree, Solid;
  }

  lemma JoinTrees(u: string, a: seq<Member>, m: Member, b: seq<Member>, trees: seq<(string, Tree)>)
    requires |a| < |trees| && MemberTrees(u, a) == trees[..|a|]
    requires MemberTrees(u, b) == trees[|a| + 1..]
    ensures MemberTrees(u, a + ([m] + b)) == trees[|a| := (m.key, TreeOf(u, m.value))]
  {
    hide TreeOf, MemberTrees;
    var x := (m.key, TreeOf(u, m.value));
    MemberTreesAppend(u, a, [m] + b);
    MemberTreesAppend(u, [m], b);
    assert MemberTrees(u, [m]) == [x];
    assert trees[|a| := x] == trees[..|a|] + ([x] + trees[|a| + 1..]);
  }

  /** Another value in place of member `k`'s: that member's tree changes, nothing else. */
  lemma ReplaceMemberValue(t: string, u: string, i: nat, k: nat, d: int)
    requires Revalued(t, u, i, k, d)
    ensures var node := Value(t, i).value;
      var m := node.kind.members[k];
      && Value(u, i).Some?
      && Value(u, i).value.end == node.end + d
      && Value(u, i).value.kind.Object?
      && TreeOf(u, Value(u, i).value)
         == Branch(MemberTrees(t, node.kind.members)[k := (m.key, TreeOf(u, Value(u, m.value.start).value))])
  {
    hide Members, Agree, Value, MemberTrees, Solid;
    var node := Value(t, i).value;
    var ms, m := node.kind.members, node.kind.members[k];
    var value := Value(u, m.value.start).value;
    RevaluedList(t, u, i, k, d);
    KeepPrefix(t, u, i, k);
    JoinTrees(u, ms[..k], Member(m.key, m.keyStart, value), Members(u, value.end, false).value.0, MemberTrees(t, ms));
  }

  lemma MemberRevalued(t: string, u: string, at: nat, first: bool, lo: nat)
    requires at <= |t| && Members(t, at, first).Some? && Members(t, at, first).value.0 != []
    requires var m := Members(t, at, first).value.0[0];
      && lo <= at <= m.keyStart < m.value.start && Agree(t, u, lo, m.value.start, 0)
      && Solid(u, m.value.start)
    ensures var m := Members(t, at, first).value.0[0];
      && at <= |u| && Separator(u, at, first, '}') == Some(m.keyStart)
      && u[m.keyStart] == '"'
      && MemberAt(u, m.keyStart) == match Value(u, m.value.start)
           case Some(v) => Some(Member(m.key, m.keyStart, v))
           case None => None
  {
    hide Members, Agree, Value, Separator, MemberHead, Solid;
    var m := Members(t, at, first).value.0[0];
    MembersStep(t, at, first);
    AgreeBounds(t, u, lo, m.value.start, 0);
    Within(t, u, lo, m.value.start, 0, at, m.keyStart + 1);
    Within(t, u, lo, m.value.start, 0, m.keyStart, m.value.start);
    SeparatorLocal(t, u, at, first, '}', 0);
    MemberHeadLocal(t, u, m.keyStart, 0);
  }
}
