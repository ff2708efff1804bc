/** What a dotted path addresses, told from the keys it is joined from. */
module JsonPaths {
  import opened Text
  import opened JsonStrict
  import opened JsonReader
  import opened JsonEdit
  import opened JsonMember
  import opened JsonSetLaws
  import opened JsonDocument
  import opened JsonDelLaws
  import opened JsonReading

  // ---- from keys to paths and back ------------------------------------------------------------

  predicate Plain(k: string) {
    k != "" && '.' !in k
  }

  /** The keys with a dot between each two. */
  function Dotted(ks: seq<string>): string
    requires ks != []
  {
    if |ks| == 1 then ks[0] else ks[0] + "." + Dotted(ks[1..])
  }

  lemma {:induction false} PiecesOfKey(k: string)
    requires '.' !in k
    ensures Pieces(k) == [k]
  {
    if k != "" {
      PiecesOfKey(k[1..]);
      assert [k[0]] + k[1..] == k;
    }
  }

  lemma {:induction false} PiecesJoined(a: string, b: string)
    ensures Pieces(a + "." + b) == Pieces(a) + Pieces(b)
    decreases |a|
  {
    hide Pieces;
    var s := a + "." + b;
    PiecesStep(s);
    if a == "" {
      assert s[1..] == b;
      assert Pieces(a) == [""] by {
        PiecesOfKey(a);
      }
    } else {
      PiecesStep(a);
      PiecesJoined(a[1..], b);
      assert s[1..] == a[1..] + "." + b;
      HeadsJoin(a[0], Pieces(a[1..]), Pieces(b));
    }
  }

  lemma PiecesStep(s: string)
    ensures s != "" ==>
      Pieces(s) == if s[0] == '.' then [""] + Pieces(s[1..])
                   else [[s[0]] + Pieces(s[1..])[0]] + Pieces(s[1..])[1..]
  {
  }

  lemma HeadsJoin(c: char, a: seq<string>, b: seq<string>)
    requires a != []
    ensures [""] + (a + b) == ([""] + a) + b
    ensures [[c] + (a + b)[0]] + (a + b)[1..] == ([[c] + a[0]] + a[1..]) + b
  {
  }

  lemma {:induction false} NonEmptyJoined(a: seq<string>, b: seq<string>)
    ensures NonEmpty(a + b) == NonEmpty(a) + NonEmpty(b)
  {
    if a == [] {
      assert a + b == b;
    } else {
      NonEmptyJoined(a[1..], b);
      assert (a + b)[1..] == a[1..] + b;
      var x, y, z := if a[0] == "" then [] else [a[0]], NonEmpty(a[1..]), NonEmpty(b);
      assert x + (y + z) == (x + y) + z;
    }
  }

  lemma NonEmptyOne(k: string)
    ensures NonEmpty([k]) == if k == "" then [] else [k]
  {
    assert [k][1..] == [];
  }

  /** A dot joins what stands on its sides, and an empty part adds nothing. */
  lemma SegmentsJoined(a: string, b: string)
    ensures Segments(a + "." + b) == Segments(a) + Segments(b)
    ensures '.' !in a ==> Segments(a) == if a == "" then [] else [a]
  {
    PiecesJoined(a, b);
    NonEmptyJoined(Pieces(a), Pieces(b));
    if '.' !in a {
      PiecesOfKey(a);
      NonEmptyOne(a);
    }
  }

  /** A path joined from keys has those keys for its segments. */
  lemma {:induction false} SegmentsOfDotted(ks: seq<string>)
    requires ks != [] && forall k | k in ks :: Plain(k)
    ensures Segments(Dotted(ks)) == ks
  {
    hide Segments;
    assert Plain(ks[0]);
    if |ks| == 1 {
      SegmentsJoined(ks[0], "");
    } else {
      SegmentsOfDotted(ks[1..]);
      SegmentsJoined(ks[0], Dotted(ks[1..]));
      assert ks == [ks[0]] + ks[1..];
    }
  }

  // ---- what a tree holds under keys -------------------------------------------------------------

  /** Following the first member of each key, `x` is found. */
  ghost predicate Holds(tree: Tree, ks: seq<string>, x: Tree)
    decreases |ks|
  {
    if ks == [] then tree == x
    else
      && tree.Branch?
      && exists k | 0 <= k < |tree.members| ::
           && tree.members[k].0 == ks[0] && (forall j | 0 <= j < k :: tree.members[j].0 != ks[0])
           && Holds(tree.members[k].1, ks[1..], x)
  }

  /** A part of the way leads to a value that is no object. */
  ghost predicate Blocked(tree: Tree, ks: seq<string>) {
    exists n: nat, x: Tree | n < |ks| :: x.Leaf? && Holds(tree, ks[..n], x)
  }

  lemma HoldsStep(tree: Tree, ks: seq<string>, x: Tree)
    requires ks != [] && tree.Branch?
    ensures Holds(tree, ks, x) <==> match FindKey(tree.members, ks[0])
      case Some(k) => Holds(tree.members[k].1, ks[1..], x)
      case None => false
  {
    FirstKey(tree.members, ks[0]);
  }

  lemma {:induction false} FirstKey(ms: seq<(string, Tree)>, key: string)
    ensures match FindKey(ms, key)
      case Some(k) => k < |ms| && ms[k].0 == key && forall j | 0 <= j < k :: ms[j].0 != key
      case None => forall j | 0 <= j < |ms| :: ms[j].0 != key
  {
    if ms != [] {
      FirstKey(ms[1..], key);
      assert forall j | 0 < j < |ms| :: ms[j] == ms[1..][j - 1];
    }
  }

  lemma {:induction false} ChainHolds(tail: seq<string>, leaf: Tree)
    ensures Holds(Chain(tail, leaf), tail, leaf)
  {
    if tail != [] {
      ChainHolds(tail[1..], leaf);
      var c := Chain(tail, leaf);
      assert c.members[0].0 == tail[0] && Holds(c.members[0].1, tail[1..], leaf);
    }
  }

  lemma {:induction false} SetHolds(tree: Tree, ks: seq<string>, leaf: Tree)
    requires ks != [] && Settable(tree, ks)
    ensures Holds(TreeSet(tree, ks, leaf), ks, leaf)
    decreases |ks|
  {
    hide Holds;
    var after := TreeSet(tree, ks, leaf);
    FirstKey(tree.members, ks[0]);
    FirstKey(after.members, ks[0]);
    HoldsStep(after, ks, leaf);
    var key := ks[0];
    match FindKey(tree.members, key)
    case None =>
      assert after.members[|tree.members|].0 == key;
      assert forall j | 0 <= j < |tree.members| :: after.members[j] == tree.members[j];
      assert FindKey(after.members, key) == Some(|tree.members|);
      ChainHolds(ks[1..], leaf);
    case Some(k) =>
      assert after.members[k].0 == key;
      assert forall j | 0 <= j < k :: after.members[j] == tree.members[j];
      assert FindKey(after.members, key) == Some(k);
      if |ks| == 1 {
        HoldsNothing(leaf, ks[1..]);
      } else {
        SetHolds(tree.members[k].1, ks[1..], leaf);
      }
  }

  lemma HoldsNothing(tree: Tree, ks: seq<string>)
    requires ks == []
    ensures Holds(tree, ks, tree)
  {
  }

  lemma {:induction false} SettableUnlessBlocked(tree: Tree, ks: seq<string>)
    requires ks != []
    ensures Settable(tree, ks) <==> !Blocked(tree, ks)
    decreases |ks|
  {
    hide Holds;
    HoldsNothing(tree, ks[..0]);
    if tree.Leaf? {
      assert tree.Leaf? && Holds(tree, ks[..0], tree);
    } else {
      var found := FindKey(tree.members, ks[0]);
      forall n: nat, x: Tree | n < |ks|
        ensures Holds(tree, ks[..n], x)
            <==> if n == 0 then x == tree
                 else found.Some? && Holds(tree.members[found.value].1, ks[1..][..n - 1], x)
      {
        if n == 0 {
          HoldsOnly(tree, ks[..0], x);
        } else {
          HoldsStep(tree, ks[..n], x);
          assert ks[..n][1..] == ks[1..][..n - 1];
        }
      }
      if found.Some? && |ks| > 1 {
        var c := tree.members[found.value].1;
        SettableUnlessBlocked(c, ks[1..]);
        if Blocked(c, ks[1..]) {
          var n: nat, x: Tree :| n < |ks[1..]| && x.Leaf? && Holds(c, ks[1..][..n], x);
          assert ks[1..][..n + 1 - 1] == ks[1..][..n];
          assert Holds(tree, ks[..n + 1], x);
        }
      }
    }
  }

  lemma HoldsOnly(tree: Tree, ks: seq<string>, x: Tree)
    requires ks == []
    ensures Holds(tree, ks, x) <==> tree == x
  {
  }

  /** The key at the end of the way stands twice in its object. */
  ghost predicate Doubled(tree: Tree, ks: seq<string>)
    requires ks != []
  {
    exists p: Tree, i, j ::
      && Holds(tree, ks[..|ks| - 1], p) && p.Branch? && 0 <= i < j < |p.members|
      && p.members[i].0 == ks[|ks| - 1] && p.members[j].0 == ks[|ks| - 1]
  }

  lemma {:induction false} DelHolds(tree: Tree, ks: seq<string>, x: Tree)
    requires ks != [] && Holds(TreeDel(tree, ks), ks, x)
    ensures Doubled(tree, ks)
    decreases |ks|
  {
    hide Holds;
    if tree.Leaf? {
      NoHolding(tree, ks, x);
    } else {
      var after, key := TreeDel(tree, ks), ks[0];
      FirstKey(tree.members, key);
      FirstKey(after.members, key);
      HoldsStep(after, ks, x);
      var k := FindKey(tree.members, key).value;
      if |ks| == 1 {
        var j := FindKey(after.members, key).value;
        HoldsOnly(tree, ks[..0], tree);
        assert after.members[j] == tree.members[if j < k then j else j + 1];
        assert tree.members[k].0 == key && tree.members[j + 1].0 == key && ks[..|ks| - 1] == ks[..0];
      } else {
        assert forall j | 0 <= j < |tree.members| && j != k :: after.members[j] == tree.members[j];
        assert after.members[k].0 == key && FindKey(after.members, key) == Some(k);
        DelHolds(tree.members[k].1, ks[1..], x);
        DoubledBelow(tree, ks, k);
      }
    }
  }

  lemma NoHolding(tree: Tree, ks: seq<string>, x: Tree)
    requires ks != [] && tree.Leaf?
    ensures !Holds(tree, ks, x)
  {
  }

  lemma DoubledBelow(tree: Tree, ks: seq<string>, k: nat)
    requires |ks| > 1 && tree.Branch? && FindKey(tree.members, ks[0]) == Some(k)
    ensures Doubled(tree.members[k].1, ks[1..]) <==> Doubled(tree, ks)
  {
    hide Holds;
    var c, n := tree.members[k].1, |ks| - 1;
    assert ks[..n][1..] == ks[1..][..n - 1] && ks[..n] != [];
    forall p: Tree ensures Holds(tree, ks[..n], p) <==> Holds(c, ks[1..][..n - 1], p) {
      HoldsStep(tree, ks[..n], p);
    }
    assert ks[1..][n - 1] == ks[n];
  }

  lemma {:induction false} DoubledHolds(tree: Tree, ks: seq<string>) returns (x: Tree)
    requires ks != [] && Doubled(tree, ks)
    ensures Holds(TreeDel(tree, ks), ks, x)
    decreases |ks|
  {
    hide Holds;
    var p, i, j :| Holds(tree, ks[..|ks| - 1], p) && p.Branch? && 0 <= i < j < |p.members|
                   && p.members[i].0 == ks[|ks| - 1] && p.members[j].0 == ks[|ks| - 1];
    var key := ks[0];
    if tree.Leaf? {
      if |ks| == 1 {
        HoldsOnly(tree, ks[..0], p);
      } else {
        NoHolding(tree, ks[..|ks| - 1], p);
      }
    }
    if |ks| == 1 {
      HoldsOnly(tree, ks[..0], p);
    } else {
      HoldsStep(tree, ks[..|ks| - 1], p);
    }
    var after := TreeDel(tree, ks);
    FirstKey(tree.members, key);
    FirstKey(after.members, key);
    var k := FindKey(tree.members, key).value;
    if |ks| == 1 {
      assert after.members[j - 1] == tree.members[j];
      var f := FindKey(after.members, key).value;
      x := after.members[f].1;
      HoldsOnly(x, ks[1..], x);
    } else {
      assert forall m | 0 <= m < |tree.members| && m != k :: after.members[m] == tree.members[m];
      assert after.members[k].0 == key && FindKey(after.members, key) == Some(k);
      DoubledBelow(tree, ks, k);
      x := DoubledHolds(tree.members[k].1, ks[1..]);
    }
    HoldsStep(after, ks, x);
  }

  /** Without one member the first of every other key is the same. */
  lemma FirstOfOther(ms: seq<(string, Tree)>, k: nat, key: string)
    requires k < |ms| && ms[k].0 != key
    ensures match FindKey(ms, key)
      case Some(j) => FindKey(Without(ms, k), key) == Some(if j < k then j else j - 1)
                      && j != k && Without(ms, k)[if j < k then j else j - 1] == ms[j]
      case None => FindKey(Without(ms, k), key) == None
  {
    hide FindKey;
    var left := Without(ms, k);
    FirstKey(ms, key);
    FirstKey(left, key);
    match FindKey(ms, key)
    case Some(j) =>
      var to := if j < k then j else j - 1;
      forall i | 0 <= i < to ensures left[i].0 != key {
        assert left[i] == ms[if i < k then i else i + 1];
      }
      assert left[to] == ms[j];
      OnlyFirst(left, key, to);
    case None =>
      forall i | 0 <= i < |left| ensures left[i].0 != key {
        assert left[i] == ms[if i < k then i else i + 1];
      }
  }

  lemma OnlyFirst(ms: seq<(string, Tree)>, key: string, k: nat)
    requires k < |ms| && ms[k].0 == key && forall j | 0 <= j < k :: ms[j].0 != key
    ensures FindKey(ms, key) == Some(k)
  {
    FirstKey(ms, key);
  }

  lemma {:induction false} DelKeepsOther(tree: Tree, ks: seq<string>, other: seq<string>, x: Tree)
    requires ks != [] && Diverge(ks, other)
    ensures Holds(TreeDel(tree, ks), other, x) <==> Holds(tree, other, x)
    decreases |ks|
  {
    hide Holds;
    var key := ks[0];
    if tree.Branch? && FindKey(tree.members, key).Some? {
      var after, k := TreeDel(tree, ks), FindKey(tree.members, key).value;
      HoldsStep(tree, other, x);
      HoldsStep(after, other, x);
      FirstKey(tree.members, key);
      if |ks| == 1 {
        FirstOfOther(tree.members, k, other[0]);
      } else {
        SameFirst(tree.members, k, after.members[k].1, other[0]);
        if other[0] == key {
          DelKeepsOther(tree.members[k].1, ks[1..], other[1..], x);
        }
      }
    }
  }

  lemma SameFirst(ms: seq<(string, Tree)>, k: nat, tree: Tree, key: string)
    requires k < |ms|
    ensures FindKey(ms[k := (ms[k].0, tree)], key) == FindKey(ms, key)
  {
    hide FindKey;
    var after := ms[k := (ms[k].0, tree)];
    FirstKey(ms, key);
    FirstKey(after, key);
    assert forall j | 0 <= j < |ms| :: after[j].0 == ms[j].0;
  }

  lemma {:induction false} SetKeepsOther(tree: Tree, ks: seq<string>, leaf: Tree, other: seq<string>, x: Tree)
    requires ks != [] && Settable(tree, ks) && Diverge(ks, other)
    ensures Holds(TreeSet(tree, ks, leaf), other, x) <==> Holds(tree, other, x)
    decreases |ks|
  {
    hide Holds;
    var after, key, rest := TreeSet(tree, ks, leaf), ks[0], ks[1..];
    HoldsStep(tree, other, x);
    HoldsStep(after, other, x);
    match FindKey(tree.members, key)
    case None =>
      FirstAppended(tree.members, key, Chain(rest, leaf), other[0]);
      if other[0] == key {
        ChainHoldsNoOther(rest, leaf, other[1..], x);
      }
    case Some(k) =>
      SameFirst(tree.members, k, after.members[k].1, other[0]);
      if other[0] == key {
        SetKeepsOther(tree.members[k].1, rest, leaf, other[1..], x);
      }
  }

  lemma FirstAppended(ms: seq<(string, Tree)>, own: string, tree: Tree, key: string)
    ensures FindKey(ms + [(own, tree)], key)
         == if FindKey(ms, key).Some? then FindKey(ms, key) else if own == key then Some(|ms|) else None
  {
    hide FindKey;
    var after := ms + [(own, tree)];
    FirstKey(ms, key);
    FirstKey(after, key);
    assert forall j | 0 <= j < |ms| :: after[j] == ms[j];
    assert after[|ms|] == (own, tree);
  }

  lemma {:induction false} ChainHoldsNoOther(tail: seq<string>, leaf: Tree, other: seq<string>, x: Tree)
    requires Diverge(tail, other)
    ensures !Holds(Chain(tail, leaf), other, x)
  {
    hide Holds;
    var c := Chain(tail, leaf);
    HoldsStep(c, other, x);
    FirstAppended([], tail[0], Chain(tail[1..], leaf), other[0]);
    assert [] + c.members == c.members;
    if other[0] == tail[0] {
      ChainHoldsNoOther(tail[1..], leaf, other[1..], x);
    }
  }

  // ---- on the text ----------------------------------------------------------------------------------

  /**
   * `set` of a dotted path: it succeeds on every accepted object in which no part of the way leads to
   * something else than an object; the value is then found under those keys, one inside the other, and
   * what is found along any path that parts from them is as before.
   */
  lemma SetDotted(t: string, ks: seq<string>, v: string)
    requires ks != [] && (forall k | k in ks :: Plain(k)) && IsValueText(v)
    ensures var r := SetOne(t, KV(Dotted(ks), v));
      && (r.Ok? <==> Accepts(t) && ObjectDocument(t) && !Blocked(DocumentTree(t), ks))
      && (r.Ok? && Accepts(r.value) ==>
            && ObjectDocument(r.value) && Holds(DocumentTree(r.value), ks, ValueTree(v))
            && forall other, x | Diverge(ks, other) ::
                 Holds(DocumentTree(r.value), other, x) <==> Holds(DocumentTree(t), other, x))
  {
    hide Accepts, ObjectDocument, DocumentTree, SetOne, IsValueText, ValueTree, Settable, TreeSet, InsertsBesideComma,
      Segments, Holds, Blocked;
    SegmentsOfDotted(ks);
    SetOneLaw(t, KV(Dotted(ks), v));
    if Accepts(t) && ObjectDocument(t) {
      RootIsObject(t);
      SettableUnlessBlocked(DocumentTree(t), ks);
      if Settable(DocumentTree(t), ks) {
        SetHolds(DocumentTree(t), ks, ValueTree(v));
        forall other, x | Diverge(ks, other)
          ensures Holds(TreeSet(DocumentTree(t), ks, ValueTree(v)), other, x) <==> Holds(DocumentTree(t), other, x)
        {
          SetKeepsOther(DocumentTree(t), ks, ValueTree(v), other, x);
        }
      }
    }
  }

  /**
   * `del` of a dotted path: nothing is found under those keys any more, unless the last one was
   * doubled, and what is found along any path that parts from them is as before.
   */
  lemma DelDotted(t: string, ks: seq<string>)
    requires ks != [] && forall k | k in ks :: Plain(k)
    ensures var r := DelOne(t, Dotted(ks));
      && (r.Ok? <==> Accepts(t) && ObjectDocument(t))
      && (r.Ok? && Accepts(r.value) ==>
            && ObjectDocument(r.value)
            && ((exists x :: Holds(DocumentTree(r.value), ks, x)) <==> Doubled(DocumentTree(t), ks))
            && forall other, x | Diverge(ks, other) ::
                 Holds(DocumentTree(r.value), other, x) <==> Holds(DocumentTree(t), other, x))
  {
    hide Accepts, ObjectDocument, DocumentTree, DelOne, TreeDel, LeavesComma, Segments, Holds, Doubled;
    SegmentsOfDotted(ks);
    DelOneLaw(t, Dotted(ks));
    if DelOne(t, Dotted(ks)).Ok? && Accepts(DelOne(t, Dotted(ks)).value) {
      RootIsObject(t);
      var tree := DocumentTree(t);
      forall x | Holds(TreeDel(tree, ks), ks, x) ensures Doubled(tree, ks) {
        DelHolds(tree, ks, x);
      }
      if Doubled(tree, ks) {
        var x := DoubledHolds(tree, ks);
      }
      forall other, x | Diverge(ks, other) ensures Holds(TreeDel(tree, ks), other, x) <==> Holds(tree, other, x) {
        DelKeepsOther(tree, ks, other, x);
      }
    }
  }
}
