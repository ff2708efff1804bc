/** What a map reader, for which the last of equal keys wins, finds after `set` changes the first. */
module JsonReading {
  import opened Text
  import opened JsonStrict
  import opened JsonMember
  import opened JsonSetLaws
  import opened JsonReader
  import opened JsonEdit
  import opened JsonDocument

  function FindLast(ms: seq<(string, Tree)>, key: string): (r: Option<nat>)
    ensures r.Some? ==> r.value < |ms| && ms[r.value].0 == key
    ensures r.Some? ==> forall i | r.value < i < |ms| :: ms[i].0 != key
    ensures r.None? ==> forall i | 0 <= i < |ms| :: ms[i].0 != key
  {
    if ms == [] then None
    else if ms[|ms| - 1].0 == key then Some(|ms| - 1)
    else FindLast(ms[..|ms| - 1], key)
  }

  /** What a path finds below a value that is no object: an array counts its elements, a scalar has none. */
  type Below = (string, seq<string>) -> Option<Tree>

  function TreeGet(tree: Tree, segments: seq<string>, below: Below): Option<Tree>
    decreases |segments|
  {
    if segments == [] then Some(tree)
    else if tree.Leaf? then below(tree.text, segments)
    else
      match FindLast(tree.members, segments[0])
      case Some(k) => TreeGet(tree.members[k].1, segments[1..], below)
      case None => None
  }

  /** No key on the path occurs twice in its object. */
  predicate PathUnique(tree: Tree, segments: seq<string>)
    decreases |segments|
  {
    segments == [] || tree.Leaf?
    || (&& FindKey(tree.members, segments[0]) == FindLast(tree.members, segments[0])
        && match FindLast(tree.members, segments[0])
           case Some(k) => PathUnique(tree.members[k].1, segments[1..])
           case None => true)
  }

  lemma FindLastIs(ms: seq<(string, Tree)>, key: string, k: nat)
    requires k < |ms| && ms[k].0 == key
    requires forall i | k < i < |ms| :: ms[i].0 != key
    ensures FindLast(ms, key) == Some(k)
  {
    var r := FindLast(ms, key);
    assert r.Some? && r.value >= k;
  }

  lemma FindLastUpdated(ms: seq<(string, Tree)>, k: nat, own: string, tree: Tree, key: string)
    requires k < |ms| && ms[k].0 == own
    ensures FindLast(ms[k := (own, tree)], key) == FindLast(ms, key)
  {
    var after := ms[k := (own, tree)];
    assert forall i | 0 <= i < |ms| :: after[i].0 == ms[i].0;
    var r := FindLast(ms, key);
    if r.Some? {
      FindLastIs(after, key, r.value);
    } else {
      assert forall i | 0 <= i < |after| :: after[i].0 != key;
    }
  }

  lemma FindLastAppended(ms: seq<(string, Tree)>, own: string, tree: Tree, key: string)
    ensures FindLast(ms + [(own, tree)], key) == if key == own then Some(|ms|) else FindLast(ms, key)
  {
    var after := ms + [(own, tree)];
    assert after[..|ms|] == ms;
  }

  lemma {:induction false} FirstExists(ms: seq<(string, Tree)>, key: string)
    ensures FindKey(ms, key).Some? <==> FindLast(ms, key).Some?
  {
    if ms != [] {
      FirstExists(ms[1..], key);
      var r := FindLast(ms[1..], key);
      if r.Some? {
        assert ms[r.value + 1].0 == key;
      } else if ms[0].0 != key {
        forall i | 0 <= i < |ms| ensures ms[i].0 != key {
          assert i > 0 ==> ms[i] == ms[1..][i - 1];
        }
      }
    }
  }

  lemma {:induction false} GetChain(tail: seq<string>, leaf: Tree, below: Below)
    ensures TreeGet(Chain(tail, leaf), tail, below) == Some(leaf)
  {
    if tail != [] {
      GetChain(tail[1..], leaf, below);
      FindLastIs([(tail[0], Chain(tail[1..], leaf))], tail[0], 0);
    }
  }

  /** Reading the path just set: the new value, or the old reading where a key is doubled. */
  lemma {:induction false} GetAfterSet(tree: Tree, segments: seq<string>, leaf: Tree, below: Below)
    requires segments != [] && Settable(tree, segments)
    ensures TreeGet(TreeSet(tree, segments, leaf), segments, below)
         == if PathUnique(tree, segments) then Some(leaf) else TreeGet(tree, segments, below)
    decreases |segments|
  {
    var ms, key, rest := tree.members, segments[0], segments[1..];
    FirstExists(ms, key);
    match FindKey(ms, key)
    case None =>
      FindLastAppended(ms, key, Chain(rest, leaf), key);
      GetChain(rest, leaf, below);
    case Some(k) =>
      FindLastUpdated(ms, k, key, if rest == [] then leaf else TreeSet(ms[k].1, rest, leaf), key);
      if rest != [] && FindLast(ms, key) == Some(k) {
        GetAfterSet(ms[k].1, rest, leaf, below);
      }
  }

  /** Two paths that part before either ends. */
  predicate Diverge(a: seq<string>, b: seq<string>)
    decreases |a|
  {
    a != [] && b != [] && (a[0] != b[0] || Diverge(a[1..], b[1..]))
  }

  lemma {:induction false} ChainHasNoOther(tail: seq<string>, leaf: Tree, other: seq<string>, below: Below)
    requires Diverge(tail, other)
    ensures TreeGet(Chain(tail, leaf), other, below) == None
    decreases |tail|
  {
    var ms := [(tail[0], Chain(tail[1..], leaf))];
    FindLastAppended([], tail[0], Chain(tail[1..], leaf), other[0]);
    assert [] + ms == ms;
    if tail[0] == other[0] {
      ChainHasNoOther(tail[1..], leaf, other[1..], below);
    }
  }

  /** Reading any path that parts from the one set: as before. */
  lemma {:induction false} GetOtherAfterSet(tree: Tree, segments: seq<string>, leaf: Tree, other: seq<string>, below: Below)
    requires segments != [] && Settable(tree, segments) && Diverge(segments, other)
    ensures TreeGet(TreeSet(tree, segments, leaf), other, below) == TreeGet(tree, other, below)
    decreases |segments|
  {
    var ms, key, rest := tree.members, segments[0], segments[1..];
    FirstExists(ms, key);
    match FindKey(ms, key)
    case None =>
      FindLastAppended(ms, key, Chain(rest, leaf), other[0]);
      if other[0] == key {
        ChainHasNoOther(rest, leaf, other[1..], below);
      }
    case Some(k) =>
      FindLastUpdated(ms, k, key, if rest == [] then leaf else TreeSet(ms[k].1, rest, leaf), other[0]);
      if other[0] == key && FindLast(ms, key) == Some(k) {
        GetOtherAfterSet(ms[k].1, rest, leaf, other[1..], below);
      }
  }

  /**
   * On the text: after `set`, a map reader finds the new value at the path, and at every path
   * that parts from it what it found before. With a doubled key on the path it finds the old value.
   */
  lemma SetReadsBack(t: string, kv: KV, other: seq<string>, below: Below)
    requires IsValueText(kv.text) && SetOne(t, kv).Ok? && Accepts(SetOne(t, kv).value)
    ensures ObjectDocument(t) && ObjectDocument(SetOne(t, kv).value)
    ensures var (before, after, segments) := (DocumentTree(t), DocumentTree(SetOne(t, kv).value), Segments(kv.path));
      && TreeGet(after, segments, below)
         == (if PathUnique(before, segments) then Some(ValueTree(kv.text)) else TreeGet(before, segments, below))
      && (Diverge(segments, other) ==> TreeGet(after, other, below) == TreeGet(before, other, below))
  {
    hide SetOne, Accepts, TreeGet, PathUnique, ObjectDocument, DocumentTree, Segments, InsertsBesideComma,
      IsValueText, ValueTree, TreeSet, Settable;
    SetOneLaw(t, kv);
    CanSetIsObject(t, kv.path);
    GetAfterSet(DocumentTree(t), Segments(kv.path), ValueTree(kv.text), below);
    if Diverge(Segments(kv.path), other) {
      GetOtherAfterSet(DocumentTree(t), Segments(kv.path), ValueTree(kv.text), other, below);
    }
  }
}
