/** The member text that `set` builds parses to the nested path it stands for. */
module JsonMember {
  import opened Text
  import opened JsonLexer
  import opened JsonStrict
  import opened JsonParser
  import opened JsonLocality
  import opened JsonCompose
  import opened JsonEdit

  /** A complete JSON value with nothing around it, such as a serializer emits. */
  predicate IsValueText(v: string) {
    Value(v, 0).Some? && Value(v, 0).value.end == |v|
  }

  function ValueTree(v: string): Tree
    requires IsValueText(v)
  {
    TreeOf(v, Value(v, 0).value)
  }

  /** Objects nested along `tail`, around one value. */
  function Chain(tail: seq<string>, leaf: Tree): Tree {
    if tail == [] then leaf else Branch([(tail[0], Chain(tail[1..], leaf))])
  }

  predicate JsonBlank(s: string) {
    forall k | 0 <= k < |s| :: JsonWs(s[k])
  }

  /** `s` stands in `u` at `q`. */
  ghost predicate Stands(u: string, q: nat, s: string) {
    q + |s| <= |u| && forall k | 0 <= k < |s| :: u[q + k] == s[k]
  }

  lemma StandsPart(u: string, q: nat, a: string, b: string)
    requires Stands(u, q, a + b)
    ensures Stands(u, q, a) && Stands(u, q + |a|, b)
  {
    assert forall k | 0 <= k < |a| :: (a + b)[k] == a[k];
    assert forall k | 0 <= k < |b| :: (a + b)[|a| + k] == b[k];
  }

  lemma StandsAt(u: string, q: nat, s: string, k: nat)
    requires Stands(u, q, s) && k < |s|
    ensures q + k < |u| && u[q + k] == s[k]
  {
  }

  lemma StandsSlice(u: string, q: nat, s: string)
    requires Stands(u, q, s)
    ensures q + |s| <= |u| && u[q..q + |s|] == s
  {
  }

  lemma {:induction false} SkipRun(u: string, p: nat, q: nat)
    requires p <= q < |u| && Solid(u, q)
    requires forall k | p <= k < q :: JsonWs(u[k])
    ensures Skip(u, p) == q
    decreases q - p
  {
    if p < q {
      SkipRun(u, p + 1, q);
    }
  }

  lemma SkipBlankText(u: string, p: nat, s: string)
    requires Stands(u, p, s) && JsonBlank(s) && Solid(u, p + |s|)
    ensures Skip(u, p) == p + |s|
  {
    forall k | p <= k < p + |s| ensures JsonWs(u[k]) {
      assert u[k] == s[k - p];
    }
    SkipRun(u, p, p + |s|);
  }

  lemma AgreeFromStands(v: string, u: string, at: nat)
    requires Stands(u, at, v)
    ensures Agree(v, u, 0, |v|, at)
  {
    forall k | 0 <= k < |v| ensures u[k + at] == v[k] {
      assert u[at + k] == v[k];
    }
  }

  /** A value text placed anywhere is the value it was. */
  lemma PlacedValue(v: string, u: string, at: nat)
    requires IsValueText(v) && Stands(u, at, v) && Delimited(u, at + |v|)
    ensures Value(u, at).Some?
    ensures Value(u, at).value.end == at + |v|
    ensures TreeOf(u, Value(u, at).value) == ValueTree(v)
  {
    hide Value, WellFormed, Shifted, TreeOf;
    AgreeFromStands(v, u, at);
    ValueLocal(v, u, 0, at);
    StrictIsWellFormed(v, 0);
    TreeLocal(v, u, Value(v, 0).value, Value(u, at).value, at);
  }

  /** `"key": ` in front of a value. */
  lemma HeadParses(u: string, q: nat, key: string)
    requires Stands(u, q, Quote(key) + ": ") && Solid(u, q + |Quote(key)| + 2)
    ensures u[q] == '"'
    ensures MemberHead(u, q) == Some((key, q + |Quote(key)| + 2))
  {
    hide Encode, StringEnd, Decode, Skip, Stands;
    var e := Encode(key);
    var quote := q + |Quote(key)|;
    assert Quote(key) + ": " == "\"" + (e + "\": ");
    StandsPart(u, q, "\"", e + "\": ");
    StandsPart(u, q + 1, e, "\": ");
    StandsAt(u, q, "\"", 0);
    StandsAt(u, q + 1 + |e|, "\": ", 0);
    StandsAt(u, q + 1 + |e|, "\": ", 1);
    StandsAt(u, q + 1 + |e|, "\": ", 2);
    StandsSlice(u, q + 1, e);
    StringEndEncoded(u, q + 1, key);
    DecodeEncode(key);
    SkipRun(u, quote, quote);
    SkipRun(u, quote + 1, quote + 2);
  }

  lemma MemberFromParts(u: string, q: nat, key: string, start: nat)
    requires q < |u| && MemberHead(u, q) == Some((key, start)) && Value(u, start).Some?
    ensures MemberAt(u, q) == Some(Member(key, q, Value(u, start).value))
  {
    hide MemberHead, Value;
  }

  /** An object holding exactly the member at `q`, in white space. */
  lemma SingletonObject(u: string, i: nat, q: nat, close: nat)
    requires i < q < close < |u| && u[i] == '{' && u[close] == '}' && u[q] == '"'
    requires Skip(u, i + 1) == q
    requires MemberAt(u, q).Some?
    requires MemberAt(u, q).value.value.end <= close
    requires Skip(u, MemberAt(u, q).value.value.end) == close
    ensures Value(u, i) == Some(Node(Object([MemberAt(u, q).value]), i, close + 1))
  {
    hide Skip, MemberAt;
    var m := MemberAt(u, q).value;
    assert Separator(u, i + 1, true, '}') == Some(q);
    assert Separator(u, m.value.end, false, '}') == Some(close);
    assert Members(u, m.value.end, false) == Some(([], close + 1));
    assert [m] + [] == [m];
    assert Members(u, i + 1, true) == Some(([m], close + 1));
    ObjectValue(u, i);
  }

  lemma SingletonTree(u: string, m: Member, i: nat, end: nat)
    ensures TreeOf(u, Node(Object([m]), i, end)) == Branch([(m.key, TreeOf(u, m.value))])
  {
    var n := Node(Object([m]), i, end);
    assert TreeOf(u, n) == Branch(MemberTrees(u, [m]));
  }

  /** The built text, wherever it stands before a delimiter, is the path's member. */
  lemma {:induction false} BuiltMemberParses(u: string, q: nat, key: string, tail: seq<string>, v: string,
                                             indent: string, newline: string, unit: string)
    requires IsValueText(v) && JsonBlank(indent) && JsonBlank(newline) && JsonBlank(unit) && newline != ""
    requires Stands(u, q, BuildMember(key, tail, v, indent, newline, unit))
    requires Delimited(u, q + |BuildMember(key, tail, v, indent, newline, unit)|)
    ensures q < |u| && u[q] == '"'
    ensures MemberAt(u, q).Some?
    ensures MemberAt(u, q).value.key == key
    ensures MemberAt(u, q).value.value.end == q + |BuildMember(key, tail, v, indent, newline, unit)|
    ensures TreeOf(u, MemberAt(u, q).value.value) == Chain(tail, ValueTree(v))
    decreases |tail|
  {
    hide Value, Skip, MemberAt, MemberHead, TreeOf, Quote, Stands;
    var head := Quote(key) + ": ";
    var start := q + |head|;
    if tail == [] {
      StandsPart(u, q, head, v);
      PlacedValue(v, u, start);
      ValueStartsSolid(u, start);
    } else {
      var child, gap := indent + unit, newline + indent;
      var inner := BuildMember(tail[0], tail[1..], v, child, newline, unit);
      var open := "{" + (newline + child);
      BuiltShape(key, tail, v, indent, newline, unit);
      StandsPart(u, q, head, open + inner + (gap + "}"));
      StandsPart(u, start, open + inner, gap + "}");
      StandsPart(u, start, open, inner);
      NestedObject(u, start, tail, v, child, newline, unit, inner, gap);
    }
    HeadParses(u, q, key);
    MemberFromParts(u, q, key, start);
  }

  lemma BuiltShape(key: string, tail: seq<string>, v: string, indent: string, newline: string, unit: string)
    requires tail != []
    ensures BuildMember(key, tail, v, indent, newline, unit)
         == (Quote(key) + ": ") + (("{" + (newline + (indent + unit)))
            + BuildMember(tail[0], tail[1..], v, indent + unit, newline, unit) + ((newline + indent) + "}"))
  {
    hide Quote;
    var q, inner := Quote(key), BuildMember(tail[0], tail[1..], v, indent + unit, newline, unit);
    assert q + ": {" == (q + ": ") + "{";
  }

  /** Braces and white space around one member make an object. */
  lemma WrapMember(u: string, i: nat, open: string, inner: string, gap: string)
    requires JsonBlank(open) && JsonBlank(gap) && gap != ""
    requires Stands(u, i, "{" + open) && Stands(u, i + 1 + |open|, inner)
    requires Stands(u, i + 1 + |open| + |inner|, gap + "}")
    ensures Delimited(u, i + 1 + |open| + |inner|)
    ensures var q := i + 1 + |open|;
      q < |u| && u[q] == '"' && MemberAt(u, q).Some? && MemberAt(u, q).value.value.end == q + |inner| ==>
        && Solid(u, i)
        && Value(u, i) == Some(Node(Object([MemberAt(u, q).value]), i, q + |inner| + |gap| + 1))
  {
    hide Value, Skip, MemberAt, Stands;
    var q := i + 1 + |open|;
    var e := q + |inner|;
    StandsPart(u, i, "{", open);
    StandsPart(u, e, gap, "}");
    StandsAt(u, i, "{", 0);
    StandsAt(u, e, gap, 0);
    StandsAt(u, e + |gap|, "}", 0);
    if q < |u| && u[q] == '"' && MemberAt(u, q).Some? && MemberAt(u, q).value.value.end == e {
      SkipBlankText(u, i + 1, open);
      SkipBlankText(u, e, gap);
      SingletonObject(u, i, q, e + |gap|);
    }
  }

  lemma {:induction false} NestedObject(u: string, i: nat, tail: seq<string>, v: string, child: string,
                     newline: string, unit: string, inner: string, gap: string)
    requires tail != [] && IsValueText(v)
    requires JsonBlank(child) && JsonBlank(newline) && JsonBlank(gap) && JsonBlank(unit)
    requires newline != "" && gap != ""
    requires inner == BuildMember(tail[0], tail[1..], v, child, newline, unit)
    requires Stands(u, i, "{" + (newline + child))
    requires Stands(u, i + 1 + |newline + child|, inner)
    requires Stands(u, i + 1 + |newline + child| + |inner|, gap + "}")
    ensures Solid(u, i) && Value(u, i).Some?
    ensures Value(u, i).value.end == i + 1 + |newline + child| + |inner| + |gap| + 1
    ensures TreeOf(u, Value(u, i).value) == Chain(tail, ValueTree(v))
    decreases |tail|, 0
  {
    hide Value, Skip, MemberAt, TreeOf, BuildMember, Stands, Solid;
    var open := newline + child;
    var q := i + 1 + |open|;
    WrapMember(u, i, open, inner, gap);
    BuiltMemberParses(u, q, tail[0], tail[1..], v, child, newline, unit);
    SingletonTree(u, MemberAt(u, q).value, i, q + |inner| + |gap| + 1);
  }
}
