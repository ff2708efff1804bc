/** Every serialized value is a value text and stands for the value. */
module JsonValues {
  import opened Text
  import opened JsonLexer
  import opened JsonStrict
  import opened JsonLocality
  import opened JsonCompose
  import opened JsonMember

  datatype JsonValue =
    | Null
    | Bool(b: bool)
    | Number(literal: string)
    | Str(s: string)
    | List(items: seq<JsonValue>)
    | Map(fields: seq<(string, JsonValue)>)

  predicate Valid(v: JsonValue)
    decreases v
  {
    match v
    case Number(literal) => IsNumber(literal)
    case List(items) => forall i | 0 <= i < |items| :: assert items[i] in items; Valid(items[i])
    case Map(fields) => forall i | 0 <= i < |fields| :: assert fields[i] in fields; ValidField(fields[i])
    case _ => true
  }

  predicate ValidField(field: (string, JsonValue))
    decreases field
  {
    Valid(field.1)
  }

  /** Compact JSON, as `serde_json::to_string` writes it. */
  function Serialize(v: JsonValue): string
    decreases v, 0
  {
    match v
    case Null => "null"
    case Bool(b) => if b then "true" else "false"
    case Number(literal) => literal
    case Str(s) => Quote(s)
    case List(items) =>
      "[" + ((if items == [] then "" else Serialize(items[0]) + MoreItems(items[1..])) + "]")
    case Map(fields) =>
      "{" + ((if fields == [] then "" else SerializeField(fields[0]) + MoreFields(fields[1..])) + "}")
  }

  function MoreItems(items: seq<JsonValue>): string
    decreases items, 1
  {
    if items == [] then "" else "," + (Serialize(items[0]) + MoreItems(items[1..]))
  }

  function SerializeField(field: (string, JsonValue)): string
    decreases field, 0
  {
    Quote(field.0) + (":" + Serialize(field.1))
  }

  function MoreFields(fields: seq<(string, JsonValue)>): string
    decreases fields, 1
  {
    if fields == [] then "" else "," + (SerializeField(fields[0]) + MoreFields(fields[1..]))
  }

  /** The tree a value stands for. */
  function ModelTree(v: JsonValue): Tree
    decreases v
  {
    match v
    case Map(fields) =>
      Branch(seq(|fields|, i requires 0 <= i < |fields| =>
        assert fields[i] in fields; FieldTree(fields[i])))
    case _ => Leaf(Serialize(v))
  }

  function FieldTree(field: (string, JsonValue)): (string, Tree)
    decreases field
  {
    (field.0, ModelTree(field.1))
  }

  // ---- scalars ------------------------------------------------------------------------------

  lemma {:induction false} BareStands(u: string, q: nat, s: string)
    requires Stands(u, q, s) && Delimited(u, q + |s|)
    requires forall k | 0 <= k < |s| :: LiteralChar(s[k])
    ensures BareEnd(u, q) == q + |s|
    decreases |s|
  {
    if s != "" {
      assert u[q] == s[0];
      assert s == [s[0]] + s[1..];
      StandsPart(u, q, [s[0]], s[1..]);
      BareStands(u, q + 1, s[1..]);
    }
  }

  lemma LiteralStands(u: string, q: nat, s: string)
    requires IsLiteral(s) && Stands(u, q, s) && Delimited(u, q + |s|)
    ensures Value(u, q) == Some(Node(Scalar, q, q + |s|))
  {
    hide IsLiteral, Stands;
    LiteralChars(s);
    StandsAt(u, q, s, 0);
    BareStands(u, q, s);
    StandsSlice(u, q, s);
  }

  lemma QuoteStands(u: string, q: nat, s: string)
    requires Stands(u, q, Quote(s))
    ensures u[q] == '"' && StringEnd(u, q + 1) == Some(q + |Quote(s)|)
    ensures Decode(u[q + 1..q + |Quote(s)| - 1]) == Some(s)
  {
    hide Encode, Stands, Decode, StringEnd;
    var e := Encode(s);
    assert Quote(s) == "\"" + (e + "\"");
    StandsPart(u, q, "\"", e + "\"");
    StandsPart(u, q + 1, e, "\"");
    StandsAt(u, q, "\"", 0);
    StandsAt(u, q + 1 + |e|, "\"", 0);
    StandsSlice(u, q + 1, e);
    StringEndEncoded(u, q + 1, s);
    DecodeEncode(s);
  }

  lemma ScalarTree(u: string, q: nat, s: string)
    requires Stands(u, q, s)
    ensures TreeOf(u, Node(Scalar, q, q + |s|)) == Leaf(s)
    ensures TreeOf(u, Node(Array, q, q + |s|)) == Leaf(s)
  {
    StandsSlice(u, q, s);
  }

  // ---- all values -----------------------------------------------------------------------------

  /** A serialized value, standing anywhere before a delimiter, parses to its tree. */
  lemma {:induction false} SerializedStands(v: JsonValue, u: string, q: nat)
    requires Valid(v) && Stands(u, q, Serialize(v)) && Delimited(u, q + |Serialize(v)|)
    ensures Value(u, q).Some?
    ensures Value(u, q).value.end == q + |Serialize(v)|
    ensures TreeOf(u, Value(u, q).value) == ModelTree(v)
    decreases v, 2
  {
    hide Stands, Skip, IsLiteral, Quote, Members, Elements, TreeOf, StringEnd, Decode;
    match v
    case Null =>
      ConstantsAreLiterals();
      LiteralStands(u, q, "null");
      ScalarTree(u, q, "null");
    case Bool(b) =>
      ConstantsAreLiterals();
      LiteralStands(u, q, Serialize(v));
      ScalarTree(u, q, Serialize(v));
    case Number(literal) =>
      ConstantsAreLiterals();
      LiteralStands(u, q, literal);
      ScalarTree(u, q, literal);
    case Str(s) =>
      QuoteStands(u, q, s);
      ScalarTree(u, q, Quote(s));
    case List(items) => ListStands(items, u, q);
    case Map(fields) => MapStands(fields, u, q);
  }

  lemma ConstantsAreLiterals()
    ensures IsLiteral("null") && IsLiteral("true") && IsLiteral("false")
    ensures forall s :: IsNumber(s) ==> IsLiteral(s)
  {
  }

  lemma ListStands(items: seq<JsonValue>, u: string, q: nat)
    requires Valid(List(items)) && Stands(u, q, Serialize(List(items)))
    ensures Value(u, q) == Some(Node(Array, q, q + |Serialize(List(items))|))
    ensures TreeOf(u, Value(u, q).value) == ModelTree(List(items))
    decreases List(items), 1
  {
    hide Stands, Skip, Elements, TreeOf, Valid, Delimited;
    var more := if items == [] then "" else Serialize(items[0]) + MoreItems(items[1..]);
    StandsPart(u, q, "[", more + "]");
    StandsAt(u, q, "[", 0);
    ValidItems(items);
    if items == [] {
      assert more + "]" == "]";
      ElementsClosed(u, q + 1, true);
    } else {
      assert items[0] in items;
      assert more + "]" == Serialize(items[0]) + (MoreItems(items[1..]) + "]");
      StandsPart(u, q + 1, Serialize(items[0]), MoreItems(items[1..]) + "]");
      MoreItemsStand(items[1..], u, q + 1 + |Serialize(items[0])|);
      SerializedStands(items[0], u, q + 1);
      FirstElement(u, q + 1);
    }
    ScalarTree(u, q, Serialize(List(items)));
  }

  lemma ValidItems(items: seq<JsonValue>)
    requires Valid(List(items))
    ensures forall i | 0 <= i < |items| :: Valid(items[i])
  {
    var v := List(items);
    forall i | 0 <= i < |items| ensures Valid(items[i]) {
      assert v.items[i] in v.items;
    }
  }

  lemma ElementsClosed(u: string, p: nat, first: bool)
    requires Stands(u, p, "]")
    ensures Elements(u, p, first) == Some(p + 1) && Delimited(u, p)
  {
    StandsAt(u, p, "]", 0);
    SkipRun(u, p, p);
  }

  lemma FirstElement(u: string, p: nat)
    requires Value(u, p).Some?
    ensures Elements(u, p, true) == Elements(u, Value(u, p).value.end, false)
  {
    hide Value;
    ValueStartsSolid(u, p);
    SkipRun(u, p, p);
  }

  lemma NextElement(u: string, p: nat)
    requires p < |u| && u[p] == ',' && Value(u, p + 1).Some?
    ensures Elements(u, p, false) == Elements(u, Value(u, p + 1).value.end, false)
  {
    hide Value;
    ValueStartsSolid(u, p + 1);
    SkipRun(u, p, p);
    SkipRun(u, p + 1, p + 1);
  }

  lemma {:induction false} MoreItemsStand(items: seq<JsonValue>, u: string, p: nat)
    requires forall i | 0 <= i < |items| :: Valid(items[i])
    requires Stands(u, p, MoreItems(items) + "]")
    ensures Elements(u, p, false) == Some(p + |MoreItems(items)| + 1) && Delimited(u, p)
    decreases items, 3
  {
    hide Stands, Skip, Elements, TreeOf, Valid, Value;
    if items == [] {
      assert MoreItems(items) + "]" == "]";
      ElementsClosed(u, p, false);
    } else {
      var one, rest := Serialize(items[0]), MoreItems(items[1..]) + "]";
      assert MoreItems(items) + "]" == "," + (one + rest);
      assert items[0] in items;
      StandsPart(u, p, ",", one + rest);
      StandsAt(u, p, ",", 0);
      StandsPart(u, p + 1, one, rest);
      MoreItemsStand(items[1..], u, p + 1 + |one|);
      SerializedStands(items[0], u, p + 1);
      NextElement(u, p);
    }
  }

  // ---- objects --------------------------------------------------------------------------------

  lemma ValidFields(fields: seq<(string, JsonValue)>)
    requires Valid(Map(fields))
    ensures forall i | 0 <= i < |fields| :: ValidField(fields[i])
  {
    var v := Map(fields);
    forall i | 0 <= i < |fields| ensures ValidField(fields[i]) {
      assert v.fields[i] in v.fields;
    }
  }

  lemma FieldStands(field: (string, JsonValue), u: string, q: nat)
    requires ValidField(field) && Stands(u, q, SerializeField(field)) && Delimited(u, q + |SerializeField(field)|)
    ensures q < |u| && u[q] == '"'
    ensures MemberAt(u, q).Some?
    ensures MemberAt(u, q).value.value.end == q + |SerializeField(field)|
    ensures (MemberAt(u, q).value.key, TreeOf(u, MemberAt(u, q).value.value)) == FieldTree(field)
    decreases field, 3
  {
    hide Stands, Skip, Quote, TreeOf, Value, Serialize, StringEnd, Decode;
    var key, v := field.0, field.1;
    var e := q + |Quote(key)|;
    StandsPart(u, q, Quote(key), ":" + Serialize(v));
    StandsPart(u, e, ":", Serialize(v));
    StandsAt(u, e, ":", 0);
    QuoteStands(u, q, key);
    SerializedStands(v, u, e + 1);
    ValueStartsSolid(u, e + 1);
    SkipRun(u, e, e);
    SkipRun(u, e + 1, e + 1);
    HeadAt(u, q, key, e);
    MemberFromParts(u, q, key, e + 1);
  }

  lemma HeadAt(u: string, q: nat, key: string, e: nat)
    requires q < e < |u| && u[q] == '"' && u[e] == ':'
    requires StringEnd(u, q + 1) == Some(e) && Decode(u[q + 1..e - 1]) == Some(key)
    requires Skip(u, e) == e && Skip(u, e + 1) == e + 1
    ensures MemberHead(u, q) == Some((key, e + 1))
  {
    hide Skip, StringEnd, Decode;
  }

  lemma MembersClosed(u: string, p: nat, first: bool)
    requires Stands(u, p, "}")
    ensures Members(u, p, first) == Some(([], p + 1)) && Delimited(u, p)
  {
    StandsAt(u, p, "}", 0);
    SkipRun(u, p, p);
  }

  lemma FirstMember(u: string, p: nat)
    requires p < |u| && u[p] == '"' && MemberAt(u, p).Some?
    ensures Separator(u, p, true, '}') == Some(p)
  {
    SkipRun(u, p, p);
  }

  lemma NextMember(u: string, p: nat)
    requires p + 1 < |u| && u[p] == ',' && u[p + 1] == '"'
    ensures Separator(u, p, false, '}') == Some(p + 1)
  {
    SkipRun(u, p, p);
    SkipRun(u, p + 1, p + 1);
  }

  function FieldTrees(fields: seq<(string, JsonValue)>): (trees: seq<(string, Tree)>)
    ensures |trees| == |fields|
    ensures forall i | 0 <= i < |fields| :: trees[i] == FieldTree(fields[i])
  {
    seq(|fields|, i requires 0 <= i < |fields| => FieldTree(fields[i]))
  }

  lemma MapTree(fields: seq<(string, JsonValue)>)
    ensures ModelTree(Map(fields)) == Branch(FieldTrees(fields))
  {
    hide FieldTree;
  }

  lemma ConsTrees(u: string, m: Member, rest: seq<Member>, fields: seq<(string, JsonValue)>)
    requires fields != [] && (m.key, TreeOf(u, m.value)) == FieldTree(fields[0])
    requires MemberTrees(u, rest) == FieldTrees(fields[1..])
    ensures MemberTrees(u, [m] + rest) == FieldTrees(fields)
  {
    hide TreeOf, FieldTree;
    MemberTreesAppend(u, [m], rest);
  }

  lemma {:induction false} MoreFieldsStand(fields: seq<(string, JsonValue)>, u: string, p: nat)
    requires forall i | 0 <= i < |fields| :: ValidField(fields[i])
    requires Stands(u, p, MoreFields(fields) + "}")
    ensures Members(u, p, false).Some? && Delimited(u, p)
    ensures Members(u, p, false).value.1 == p + |MoreFields(fields)| + 1
    ensures MemberTrees(u, Members(u, p, false).value.0) == FieldTrees(fields)
    decreases fields, 4
  {
    hide Stands, Skip, Members, MemberAt, Separator, TreeOf, ValidField, Value, FieldTree;
    if fields == [] {
      assert MoreFields(fields) + "}" == "}";
      MembersClosed(u, p, false);
    } else {
      var one, rest := SerializeField(fields[0]), MoreFields(fields[1..]) + "}";
      assert MoreFields(fields) + "}" == "," + (one + rest);
      assert fields[0] in fields;
      StandsPart(u, p, ",", one + rest);
      StandsAt(u, p, ",", 0);
      StandsPart(u, p + 1, one, rest);
      MoreFieldsStand(fields[1..], u, p + 1 + |one|);
      FieldStands(fields[0], u, p + 1);
      NextMember(u, p);
      var m := MemberAt(u, p + 1).value;
      ConsMembers(u, p, false, p + 1);
      ConsTrees(u, m, Members(u, m.value.end, false).value.0, fields);
    }
  }

  lemma ConsMembers(u: string, p: nat, first: bool, q: nat)
    requires p <= |u| && Separator(u, p, first, '}') == Some(q) && u[q] == '"'
    requires MemberAt(u, q).Some? && Members(u, MemberAt(u, q).value.value.end, false).Some?
    ensures var m := MemberAt(u, q).value;
      var r := Members(u, m.value.end, false).value;
      Members(u, p, first) == Some(([m] + r.0, r.1))
  {
    hide Separator, MemberAt;
  }

  lemma MapStands(fields: seq<(string, JsonValue)>, u: string, q: nat)
    requires Valid(Map(fields)) && Stands(u, q, Serialize(Map(fields)))
    ensures Value(u, q).Some?
    ensures Value(u, q).value.end == q + |Serialize(Map(fields))|
    ensures TreeOf(u, Value(u, q).value) == ModelTree(Map(fields))
    decreases Map(fields), 1
  {
    hide Stands, Skip, Members, MemberAt, Separator, TreeOf, Valid, Value, FieldTree, Delimited;
    var more := if fields == [] then "" else SerializeField(fields[0]) + MoreFields(fields[1..]);
    StandsPart(u, q, "{", more + "}");
    StandsAt(u, q, "{", 0);
    ValidFields(fields);
    if fields == [] {
      assert more + "}" == "}";
      MembersClosed(u, q + 1, true);
    } else {
      var one, rest := SerializeField(fields[0]), MoreFields(fields[1..]) + "}";
      assert more + "}" == one + rest;
      assert fields[0] in fields;
      StandsPart(u, q + 1, one, rest);
      MoreFieldsStand(fields[1..], u, q + 1 + |one|);
      FieldStands(fields[0], u, q + 1);
      FirstMember(u, q + 1);
      var m := MemberAt(u, q + 1).value;
      ConsMembers(u, q + 1, true, q + 1);
      ConsTrees(u, m, Members(u, m.value.end, false).value.0, fields);
    }
    ObjectValue(u, q);
    MapTree(fields);
    BranchTree(u, Value(u, q).value);
  }

  /** Whatever the caller passes to `set`, its serialized form satisfies what the laws of `set` ask. */
  lemma SerializedIsValueText(v: JsonValue)
    requires Valid(v)
    ensures IsValueText(Serialize(v)) && ValueTree(Serialize(v)) == ModelTree(v)
  {
    hide Value, TreeOf, ModelTree;
    SerializedStands(v, Serialize(v), 0);
  }
}
