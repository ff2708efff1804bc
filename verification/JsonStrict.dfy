/**
 * JSON with comments and trailing commas, as an exact grammar over the text
 * itself: what a document must look like for the stripped copy to be RFC 8259.
 */
module JsonStrict {
  import opened Text
  import opened JsonLexer

  datatype Kind = Object(members: seq<Member>) | Array | Scalar

  datatype Node = Node(kind: Kind, start: nat, end: nat)

  datatype Member = Member(key: string, keyStart: nat, value: Node)

  /** What a document says: objects by their members, anything else by its text. */
  datatype Tree = Leaf(text: string) | Branch(members: seq<(string, Tree)>)

  /**
   * From the end of an element (or the opening bracket) to the next element or
   * the closing bracket: one comma between elements, at most one after the last.
   */
  function Separator(t: string, p: nat, first: bool, close: char): (r: Option<nat>)
    requires p <= |t|
    ensures r.Some? ==> p <= r.value < |t|
  {
    var q := Skip(t, p);
    if q == |t| then None
    else if t[q] == close then Some(q)
    else if t[q] == ',' then
      var r := Skip(t, q + 1);
      if r == |t| then None
      else if t[r] == close then Some(r)
      else if first then None
      else Some(r)
    else if first then Some(q)
    else None
  }

  /** A member's key, and where its value starts. */
  function MemberHead(t: string, q: nat): (r: Option<(string, nat)>)
    requires q < |t|
    ensures r.Some? ==> q + 1 < r.value.1 <= |t|
  {
    if t[q] != '"' then None
    else
      match StringEnd(t, q + 1)
      case None => None
      case Some(e) =>
        var colon := Skip(t, e);
        match Decode(t[q + 1..e - 1])
        case None => None
        case Some(key) =>
          if colon == |t| || t[colon] != ':' then None
          else Some((key, Skip(t, colon + 1)))
  }

  function ScalarEnd(t: string, i: nat): (r: Option<nat>)
    requires i < |t|
    ensures r.Some? ==> i < r.value <= |t|
  {
    if t[i] == '"' then
      match StringEnd(t, i + 1)
      case Some(end) => if Decode(t[i + 1..end - 1]).Some? then Some(end) else None
      case None => None
    else
      var end := BareEnd(t, i);
      if IsLiteral(t[i..end]) then Some(end) else None
  }

  function Value(t: string, i: nat): (r: Option<Node>)
    ensures r.Some? ==> r.value.start == i < r.value.end <= |t|
    decreases |t| - i, 0
  {
    if i >= |t| then None
    else if t[i] == '{' then
      match Members(t, i + 1, true)
      case Some(r) => Some(Node(Object(r.0), i, r.1))
      case None => None
    else if t[i] == '[' then
      match Elements(t, i + 1, true)
      case Some(end) => Some(Node(Array, i, end))
      case None => None
    else
      match ScalarEnd(t, i)
      case Some(end) => Some(Node(Scalar, i, end))
      case None => None
  }

  function MemberAt(t: string, q: nat): (r: Option<Member>)
    requires q < |t|
    ensures r.Some? ==> r.value.keyStart == q < r.value.value.start < r.value.value.end <= |t|
    decreases |t| - q, 1
  {
    match MemberHead(t, q)
    case None => None
    case Some(head) =>
      match Value(t, head.1)
      case None => None
      case Some(value) => Some(Member(head.0, q, value))
  }

  function Members(t: string, p: nat, first: bool): (r: Option<(seq<Member>, nat)>)
    requires p <= |t|
    ensures r.Some? ==> p < r.value.1 <= |t| && t[r.value.1 - 1] == '}'
    decreases |t| - p, 2
  {
    match Separator(t, p, first, '}')
    case None => None
    case Some(q) =>
      if t[q] == '}' then Some(([], q + 1))
      else
        match MemberAt(t, q)
        case None => None
        case Some(member) =>
          match Members(t, member.value.end, false)
          case None => None
          case Some(r) => Some(([member] + r.0, r.1))
  }

  function Elements(t: string, p: nat, first: bool): (r: Option<nat>)
    requires p <= |t|
    ensures r.Some? ==> p < r.value <= |t|
    decreases |t| - p, 1
  {
    match Separator(t, p, first, ']')
    case None => None
    case Some(q) =>
      if t[q] == ']' then Some(q + 1)
      else
        match Value(t, q)
        case None => None
        case Some(value) => Elements(t, value.end, false)
  }

  function Document(t: string): (r: Option<Node>)
    ensures r.Some? ==> r.value.start < r.value.end <= |t|
  {
    match Value(t, Skip(t, 0))
    case Some(root) => if Skip(t, root.end) == |t| then Some(root) else None
    case None => None
  }

  function Slice(t: string, i: nat, j: nat): string {
    if i <= j <= |t| then t[i..j] else ""
  }

  function TreeOf(t: string, node: Node): Tree
    decreases node
  {
    match node.kind
    case Object(members) => Branch(MemberTrees(t, members))
    case _ => Leaf(Slice(t, node.start, node.end))
  }

  function MemberTrees(t: string, members: seq<Member>): (trees: seq<(string, Tree)>)
    ensures |trees| == |members|
    ensures forall i | 0 <= i < |members| ::
      trees[i] == (members[i].key, TreeOf(t, members[i].value))
    decreases members
  {
    seq(|members|, i requires 0 <= i < |members| =>
      assert members[i] in members; (members[i].key, TreeOf(t, members[i].value)))
  }
}
