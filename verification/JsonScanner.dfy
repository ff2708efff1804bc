/** The parser as it runs: one position moving over the text. */
module JsonScanner {
  import opened Text
  import opened JsonLexer
  import opened JsonStrict
  import opened JsonParser

  lemma {:induction false} SkipFromSkip(t: string, p: nat)
    requires p <= |t|
    ensures ParseMembers(t, LooseSkip(t, p)) == ParseMembers(t, p)
    ensures ParseElements(t, LooseSkip(t, p)) == ParseElements(t, p)
    ensures ParseValue(t, LooseSkip(t, p)) == ParseValue(t, p)
  {
    hide LooseSkip, ParseMember, StringEnd, BareEnd;
    LooseSkipTwice(t, p);
  }

  lemma PrependTwice(a: seq<Member>, m: Member, r: Result<(seq<Member>, nat), ParseError>)
    ensures Prepend(a, Prepend([m], r)) == Prepend(a + [m], r)
  {
    if r.Ok? {
      assert a + ([m] + r.value.0) == a + [m] + r.value.0;
    }
  }

  lemma PrependEnds(a: seq<Member>, end: nat, r: Result<(seq<Member>, nat), ParseError>)
    ensures Prepend([], r) == r
    ensures Prepend(a, Ok(([], end))) == Ok((a, end))
    ensures r.Err? ==> Prepend(a, r) == r
  {
    assert r.Ok? ==> [] + r.value.0 == r.value.0;
    assert a + [] == a;
  }

  /** What the member list at a token is. */
  lemma MembersAt(t: string, p: nat)
    requires p <= |t| && LooseSkip(t, p) == p
    ensures ParseMembers(t, p)
         == if p == |t| then Err(ParseError(UnterminatedObject, p))
            else if t[p] == '}' then Ok(([], p + 1))
            else if t[p] == ',' then ParseMembers(t, p + 1)
            else if t[p] != '"' then Err(ParseError(ExpectedKey, p))
            else if ParseMember(t, p).Err? then Err(ParseMember(t, p).error)
            else Prepend([ParseMember(t, p).value], ParseMembers(t, ParseMember(t, p).value.value.end))
  {
    hide LooseSkip, ParseMember;
  }

  class Parser {
    const src: string
    var pos: nat

    ghost predicate Valid()
      reads this
    {
      pos <= |src|
    }

    constructor (src: string)
      ensures Valid() && this.src == src && pos == 0
    {
      this.src := src;
      pos := 0;
    }

    method SkipTrivia()
      requires Valid()
      modifies this`pos
      ensures Valid() && pos == LooseSkip(src, old(pos))
    {
      hide LineEnd, BlockEnd;
      var done := false;
      while !done
        invariant Valid()
        invariant LooseSkip(src, pos) == LooseSkip(src, old(pos))
        invariant done ==> LooseSkip(src, pos) == pos
        decreases |src| - pos, !done
      {
        while pos < |src| && AsciiWhitespace(src[pos])
          invariant Valid() && pos >= old(pos)
          invariant LooseSkip(src, pos) == LooseSkip(src, old(pos))
        {
          pos := pos + 1;
        }
        if OpensComment(src, pos) {
          SkipComment();
        } else {
          done := true;
        }
      }
    }

    method SkipComment()
      requires Valid() && OpensComment(src, pos)
      modifies this`pos
      ensures Valid() && pos == LooseCommentEnd(src, old(pos))
    {
      var line := src[pos + 1] == '/';
      pos := pos + 2;
      ghost var body := pos;
      if line {
        while pos < |src| && src[pos] != '\n'
          invariant body <= pos <= |src|
          invariant LineEnd(src, pos) == LineEnd(src, body)
        {
          pos := pos + 1;
        }
      } else {
        while pos + 1 < |src| && !(src[pos] == '*' && src[pos + 1] == '/')
          invariant body <= pos <= |src|
          invariant BlockEnd(src, pos) == BlockEnd(src, body)
          invariant pos == |src| ==> pos == body
        {
          pos := pos + 1;
        }
        if pos + 1 < |src| {
          pos := pos + 2;
        }
      }
    }

    method ScanString() returns (r: Result<(), ParseError>)
      requires Valid() && pos < |src|
      modifies this`pos
      ensures Valid()
      ensures match StringEnd(src, old(pos) + 1) {
        case Some(end) => r == Ok(()) && pos == end
        case None => r == Err(ParseError(UnterminatedString, |src|))
      }
    {
      pos := pos + 1;
      ghost var body := pos;
      var escaped := false;
      while pos < |src|
        invariant body <= pos <= |src|
        invariant StringEnd(src, body) == StringEnd(src, if escaped then pos + 1 else pos)
      {
        if escaped {
          escaped := false;
        } else if src[pos] == '\\' {
          escaped := true;
        } else if src[pos] == '"' {
          pos := pos + 1;
          return Ok(());
        }
        pos := pos + 1;
      }
      return Err(ParseError(UnterminatedString, pos));
    }

    method Document() returns (r: Result<Node, ParseError>)
      requires Valid() && pos == 0
      modifies this`pos
      ensures Valid() && r == ParseDocument(src)
    {
      hide ParseValue, LooseSkip;
      SkipTrivia();
      if pos >= |src| {
        return Err(ParseError(EmptyDocument, pos));
      }
      var node := Value();
      if node.Err? {
        return node;
      }
      SkipTrivia();
      if pos != |src| {
        return Err(ParseError(TrailingData, pos));
      }
      return node;
    }

    method Value() returns (r: Result<Node, ParseError>)
      requires Valid()
      modifies this`pos
      ensures Valid() && r == ParseValue(src, old(pos))
      ensures r.Ok? ==> pos == r.value.end
      decreases |src| - pos, 1
    {
      hide LooseSkip, ParseMembers, ParseElements, StringEnd;
      SkipTrivia();
      var start := pos;
      if start >= |src| {
        return Err(ParseError(UnexpectedEnd, start));
      }
      if src[start] == '{' {
        r := ReadObject();
      } else if src[start] == '[' {
        r := ReadArray();
      } else if src[start] == '"' {
        var s := ScanString();
        if s.Err? {
          return Err(s.error);
        }
        return Ok(Node(Scalar, start, pos));
      } else {
        while pos < |src| && !EndsBare(src[pos])
          invariant start <= pos <= |src|
          invariant BareEnd(src, pos) == BareEnd(src, start)
        {
          pos := pos + 1;
        }
        if pos == start {
          return Err(ParseError(UnexpectedCharacter, pos));
        }
        return Ok(Node(Scalar, start, pos));
      }
    }

    /** One `"key": value`, from the quote to the end of the value. */
    method ReadMember() returns (r: Result<Member, ParseError>)
      requires Valid() && pos < |src|
      modifies this`pos
      ensures Valid() && r == ParseMember(src, old(pos))
      ensures r.Ok? ==> pos == r.value.value.end
      decreases |src| - pos, 2
    {
      hide LooseSkip, ParseValue, StringEnd, Decode;
      var keyStart := pos;
      var s := ScanString();
      if s.Err? {
        return Err(s.error);
      }
      var key := Decode(src[keyStart + 1..pos - 1]);
      if key.None? {
        return Err(ParseError(BadKey, pos));
      }
      SkipTrivia();
      if pos >= |src| || src[pos] != ':' {
        return Err(ParseError(ExpectedColon, pos));
      }
      pos := pos + 1;
      var value := Value();
      if value.Err? {
        return Err(value.error);
      }
      return Ok(Member(key.value, keyStart, value.value));
    }

    method SkipComma()
      requires Valid()
      modifies this`pos
      ensures Valid() && pos >= old(pos)
      ensures ParseMembers(src, pos) == ParseMembers(src, old(pos))
      ensures ParseElements(src, pos) == ParseElements(src, old(pos))
    {
      hide LooseSkip, ParseMember, ParseValue;
      SkipFromSkip(src, pos);
      LooseSkipTwice(src, pos);
      SkipTrivia();
      if pos < |src| && src[pos] == ',' {
        pos := pos + 1;
      }
    }

    method ReadObject() returns (r: Result<Node, ParseError>)
      requires Valid() && pos < |src|
      modifies this`pos
      ensures Valid()
      ensures r == match ParseMembers(src, old(pos) + 1) {
        case Ok(v) => Ok(Node(Object(v.0), old(pos), v.1))
        case Err(e) => Err(e)
      }
      ensures r.Ok? ==> pos == r.value.end
      decreases |src| - pos, 0
    {
      hide LooseSkip, ParseMember, Prepend, ParseMembers;
      var start := pos;
      pos := pos + 1;
      var members := [];
      ghost var goal := ParseMembers(src, pos);
      PrependEnds([], pos, goal);
      while true
        invariant start < pos <= |src|
        invariant goal == Prepend(members, ParseMembers(src, pos))
        decreases |src| - pos
      {
        PrependEnds(members, pos + 1, ParseMembers(src, pos));
        SkipFromSkip(src, pos);
        LooseSkipTwice(src, pos);
        SkipTrivia();
        MembersAt(src, pos);
        if pos >= |src| {
          return Err(ParseError(UnterminatedObject, pos));
        }
        if src[pos] == '}' {
          pos := pos + 1;
          PrependEnds(members, pos, ParseMembers(src, pos - 1));
          return Ok(Node(Object(members), start, pos));
        } else if src[pos] == ',' {
          pos := pos + 1;
        } else if src[pos] == '"' {
          var m := ReadMember();
          if m.Err? {
            return Err(m.error);
          }
          PrependTwice(members, m.value, ParseMembers(src, pos));
          members := members + [m.value];
          SkipComma();
        } else {
          return Err(ParseError(ExpectedKey, pos));
        }
      }
    }

    method ReadArray() returns (r: Result<Node, ParseError>)
      requires Valid() && pos < |src|
      modifies this`pos
      ensures Valid()
      ensures r == match ParseElements(src, old(pos) + 1) {
        case Ok(end) => Ok(Node(Array, old(pos), end))
        case Err(e) => Err(e)
      }
      ensures r.Ok? ==> pos == r.value.end
      decreases |src| - pos, 0
    {
      hide LooseSkip, ParseValue;
      var start := pos;
      pos := pos + 1;
      ghost var goal := ParseElements(src, pos);
      while true
        invariant start < pos <= |src|
        invariant goal == ParseElements(src, pos)
        decreases |src| - pos
      {
        SkipFromSkip(src, pos);
        LooseSkipTwice(src, pos);
        SkipTrivia();
        if pos >= |src| {
          return Err(ParseError(UnterminatedArray, pos));
        }
        if src[pos] == ']' {
          pos := pos + 1;
          return Ok(Node(Array, start, pos));
        } else if src[pos] == ',' {
          pos := pos + 1;
        } else {
          var value := Value();
          if value.Err? {
            return Err(value.error);
          }
          SkipComma();
        }
      }
    }
  }
}
