/** On text the guard accepts, the lax parser builds the strict tree. */
module JsonAgreement {
  import opened Text
  import opened JsonLexer
  import opened JsonStrict
  import opened JsonParser
  import opened JsonLocality

  lemma {:induction false} SkipsAlike(t: string, p: nat)
    requires p <= |t| && Skip(t, p) < |t| && !AsciiWhitespace(t[Skip(t, p)])
    ensures LooseSkip(t, p) == Skip(t, p)
    decreases |t| - p
  {
    hide CommentEnd;
    if JsonWs(t[p]) {
      SkipsAlike(t, p + 1);
    } else if OpensComment(t, p) {
      SkipsAlike(t, CommentEnd(t, p).value);
    }
  }

  lemma ValueStart(t: string, i: nat)
    requires Value(t, i).Some?
    ensures i < |t| && !AsciiWhitespace(t[i]) && LooseSkip(t, i) == i
    ensures t[i] != ',' && t[i] != '}' && t[i] != ']'
  {
    ValueStartsSolid(t, i);
    assert t[i..i] == "" && !IsLiteral("");
  }

  lemma {:induction false} StrictValueParses(t: string, i: nat)
    requires Value(t, i).Some?
    ensures ParseValue(t, i) == Ok(Value(t, i).value)
    decreases |t| - i, 0
  {
    hide LooseSkip, IsLiteral, StringEnd, Decode;
    ValueStart(t, i);
    if t[i] == '{' {
      StrictMembersParse(t, i + 1, true);
    } else if t[i] == '[' {
      StrictElementsParse(t, i + 1, true);
    }
  }

  lemma {:induction false} StrictMemberParses(t: string, q: nat)
    requires q < |t| && MemberAt(t, q).Some?
    ensures t[q] == '"' && ParseMember(t, q) == Ok(MemberAt(t, q).value)
    decreases |t| - q, 1
  {
    hide LooseSkip, Skip, StringEnd, Decode, Value, ParseValue;
    var e := StringEnd(t, q + 1).value;
    var colon := Skip(t, e);
    SkipsAlike(t, e);
    ValueStart(t, Skip(t, colon + 1));
    SkipsAlike(t, colon + 1);
    StrictValueParses(t, Skip(t, colon + 1));
    ParseFromStart(t, colon + 1);
  }

  lemma ParseFromStart(t: string, p: nat)
    requires p <= |t|
    ensures ParseValue(t, p) == ParseValue(t, LooseSkip(t, p))
  {
    hide LooseSkip, ParseMembers, ParseElements, StringEnd, BareEnd;
    LooseSkipTwice(t, p);
  }

  /** Where the strict grammar puts a separator, the lax loops arrive too. */
  lemma SeparatorReached(t: string, p: nat, first: bool, close: char)
    requires p <= |t| && Separator(t, p, first, close).Some?
    requires (close == '}' || close == ']')
    requires var q := Separator(t, p, first, close).value; !AsciiWhitespace(t[q]) && t[q] != ','
    ensures var q := Separator(t, p, first, close).value;
      && (close == '}' ==> ParseMembers(t, p) == ParseMembers(t, q))
      && (close == ']' ==> ParseElements(t, p) == ParseElements(t, q))
  {
    hide LooseSkip, Skip, ParseMember, ParseValue;
    var q, end := Skip(t, p), Separator(t, p, first, close).value;
    SkipsAlike(t, p);
    LooseSkipTwice(t, p);
    if q < end {
      SkipsAlike(t, q + 1);
      LooseSkipTwice(t, q + 1);
    }
  }

  lemma {:induction false} StrictMembersParse(t: string, p: nat, first: bool)
    requires p <= |t| && Members(t, p, first).Some?
    ensures ParseMembers(t, p) == Ok(Members(t, p, first).value)
    decreases |t| - p, 2
  {
    hide LooseSkip, Skip, Separator, ParseMember, MemberAt;
    var q := Separator(t, p, first, '}').value;
    if t[q] == '}' {
      SeparatorReached(t, p, first, '}');
    } else {
      StrictMemberParses(t, q);
      SeparatorReached(t, p, first, '}');
      StrictMembersParse(t, MemberAt(t, q).value.value.end, false);
    }
    AtToken(t, q);
  }

  lemma AtToken(t: string, q: nat)
    requires q < |t| && !AsciiWhitespace(t[q]) && t[q] != '/'
    ensures LooseSkip(t, q) == q
  {
  }

  lemma {:induction false} StrictElementsParse(t: string, p: nat, first: bool)
    requires p <= |t| && Elements(t, p, first).Some?
    ensures ParseElements(t, p) == Ok(Elements(t, p, first).value)
    decreases |t| - p, 1
  {
    hide LooseSkip, Skip, Separator, ParseValue, Value;
    var q := Separator(t, p, first, ']').value;
    if t[q] == ']' {
      SeparatorReached(t, p, first, ']');
    } else {
      ValueStart(t, q);
      ValueStartsSolid(t, q);
      SeparatorReached(t, p, first, ']');
      StrictValueParses(t, q);
      StrictElementsParse(t, Value(t, q).value.end, false);
    }
    AtToken(t, q);
  }

  // ---- the end of the document --------------------------------------------------------

  /** The trivia from `i` ends in a block comment left open over a visible last character. */
  predicate LeftOpen(t: string, i: nat)
    requires i <= |t|
    decreases |t| - i
  {
    if i == |t| then false
    else if JsonWs(t[i]) then LeftOpen(t, i + 1)
    else if OpensComment(t, i) then
      match CommentEnd(t, i)
      case Some(e) => LeftOpen(t, e)
      case None => i + 2 < |t| && !AsciiWhitespace(t[|t| - 1])
    else false
  }

  lemma {:induction false} TailSkips(t: string, i: nat)
    requires i <= |t| && Skip(t, i) == |t|
    ensures LooseSkip(t, i) == |t| <==> !LeftOpen(t, i)
    decreases |t| - i
  {
    hide LineEnd, BlockEnd;
    if i < |t| {
      if JsonWs(t[i]) {
        TailSkips(t, i + 1);
      } else if CommentEnd(t, i).Some? {
        TailSkips(t, CommentEnd(t, i).value);
      }
    }
  }

  /**
   * The parser never fails on accepted text, except over a final open comment,
   * which the stripped copy hides from the guard.
   */
  lemma AcceptedTextParses(t: string)
    requires Document(t).Some?
    ensures ParseDocument(t).Ok? <==> !LeftOpen(t, Document(t).value.end)
    ensures ParseDocument(t).Ok? ==> ParseDocument(t).value == Document(t).value
  {
    hide Value, ParseValue, Skip, LooseSkip, LeftOpen;
    var root := Document(t).value;
    ValueStart(t, Skip(t, 0));
    SkipsAlike(t, 0);
    StrictValueParses(t, Skip(t, 0));
    TailSkips(t, root.end);
  }
}
