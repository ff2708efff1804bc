/** The guard against the grammar: a text is accepted exactly if it can be written of the grammar's parts. */
module JsonDerived {
  import opened Text
  import opened JsonLexer
  import opened JsonStrict
  import opened JsonLocality
  import opened JsonReader
  import opened JsonMember
  import opened JsonDocument
  import opened JsonWritten

  /** A comment that is not closed before the text ends. */
  datatype Open = Closed | OpenLine(note: string) | OpenBlock(note: string)

  predicate ProperOpen(o: Open) {
    match o
    case Closed => true
    case OpenLine(note) => '\n' !in note
    case OpenBlock(note) => forall k | 0 <= k < |note| :: !ClosesAt(note, k)
  }

  function OpenText(o: Open): string {
    match o
    case Closed => ""
    case OpenLine(note) => "//" + note
    case OpenBlock(note) => "/*" + note
  }

  // ---- trivia -------------------------------------------------------------------------------------

  /** The comment at `p` and the line break behind it, as one bit. */
  lemma {:induction false} CommentBit(t: string, p: nat) returns (b: Bit, e: nat)
    requires OpensComment(t, p) && CommentEnd(t, p).Some? && CommentEnd(t, p).value < |t|
    ensures p < e <= |t| && ProperBit(b) && t[p..e] == BitText(b) && Skip(t, p) == Skip(t, e)
  {
    hide Skip;
    var end := CommentEnd(t, p).value;
    CommentSkipped(t, p);
    if t[p + 1] == '/' {
      e := end + 1;
      b := LineNote(t[p + 2..end]);
      BreakSkipped(t, end);
      assert t[p..e] == "//" + (t[p + 2..end] + "\n");
    } else {
      e := end;
      b := BlockNote(t[p + 2..e - 2]);
      assert t[p..e] == "/*" + (t[p + 2..e - 2] + "*/");
      var body := t[p + 2..e - 2] + "*/";
      forall k | 0 <= k < |body| - 2 ensures !ClosesAt(body, k) {
        assert !ClosesAt(t, p + 2 + k);
        assert body == t[p + 2..e];
      }
    }
  }

  lemma {:induction false} TriviaOf(t: string, p: nat) returns (bits: Trivia)
    requires p <= |t| && Skip(t, p) < |t|
    ensures ProperTrivia(bits) && t[p..Skip(t, p)] == TriviaText(bits)
    decreases |t| - p
  {
    hide BitText, ProperBit, CommentEnd;
    var q := Skip(t, p);
    if p == q {
      bits := [];
      assert t[p..q] == "";
    } else {
      var b, e;
      if JsonWs(t[p]) {
        b, e := White(t[p]), p + 1;
        WhiteBit(t, p);
      } else {
        SkipsComment(t, p);
        b, e := CommentBit(t, p);
      }
      var more := TriviaOf(t, e);
      bits := [b] + more;
      assert bits[1..] == more;
      assert t[p..q] == t[p..e] + t[e..q];
    }
  }

  lemma WhiteBit(t: string, p: nat)
    requires p < |t| && JsonWs(t[p])
    ensures ProperBit(White(t[p])) && t[p..p + 1] == BitText(White(t[p])) && Skip(t, p) == Skip(t, p + 1)
  {
  }

  lemma SkipsComment(t: string, p: nat)
    requires p < |t| && p < Skip(t, p) < |t| && !JsonWs(t[p])
    ensures OpensComment(t, p) && CommentEnd(t, p).Some? && CommentEnd(t, p).value < |t|
  {
  }

  /** Trivia up to the end of the text, with perhaps a comment left open. */
  lemma {:induction false} TailOf(t: string, p: nat) returns (bits: Trivia, open: Open)
    requires p <= |t| && Skip(t, p) == |t|
    ensures ProperTrivia(bits) && ProperOpen(open) && t[p..] == TriviaText(bits) + OpenText(open)
    decreases |t| - p
  {
    hide BitText, ProperBit, CommentEnd, ProperOpen, OpenText;
    if p == |t| {
      bits, open := [], Closed;
      NothingOpen();
    } else if JsonWs(t[p]) {
      WhiteBit(t, p);
      var more;
      more, open := TailOf(t, p + 1);
      bits := [White(t[p])] + more;
      assert bits[1..] == more;
      assert t[p..] == t[p..p + 1] + t[p + 1..];
    } else {
      assert OpensComment(t, p);
      if CommentEnd(t, p).Some? && CommentEnd(t, p).value < |t| {
        var b, e := CommentBit(t, p);
        var more;
        more, open := TailOf(t, e);
        bits := [b] + more;
        assert bits[1..] == more;
        assert t[p..] == t[p..e] + t[e..];
      } else {
        bits, open := LastComment(t, p);
      }
    }
  }

  lemma NothingOpen()
    ensures ProperOpen(Closed) && OpenText(Closed) == ""
  {
  }

  lemma LastComment(t: string, p: nat) returns (bits: Trivia, open: Open)
    requires OpensComment(t, p) && (CommentEnd(t, p).Some? ==> CommentEnd(t, p).value == |t|)
    ensures ProperTrivia(bits) && ProperOpen(open) && t[p..] == TriviaText(bits) + OpenText(open)
  {
    var note := t[p + 2..];
    if t[p + 1] == '/' {
      bits, open := [], OpenLine(note);
      assert t[p..] == "//" + note;
    } else if CommentEnd(t, p) == None {
      bits, open := [], OpenBlock(note);
      assert t[p..] == "/*" + note;
      NoteNeverCloses(t, p + 2);
    } else {
      var b := LastBlock(t, p);
      bits, open := [b], Closed;
      assert bits[1..] == [] && TriviaText(bits) == BitText(b) + "";
    }
  }

  lemma NoteNeverCloses(t: string, i: nat)
    requires i <= |t| && BlockEnd(t, i) == None
    ensures forall k | 0 <= k < |t[i..]| :: !ClosesAt(t[i..], k)
  {
    forall k | 0 <= k < |t[i..]| ensures !ClosesAt(t[i..], k) {
      assert !ClosesAt(t, i + k);
    }
  }

  lemma LastBlock(t: string, p: nat) returns (b: Bit)
    requires OpensComment(t, p) && t[p + 1] == '*' && CommentEnd(t, p) == Some(|t|)
    ensures ProperBit(b) && t[p..] == BitText(b)
  {
    var n := |t| - 2;
    b := BlockNote(t[p + 2..n]);
    var body := t[p + 2..n] + "*/";
    assert body == t[p + 2..] && t[p..] == "/*" + body;
    forall k | 0 <= k < |body| - 2 ensures !ClosesAt(body, k) {
      assert !ClosesAt(t, p + 2 + k);
    }
  }

  // ---- strings ------------------------------------------------------------------------------------

  lemma HexOf(s: string)
    requires Hex4(s).Some?
    ensures HexDigits(s[..4]) && NumberOf(s[..4]) == Hex4(s).value
  {
    HexRead(s[..4], s[4..]);
    assert s == s[..4] + s[4..];
  }

  lemma CharOf(s: string) returns (x: LitChar, n: nat)
    requires s != "" && Decode(s).Some?
    ensures 0 < n <= |s| && ProperChar(x) && s[..n] == CharText(x) && Decode(s[n..]).Some?
  {
    hide Hex4, NumberOf;
    if s[0] != '\\' {
      x, n := Raw(s[0]), 1;
    } else if s[1] != 'u' {
      x, n := Short(s[1]), 2;
    } else {
      HexOf(s[2..]);
      var a := s[2..][..4];
      assert s[2..6] == a;
      if 0xD800 <= Hex4(s[2..]).value < 0xDC00 {
        HexOf(s[8..]);
        var b := s[8..][..4];
        assert s[8..12] == b;
        x, n := Surrogates(a, b), 12;
        assert s[..12] == "\\u" + a + "\\u" + b;
      } else {
        x, n := Hex(a), 6;
        assert s[..6] == "\\u" + a;
      }
    }
  }

  lemma {:induction false} CharsOf(s: string) returns (xs: seq<LitChar>)
    requires Decode(s).Some?
    ensures ProperChars(xs) && CharsText(xs) == s
    decreases |s|
  {
    hide Decode, CharText, ProperChar;
    if s == "" {
      xs := [];
    } else {
      var x, n := CharOf(s);
      var more := CharsOf(s[n..]);
      xs := [x] + more;
      assert xs[1..] == more && s == s[..n] + s[n..];
    }
  }

  lemma LiteralOf(t: string, q: nat) returns (xs: seq<LitChar>)
    requires q < |t| && t[q] == '"' && StringEnd(t, q + 1).Some?
    requires Decode(t[q + 1..StringEnd(t, q + 1).value - 1]).Some?
    ensures ProperChars(xs) && t[q..StringEnd(t, q + 1).value] == Literal(xs)
  {
    hide Decode, StringEnd, CharsText;
    var e := StringEnd(t, q + 1).value;
    xs := CharsOf(t[q + 1..e - 1]);
    assert t[q..e] == "\"" + (t[q + 1..e - 1] + "\"");
  }

  // ---- numbers ------------------------------------------------------------------------------------

  lemma NumeralOf(s: string) returns (n: Numeral)
    requires IsNumber(s)
    ensures ProperNumeral(n) && NumeralText(n) == s
  {
    hide DigitsEnd, FractionEnd, ExponentEnd, IntegerEnd, NumeralText, Digits;
    var a := if s != "" && s[0] == '-' then 1 else 0;
    var b := IntegerEnd(s, a).value;
    var c := FractionEnd(s, b).value;
    WholeIs(s, a);
    var fraction := FractionOf(s, b);
    var exponent := ExponentOf(s, c);
    n := Numeral(a == 1, s[a..b], fraction, exponent);
    NumeralParts(n, s, a, b, c);
  }

  lemma NumeralParts(n: Numeral, s: string, a: nat, b: nat, c: nat)
    requires a <= b <= c <= |s| && s[a..b] == n.whole && s[b..c] == FractionText(n) && s[c..] == ExponentText(n)
    requires s[..a] == if n.minus then "-" else ""
    ensures NumeralText(n) == s
  {
    assert s == s[..a] + s[a..b] + s[b..c] + s[c..];
  }

  lemma WholeIs(s: string, a: nat)
    requires a <= |s| && IntegerEnd(s, a).Some?
    ensures var b := IntegerEnd(s, a).value; a < b <= |s| && Digits(s[a..b]) && (s[a] == '0' ==> b == a + 1)
  {
  }

  lemma FractionOf(s: string, b: nat) returns (fraction: Option<string>)
    requires b <= |s| && FractionEnd(s, b).Some?
    ensures fraction.Some? ==> Digits(fraction.value)
    ensures s[b..FractionEnd(s, b).value] == if fraction.Some? then "." + fraction.value else ""
  {
    var c := FractionEnd(s, b).value;
    fraction := if b == c then None else Some(s[b + 1..c]);
  }

  lemma ExponentOf(s: string, c: nat) returns (exponent: Option<(string, string)>)
    requires c <= |s| && ExponentEnd(s, c) == Some(|s|)
    ensures exponent.Some? ==> exponent.value.0 in ["e", "E", "e+", "E+", "e-", "E-"] && Digits(exponent.value.1)
    ensures s[c..] == if exponent.Some? then exponent.value.0 + exponent.value.1 else ""
  {
    if c == |s| {
      exponent := None;
    } else {
      var d := if c + 1 < |s| && (s[c + 1] == '+' || s[c + 1] == '-') then c + 2 else c + 1;
      exponent := Some((s[c..d], s[d..]));
      assert s[c..] == s[c..d] + s[d..];
      assert s[c..d] == if d == c + 1 then [s[c]] else [s[c], s[c + 1]];
    }
  }

  // ---- values ---------------------------------------------------------------------------------------

  /** A value is a document's text. */
  lemma {:induction false} DocOf(t: string, i: nat) returns (d: Doc)
    requires Value(t, i).Some?
    ensures Proper(d) && t[i..Value(t, i).value.end] == DocText(d)
    decreases |t| - i, 0
  {
    hide StringEnd, Decode, IsNumber, Members, Elements, BareEnd, NumeralText, ProperNumeral, ProperChars, Literal;
    if t[i] == '{' {
      d := GroupOf(t, i);
    } else if t[i] == '[' {
      d := SeriesOf(t, i);
    } else if t[i] == '"' {
      var xs := LiteralOf(t, i);
      d := Text(xs);
    } else {
      var s := t[i..BareEnd(t, i)];
      if s in ["null", "true", "false"] {
        d := Word(s);
      } else {
        var n := NumeralOf(s);
        d := Number(n);
      }
    }
  }

  /** What separates: trivia, a comma if one is there, trivia. */
  lemma BetweenOf(t: string, p: nat, first: bool, close: char) returns (behind: Trivia, comma: Option<Trivia>)
    requires p <= |t| && Separator(t, p, first, close).Some?
    ensures ProperTrivia(behind) && ProperComma(comma)
    ensures t[p..Separator(t, p, first, close).value] == TriviaText(behind) + CommaText(comma)
    ensures var e := Separator(t, p, first, close).value;
      t[e] != close && close != ',' ==> (first <==> comma.None?)
  {
    hide Skip, TriviaText, ProperTrivia;
    var q, e := Skip(t, p), Separator(t, p, first, close).value;
    behind := TriviaOf(t, p);
    if t[q] == ',' && close != ',' {
      var more := TriviaOf(t, q + 1);
      comma := Some(more);
      assert t[p..e] == t[p..q] + ("," + t[q + 1..e]);
    } else {
      comma := None;
      assert t[p..e] == t[p..q] + "";
    }
  }

  lemma ElementsStep(t: string, p: nat, first: bool)
    requires p <= |t| && Elements(t, p, first).Some?
    ensures Separator(t, p, first, ']').Some?
    ensures var q := Separator(t, p, first, ']').value;
      if t[q] == ']' then Elements(t, p, first) == Some(q + 1)
      else Value(t, q).Some? && Elements(t, Value(t, q).value.end, false) == Elements(t, p, first)
  {
    hide Separator, Value;
  }

  lemma SeriesOf(t: string, i: nat) returns (d: Doc)
    requires i < |t| && t[i] == '[' && Elements(t, i + 1, true).Some?
    ensures Proper(d) && t[i..Elements(t, i + 1, true).value] == DocText(d)
    decreases |t| - i, 0, 0
  {
    hide Separator, Value, TriviaText, CommaText, ProperTrivia, ProperComma, Elements, DocText, ItemsText, Proper;
    ElementsStep(t, i + 1, true);
    var q, end := Separator(t, i + 1, true, ']').value, Elements(t, i + 1, true).value;
    var front, comma := BetweenOf(t, i + 1, true, ']');
    if t[q] == ']' {
      d := Hollow(true, front, comma);
      HollowSpelled(true, front, comma);
      assert t[i..end] == "[" + (t[i + 1..q] + "]");
    } else {
      var v := DocOf(t, q);
      var e := Value(t, q).value.end;
      var behind, items, last := ItemsOf(t, e);
      d := Series([Element(front, v, behind)] + items, last);
      NoComma(TriviaText(front));
      SeriesProper(front, v, behind, items, last);
      SeriesSpelled(front, v, behind, items, last);
      assert t[i..end] == "[" + (t[i + 1..q] + (t[q..e] + t[e..end]));
    }
  }

  lemma HollowSpelled(brackets: bool, front: Trivia, comma: Option<Trivia>)
    requires ProperTrivia(front) && ProperComma(comma)
    ensures Proper(Hollow(brackets, front, comma))
    ensures DocText(Hollow(brackets, front, comma))
         == (if brackets then "[" else "{") + ((TriviaText(front) + CommaText(comma)) + if brackets then "]" else "}")
  {
    hide TriviaText, CommaText;
    JoinParts(TriviaText(front), CommaText(comma), if brackets then "]" else "}");
  }

  lemma SeriesSpelled(front: Trivia, v: Doc, behind: Trivia, items: seq<Element>, last: Option<Trivia>)
    ensures DocText(Series([Element(front, v, behind)] + items, last))
         == "[" + (TriviaText(front) + (DocText(v) + ItemsText(behind, items, last)))
  {
    hide TriviaText, CommaText, ItemsText;
    var all := [Element(front, v, behind)] + items;
    assert all[1..] == items;
  }

  lemma NoComma(s: string)
    ensures s + CommaText(None) == s
  {
  }

  lemma JoinParts(a: string, b: string, c: string)
    ensures (a + b) + c == a + (b + c)
  {
  }

  lemma SeriesProper(front: Trivia, v: Doc, behind: Trivia, items: seq<Element>, last: Option<Trivia>)
    requires ProperTrivia(front) && Proper(v) && ProperTrivia(behind) && ProperComma(last)
    requires forall i | 0 <= i < |items| :: ProperElement(items[i])
    ensures Proper(Series([Element(front, v, behind)] + items, last))
    ensures ProperElement(Element(front, v, behind))
  {
    hide ProperTrivia, ProperComma;
    var all := [Element(front, v, behind)] + items;
    assert forall i | 0 < i < |all| :: all[i] == items[i - 1];
  }

  lemma {:induction false} ItemsOf(t: string, p: nat) returns (behind: Trivia, items: seq<Element>, last: Option<Trivia>)
    requires p <= |t| && Elements(t, p, false).Some?
    ensures ProperTrivia(behind) && ProperComma(last) && forall i | 0 <= i < |items| :: ProperElement(items[i])
    ensures t[p..Elements(t, p, false).value] == ItemsText(behind, items, last)
    decreases |t| - p, 1
  {
    hide Separator, Value, TriviaText, CommaText, ProperTrivia, ProperComma, Elements, ProperElement, DocText, Proper;
    ElementsStep(t, p, false);
    var q, end := Separator(t, p, false, ']').value, Elements(t, p, false).value;
    var between, comma := BetweenOf(t, p, false, ']');
    behind := between;
    if t[q] == ']' {
      items, last := [], comma;
      assert t[p..end] == t[p..q] + "]";
      JoinParts(TriviaText(behind), CommaText(comma), "]");
    } else {
      var v := DocOf(t, q);
      var e := Value(t, q).value.end;
      var more, rest, final := ItemsOf(t, e);
      var front := comma.value;
      CommaIs(comma);
      items, last := [Element(front, v, more)] + rest, final;
      assert items[1..] == rest;
      SeriesProper(front, v, more, rest, final);
      assert forall i | 0 < i < |items| :: items[i] == rest[i - 1];
      assert t[p..end] == t[p..q] + (t[q..e] + t[e..end]);
      CommaParts(TriviaText(behind), TriviaText(front), t[q..e] + t[e..end]);
    }
  }

  lemma CommaIs(comma: Option<Trivia>)
    requires comma.Some? && ProperComma(comma)
    ensures CommaText(comma) == "," + TriviaText(comma.value) && ProperTrivia(comma.value)
  {
  }

  lemma CommaParts(a: string, b: string, rest: string)
    ensures (a + ("," + b)) + rest == a + ("," + (b + rest))
  {
  }

  // ---- members --------------------------------------------------------------------------------------

  lemma FieldOf(t: string, q: nat, front: Trivia, behind: Trivia) returns (f: Field)
    requires q < |t| && MemberAt(t, q).Some? && ProperTrivia(front) && ProperTrivia(behind)
    ensures f.front == front && f.behind == behind && ProperField(f) && ProperChars(f.key) && Proper(f.value)
    ensures t[q..MemberAt(t, q).value.value.end] == FieldText(f)
    decreases |t| - q, 1
  {
    hide StringEnd, Decode, Skip, TriviaText, Value, DocText, Proper, Literal, ProperChars, ProperTrivia, ProperField, FieldText;
    var e := StringEnd(t, q + 1).value;
    var colon := Skip(t, e);
    var at := Skip(t, colon + 1);
    var end := Value(t, at).value.end;
    var key := LiteralOf(t, q);
    var middle := TriviaOf(t, e);
    var before := TriviaOf(t, colon + 1);
    var v := DocOf(t, at);
    f := Field(front, key, middle, before, v, behind);
    Cut(t, q, e, end);
    Cut(t, e, colon, end);
    Cut(t, colon, colon + 1, end);
    Cut(t, colon + 1, at, end);
    assert t[colon..colon + 1] == ":";
    FieldMade(f);
  }

  lemma Cut(t: string, i: nat, j: nat, k: nat)
    requires i <= j <= k <= |t|
    ensures t[i..k] == t[i..j] + t[j..k]
  {
  }

  lemma FieldMade(f: Field)
    requires ProperTrivia(f.front) && ProperTrivia(f.middle) && ProperTrivia(f.before) && ProperTrivia(f.behind)
    requires ProperChars(f.key) && Proper(f.value)
    ensures ProperField(f)
    ensures FieldText(f) == Literal(f.key) + (TriviaText(f.middle) + (":" + (TriviaText(f.before) + DocText(f.value))))
  {
    hide ProperTrivia, ProperChars, TriviaText, Literal, DocText;
  }

  lemma GroupOf(t: string, i: nat) returns (d: Doc)
    requires i < |t| && t[i] == '{' && Members(t, i + 1, true).Some?
    ensures Proper(d) && t[i..Members(t, i + 1, true).value.1] == DocText(d)
    decreases |t| - i, 0, 0
  {
    hide Separator, Value, TriviaText, CommaText, ProperTrivia, ProperComma, Members, MemberAt, FieldText, ProperField, DocText,
      FieldsText, Proper;
    MembersStepwise(t, i + 1, true);
    var q, end := Separator(t, i + 1, true, '}').value, Members(t, i + 1, true).value.1;
    var front, comma := BetweenOf(t, i + 1, true, '}');
    if t[q] == '}' {
      d := Hollow(false, front, comma);
      HollowSpelled(false, front, comma);
      assert t[i..end] == "{" + (t[i + 1..q] + "}");
    } else {
      var e := MemberAt(t, q).value.value.end;
      var behind, fields, last := FieldsOf(t, e);
      var f := FieldOf(t, q, front, behind);
      d := Group([f] + fields, last);
      NoComma(TriviaText(front));
      GroupProper(f, fields, last);
      GroupSpelled(f, fields, last);
      assert t[i..end] == "{" + (t[i + 1..q] + (t[q..e] + t[e..end]));
    }
  }

  lemma GroupSpelled(f: Field, fields: seq<Field>, last: Option<Trivia>)
    ensures DocText(Group([f] + fields, last))
         == "{" + (TriviaText(f.front) + (FieldText(f) + FieldsText(f.behind, fields, last)))
  {
    hide TriviaText, FieldText, FieldsText;
    var all := [f] + fields;
    assert all[1..] == fields;
  }

  lemma GroupProper(f: Field, fields: seq<Field>, last: Option<Trivia>)
    requires ProperField(f) && ProperChars(f.key) && Proper(f.value) && AllProper(fields) && ProperComma(last)
    ensures Proper(Group([f] + fields, last)) && AllProper([f] + fields)
  {
    hide ProperComma, ProperField, ProperChars;
    var all := [f] + fields;
    assert forall i | 0 < i < |all| :: all[i] == fields[i - 1];
  }

  lemma {:induction false} FieldsOf(t: string, p: nat) returns (behind: Trivia, fields: seq<Field>, last: Option<Trivia>)
    requires p <= |t| && Members(t, p, false).Some?
    ensures ProperTrivia(behind) && ProperComma(last) && AllProper(fields)
    ensures t[p..Members(t, p, false).value.1] == FieldsText(behind, fields, last)
    decreases |t| - p, 2
  {
    hide Separator, Value, TriviaText, CommaText, ProperTrivia, ProperComma, Members, MemberAt, FieldText, ProperField, Proper,
      ProperChars;
    MembersStepwise(t, p, false);
    var q, end := Separator(t, p, false, '}').value, Members(t, p, false).value.1;
    var between, comma := BetweenOf(t, p, false, '}');
    behind := between;
    if t[q] == '}' {
      fields, last := [], comma;
      assert t[p..end] == t[p..q] + "}";
      JoinParts(TriviaText(behind), CommaText(comma), "}");
    } else {
      var e := MemberAt(t, q).value.value.end;
      var more, rest, final := FieldsOf(t, e);
      var front := comma.value;
      CommaIs(comma);
      var f := FieldOf(t, q, front, more);
      fields, last := [f] + rest, final;
      assert fields[1..] == rest;
      GroupProper(f, rest, final);
      assert t[p..end] == t[p..q] + (t[q..e] + t[e..end]);
      CommaParts(TriviaText(behind), TriviaText(front), t[q..e] + t[e..end]);
    }
  }

  // ---- whole documents ------------------------------------------------------------------------------

  /** The text is trivia, one value, trivia, and perhaps a comment left open. */
  ghost predicate IsWritten(t: string) {
    exists front, d, behind, open ::
      && ProperTrivia(front) && Proper(d) && ProperTrivia(behind) && ProperOpen(open)
      && t == TriviaText(front) + (DocText(d) + (TriviaText(behind) + OpenText(open)))
  }

  lemma OpenSkipped(t: string, p: nat, open: Open)
    requires ProperOpen(open) && Stands(t, p, OpenText(open)) && p + |OpenText(open)| == |t|
    ensures Skip(t, p) == |t| && Delimited(t, p)
  {
    match open
    case Closed => AtEnd(t);
    case OpenLine(note) =>
      StandsPart(t, p, "//", note);
      StandsAt(t, p, "//", 0);
      StandsAt(t, p, "//", 1);
      forall k | p + 2 <= k < |t| ensures t[k] != '\n' {
        StandsAt(t, p + 2, note, k - (p + 2));
        assert note[k - (p + 2)] in note;
      }
      assert LineEnd(t, p + 2) == |t|;
      AtEnd(t);
    case OpenBlock(note) =>
      StandsPart(t, p, "/*", note);
      StandsAt(t, p, "/*", 0);
      StandsAt(t, p, "/*", 1);
      forall k | p + 2 <= k < |t| ensures !ClosesAt(t, k) {
        StandsAt(t, p + 2, note, k - (p + 2));
        assert !ClosesAt(note, k - (p + 2));
        if k + 1 < |t| {
          StandsAt(t, p + 2, note, k + 1 - (p + 2));
        }
      }
      NeverCloses(t, p + 2);
  }

  lemma {:induction false} NeverCloses(t: string, i: nat)
    requires i <= |t| && forall k | i <= k < |t| :: !ClosesAt(t, k)
    ensures BlockEnd(t, i) == None
    decreases |t| - i
  {
    if i < |t| {
      NeverCloses(t, i + 1);
    }
  }

  lemma WrittenIsDocument(t: string)
    requires IsWritten(t)
    ensures Document(t).Some?
  {
    hide TriviaText, DocText, Proper, ProperTrivia, OpenText, ProperOpen, Document;
    var front, d, behind, open :| ProperTrivia(front) && Proper(d) && ProperTrivia(behind) && ProperOpen(open)
      && t == TriviaText(front) + (DocText(d) + (TriviaText(behind) + OpenText(open)));
    OpenStands(t, TriviaText(front), DocText(d), TriviaText(behind), OpenText(open));
    OpenDocument(t, front, d, behind, open);
  }

  lemma OpenStands(t: string, a: string, b: string, c: string, d: string)
    requires t == a + (b + (c + d))
    ensures Stands(t, 0, a) && Stands(t, |a|, b) && Stands(t, |a| + |b|, c) && Stands(t, |a| + |b| + |c|, d)
  {
    hide Stands;
    var z := c + d;
    var y := b + z;
    WholeStands(t);
    StandsPart(t, 0, a, y);
    StandsPart(t, |a|, b, z);
    StandsPart(t, |a| + |b|, c, d);
  }

  lemma OpenDocument(t: string, front: Trivia, d: Doc, behind: Trivia, open: Open)
    requires ProperTrivia(front) && Proper(d) && ProperTrivia(behind) && ProperOpen(open)
    requires Stands(t, 0, TriviaText(front)) && Stands(t, |TriviaText(front)|, DocText(d))
    requires var end := |TriviaText(front)| + |DocText(d)|;
      var last := end + |TriviaText(behind)|;
      Stands(t, end, TriviaText(behind)) && Stands(t, last, OpenText(open)) && last + |OpenText(open)| == |t|
    ensures Document(t).Some?
  {
    hide Stands, Skip, TriviaText, DocText, Proper, ProperTrivia, OpenText, ProperOpen, Delimited, Document;
    var end := |TriviaText(front)| + |DocText(d)|;
    OpenSkipped(t, end + |TriviaText(behind)|, open);
    TriviaSkipped(t, end, behind);
    TailDelimits(t, end, behind, open);
    WrittenDocument(t, front, d);
  }

  lemma TailDelimits(t: string, p: nat, behind: Trivia, open: Open)
    requires ProperTrivia(behind) && Stands(t, p, TriviaText(behind)) && Delimited(t, p + |TriviaText(behind)|)
    ensures Delimited(t, p)
  {
    if behind != [] {
      assert ProperBit(behind[0]);
      StandsAt(t, p, TriviaText(behind), 0);
      assert TriviaText(behind)[0] == BitText(behind[0])[0];
    }
  }

  lemma DocumentIsWritten(t: string)
    requires Document(t).Some?
    ensures IsWritten(t)
  {
    hide Value, Skip, TriviaText, DocText, Proper, ProperTrivia, OpenText, ProperOpen;
    var at := Skip(t, 0);
    var end := Value(t, at).value.end;
    var front := TriviaOf(t, 0);
    var d := DocOf(t, at);
    var behind, open := TailOf(t, end);
    assert t == t[0..at] + (t[at..end] + t[end..]);
  }

  /**
   * The guard, for every text without a byte order mark: stripping comments and commas and reading
   * what is left accepts exactly the texts that can be written of the grammar's parts.
   */
  lemma AcceptedIffWritten(t: string)
    requires SplitBom(t) == ("", t)
    ensures Accepts(t) <==> IsWritten(t)
  {
    hide Accepts, Document, IsWritten;
    AcceptsIsStrict(t);
    if Document(t).Some? {
      DocumentIsWritten(t);
    }
    if IsWritten(t) {
      WrittenIsDocument(t);
    }
  }
}
