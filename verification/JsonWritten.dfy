/** JSON with comments as it is written: every document of these parts is accepted and read as it is meant. */
module JsonWritten {
  import opened Text
  import opened JsonLexer
  import opened JsonStrict
  import opened JsonParser
  import opened JsonLocality
  import opened JsonAgreement
  import opened JsonReader
  import opened JsonCompose
  import opened JsonMember
  import opened JsonValues
  import opened JsonDocument

  // ---- trivia ---------------------------------------------------------------------------------

  /** White space, a comment to the end of its line, or one between its marks. */
  datatype Bit = White(c: char) | LineNote(note: string) | BlockNote(note: string)

  type Trivia = seq<Bit>

  predicate ProperBit(b: Bit) {
    match b
    case White(c) => c in " \t\n\r"
    case LineNote(note) => '\n' !in note
    case BlockNote(note) => forall k | 0 <= k < |note + "*/"| - 2 :: !ClosesAt(note + "*/", k)
  }

  predicate ProperTrivia(bits: Trivia) {
    forall i | 0 <= i < |bits| :: ProperBit(bits[i])
  }

  function BitText(b: Bit): string {
    match b
    case White(c) => [c]
    case LineNote(note) => "//" + (note + "\n")
    case BlockNote(note) => "/*" + (note + "*/")
  }

  function TriviaText(bits: Trivia): string {
    if bits == [] then "" else BitText(bits[0]) + TriviaText(bits[1..])
  }

  lemma WhiteSkipped(u: string, p: nat, c: char)
    requires Stands(u, p, [c]) && c in " \t\n\r"
    ensures Skip(u, p) == Skip(u, p + 1)
  {
    StandsAt(u, p, [c], 0);
  }

  lemma LineNoteEnds(u: string, p: nat, note: string)
    requires Stands(u, p, "//" + (note + "\n")) && '\n' !in note
    ensures var e := p + 2 + |note|; e < |u| && OpensComment(u, p) && CommentEnd(u, p) == Some(e) && u[e] == '\n'
  {
    hide Stands, LineEnd, BlockEnd;
    var e := p + 2 + |note|;
    StandsPart(u, p, "//", note + "\n");
    StandsPart(u, p + 2, note, "\n");
    StandsAt(u, p, "//", 0);
    StandsAt(u, p, "//", 1);
    StandsAt(u, e, "\n", 0);
    forall k | p + 2 <= k < e ensures u[k] != '\n' {
      StandsAt(u, p + 2, note, k - (p + 2));
      assert note[k - (p + 2)] in note;
    }
    LineStops(u, p + 2, e);
  }

  lemma LineNoteSkipped(u: string, p: nat, note: string)
    requires Stands(u, p, "//" + (note + "\n")) && '\n' !in note
    ensures p + 3 + |note| <= |u| && Skip(u, p) == Skip(u, p + 3 + |note|)
  {
    hide Stands, CommentEnd;
    LineNoteEnds(u, p, note);
    CommentSkipped(u, p);
    BreakSkipped(u, p + 2 + |note|);
  }

  lemma BreakSkipped(u: string, e: nat)
    requires e < |u| && u[e] == '\n'
    ensures Skip(u, e) == Skip(u, e + 1)
  {
  }

  lemma {:induction false} LineStops(u: string, i: nat, e: nat)
    requires i <= e < |u| && u[e] == '\n' && forall k | i <= k < e :: u[k] != '\n'
    ensures LineEnd(u, i) == e
    decreases e - i
  {
    if i < e {
      LineStops(u, i + 1, e);
    }
  }

  lemma BlockNoteEnds(u: string, p: nat, note: string)
    requires Stands(u, p, "/*" + (note + "*/")) && ProperBit(BlockNote(note))
    ensures p + 4 + |note| <= |u| && OpensComment(u, p) && CommentEnd(u, p) == Some(p + 4 + |note|)
  {
    hide Stands, LineEnd, BlockEnd;
    var body := note + "*/";
    var e := p + 2 + |note|;
    StandsPart(u, p, "/*", body);
    StandsAt(u, p, "/*", 0);
    StandsAt(u, p, "/*", 1);
    StandsAt(u, p + 2, body, |note|);
    StandsAt(u, p + 2, body, |note| + 1);
    forall k | p + 2 <= k < e ensures !ClosesAt(u, k) {
      StandsAt(u, p + 2, body, k - (p + 2));
      StandsAt(u, p + 2, body, k + 1 - (p + 2));
      assert !ClosesAt(body, k - (p + 2));
    }
    BlockStops(u, p + 2, e);
  }

  lemma BlockNoteSkipped(u: string, p: nat, note: string)
    requires Stands(u, p, "/*" + (note + "*/")) && ProperBit(BlockNote(note))
    ensures p + 4 + |note| <= |u| && Skip(u, p) == Skip(u, p + 4 + |note|)
  {
    hide Stands, CommentEnd;
    BlockNoteEnds(u, p, note);
    CommentSkipped(u, p);
  }

  lemma {:induction false} BlockStops(u: string, i: nat, e: nat)
    requires i <= e && ClosesAt(u, e) && forall k | i <= k < e :: !ClosesAt(u, k)
    ensures BlockEnd(u, i) == Some(e + 2)
    decreases e - i
  {
    if i < e {
      BlockStops(u, i + 1, e);
    }
  }

  lemma BitSkipped(u: string, p: nat, b: Bit)
    requires ProperBit(b) && Stands(u, p, BitText(b))
    ensures p + |BitText(b)| <= |u| && Skip(u, p) == Skip(u, p + |BitText(b)|)
  {
    hide Skip;
    match b
    case White(c) =>
      StandsAt(u, p, [c], 0);
      WhiteSkipped(u, p, c);
    case LineNote(note) => LineNoteSkipped(u, p, note);
    case BlockNote(note) => BlockNoteSkipped(u, p, note);
  }

  lemma {:induction false} TriviaSkipped(u: string, p: nat, bits: Trivia)
    requires ProperTrivia(bits) && Stands(u, p, TriviaText(bits))
    ensures p + |TriviaText(bits)| <= |u| && Skip(u, p) == Skip(u, p + |TriviaText(bits)|)
    decreases |bits|
  {
    hide Stands, Skip, BitText, ProperBit;
    if bits == [] {
      StandsBounds(u, p, "");
    } else {
      var rest := TriviaText(bits[1..]);
      StandsPart(u, p, BitText(bits[0]), rest);
      BitSkipped(u, p, bits[0]);
      TriviaSkipped(u, p + |BitText(bits[0])|, bits[1..]);
    }
  }

  lemma StandsBounds(u: string, p: nat, s: string)
    requires Stands(u, p, s)
    ensures p + |s| <= |u|
  {
  }

  /** Up to the next token. */
  lemma TriviaEnds(u: string, p: nat, bits: Trivia)
    requires ProperTrivia(bits) && Stands(u, p, TriviaText(bits)) && Solid(u, p + |TriviaText(bits)|)
    ensures Skip(u, p) == p + |TriviaText(bits)|
  {
    hide Stands;
    TriviaSkipped(u, p, bits);
  }

  // ---- strings --------------------------------------------------------------------------------

  /** A character as it stands, by its short escape, by four hexadecimal digits, or by a pair of surrogates. */
  datatype LitChar = Raw(c: char) | Short(c: char) | Hex(digits: string) | Surrogates(high: string, low: string)

  predicate HexDigits(s: string) {
    |s| == 4 && forall k | 0 <= k < 4 :: '0' <= s[k] <= '9' || 'a' <= s[k] <= 'f' || 'A' <= s[k] <= 'F'
  }

  function DigitOf(c: char): nat {
    if '0' <= c <= '9' then c as nat - '0' as nat
    else if 'a' <= c <= 'f' then 10 + (c as nat - 'a' as nat)
    else if 'A' <= c <= 'F' then 10 + (c as nat - 'A' as nat)
    else 0
  }

  function NumberOf(s: string): (n: nat)
    requires HexDigits(s)
    ensures n < 0x1_0000
  {
    DigitOf(s[0]) * 4096 + DigitOf(s[1]) * 256 + DigitOf(s[2]) * 16 + DigitOf(s[3])
  }

  predicate ProperChar(x: LitChar) {
    match x
    case Raw(c) => ' ' <= c && c != '"' && c != '\\'
    case Short(c) => c in "\"\\/bfnrt"
    case Hex(digits) => HexDigits(digits) && !(0xD800 <= NumberOf(digits) < 0xE000)
    case Surrogates(high, low) =>
      HexDigits(high) && HexDigits(low) && 0xD800 <= NumberOf(high) < 0xDC00 && 0xDC00 <= NumberOf(low) < 0xE000
  }

  predicate ProperChars(xs: seq<LitChar>) {
    forall i | 0 <= i < |xs| :: ProperChar(xs[i])
  }

  function CharText(x: LitChar): string {
    match x
    case Raw(c) => [c]
    case Short(c) => ['\\', c]
    case Hex(digits) => "\\u" + digits
    case Surrogates(high, low) => "\\u" + high + "\\u" + low
  }

  /** RFC 8259, section 7. */
  function CharMeaning(x: LitChar): char
    requires ProperChar(x)
  {
    match x
    case Raw(c) => c
    case Short(c) =>
      if c == 'b' then '\U{8}' else if c == 'f' then '\U{C}' else if c == 'n' then '\n'
      else if c == 'r' then '\r' else if c == 't' then '\t' else c
    case Hex(digits) => NumberOf(digits) as char
    case Surrogates(high, low) => (0x1_0000 + (NumberOf(high) - 0xD800) * 0x400 + (NumberOf(low) - 0xDC00)) as char
  }

  function CharsText(xs: seq<LitChar>): string {
    if xs == [] then "" else CharText(xs[0]) + CharsText(xs[1..])
  }

  function CharsMeaning(xs: seq<LitChar>): string
    requires ProperChars(xs)
  {
    if xs == [] then "" else [CharMeaning(xs[0])] + CharsMeaning(xs[1..])
  }

  function Literal(xs: seq<LitChar>): string {
    "\"" + (CharsText(xs) + "\"")
  }

  lemma HexRead(s: string, rest: string)
    requires HexDigits(s)
    ensures Hex4(s + rest) == Some(NumberOf(s))
  {
    assert forall k | 0 <= k < 4 :: (s + rest)[k] == s[k];
    assert HexValue(s[0]) == Some(DigitOf(s[0])) && HexValue(s[1]) == Some(DigitOf(s[1]));
    assert HexValue(s[2]) == Some(DigitOf(s[2])) && HexValue(s[3]) == Some(DigitOf(s[3]));
  }

  lemma HexDecoded(digits: string, rest: string)
    requires HexDigits(digits) && !(0xD800 <= NumberOf(digits) < 0xE000)
    ensures Decode("\\u" + digits + rest)
         == match Decode(rest) case Some(r) => Some([NumberOf(digits) as char] + r) case None => None
  {
    hide Hex4, NumberOf;
    var s := "\\u" + digits + rest;
    HexRead(digits, rest);
    assert s[2..] == digits + rest && s[6..] == rest;
  }

  lemma SurrogatesDecoded(high: string, low: string, rest: string)
    requires ProperChar(Surrogates(high, low))
    ensures Decode("\\u" + high + "\\u" + low + rest)
         == match Decode(rest) case Some(r) => Some([CharMeaning(Surrogates(high, low))] + r) case None => None
  {
    hide Hex4, NumberOf;
    var s := "\\u" + high + "\\u" + low + rest;
    HexRead(high, "\\u" + low + rest);
    HexRead(low, rest);
    assert s[2..] == high + ("\\u" + low + rest) && s[8..] == low + rest && s[12..] == rest;
    assert s[6] == '\\' && s[7] == 'u';
  }

  lemma CharDecoded(x: LitChar, rest: string)
    requires ProperChar(x)
    ensures Decode(CharText(x) + rest)
         == match Decode(rest) case Some(r) => Some([CharMeaning(x)] + r) case None => None
  {
    match x
    case Raw(c) => assert ([c] + rest)[1..] == rest;
    case Short(c) => assert (['\\', c] + rest)[2..] == rest;
    case Hex(digits) => HexDecoded(digits, rest);
    case Surrogates(high, low) => SurrogatesDecoded(high, low, rest);
  }

  /** What a string literal stands for, every escape included. */
  lemma {:induction false} CharsDecoded(xs: seq<LitChar>)
    requires ProperChars(xs)
    ensures Decode(CharsText(xs)) == Some(CharsMeaning(xs))
    decreases |xs|
  {
    hide Decode, CharText, CharMeaning, ProperChar;
    if xs == [] {
      DecodeNothing();
    } else {
      CharsDecoded(xs[1..]);
      CharDecoded(xs[0], CharsText(xs[1..]));
    }
  }

  lemma CharPassed(u: string, i: nat, x: LitChar)
    requires ProperChar(x) && Stands(u, i, CharText(x))
    ensures StringEnd(u, i) == StringEnd(u, i + |CharText(x)|)
  {
    hide NumberOf;
    var s := CharText(x);
    match x
    case Raw(c) =>
      StandsAt(u, i, s, 0);
      PlainStep(u, i);
    case Short(c) =>
      StandsAt(u, i, s, 0);
      StandsAt(u, i, s, 1);
      EscapeStep(u, i);
    case Hex(digits) => HexPassed(u, i, digits);
    case Surrogates(high, low) =>
      assert s == ("\\u" + high) + ("\\u" + low);
      StandsPart(u, i, "\\u" + high, "\\u" + low);
      HexPassed(u, i, high);
      HexPassed(u, i + 6, low);
  }

  lemma HexPassed(u: string, i: nat, digits: string)
    requires HexDigits(digits) && Stands(u, i, "\\u" + digits)
    ensures StringEnd(u, i) == StringEnd(u, i + 6)
  {
    var s := "\\u" + digits;
    assert u[i + 0] == s[0] == '\\';
    assert u[i + 2] == s[2] && u[i + 3] == s[3] && u[i + 4] == s[4] && u[i + 5] == s[5];
    EscapeStep(u, i);
    PlainStep(u, i + 2);
    PlainStep(u, i + 3);
    PlainStep(u, i + 4);
    PlainStep(u, i + 5);
  }

  lemma {:induction false} CharsPassed(u: string, i: nat, xs: seq<LitChar>)
    requires ProperChars(xs) && Stands(u, i, CharsText(xs) + "\"")
    ensures StringEnd(u, i) == Some(i + |CharsText(xs)| + 1)
    decreases |xs|
  {
    hide Stands, CharText, ProperChar, StringEnd;
    if xs == [] {
      assert CharsText(xs) + "\"" == "\"";
      StandsAt(u, i, "\"", 0);
      QuoteEnds(u, i);
    } else {
      var e, rest := CharText(xs[0]), CharsText(xs[1..]) + "\"";
      assert CharsText(xs) + "\"" == e + rest;
      StandsPart(u, i, e, rest);
      CharPassed(u, i, xs[0]);
      CharsPassed(u, i + |e|, xs[1..]);
    }
  }

  lemma QuoteEnds(u: string, i: nat)
    requires i < |u| && u[i] == '"'
    ensures StringEnd(u, i) == Some(i + 1)
  {
  }

  lemma LiteralRead(u: string, q: nat, xs: seq<LitChar>)
    requires ProperChars(xs) && Stands(u, q, Literal(xs))
    ensures q < |u| && u[q] == '"' && StringEnd(u, q + 1) == Some(q + |Literal(xs)|)
    ensures q + |Literal(xs)| <= |u| && Decode(u[q + 1..q + |Literal(xs)| - 1]) == Some(CharsMeaning(xs))
  {
    hide Stands, CharsText, StringEnd, Decode, CharsMeaning;
    var e := CharsText(xs);
    StandsBounds(u, q, Literal(xs));
    StandsPart(u, q, "\"", e + "\"");
    StandsAt(u, q, "\"", 0);
    CharsPassed(u, q + 1, xs);
    StandsPart(u, q + 1, e, "\"");
    StandsSlice(u, q + 1, e);
    CharsDecoded(xs);
  }

  // ---- numbers --------------------------------------------------------------------------------

  /** RFC 8259, section 6: sign, digits, fraction, exponent with its letter and sign. */
  datatype Numeral = Numeral(minus: bool, whole: string, fraction: Option<string>, exponent: Option<(string, string)>)

  predicate Digits(s: string) {
    s != "" && forall k | 0 <= k < |s| :: '0' <= s[k] <= '9'
  }

  predicate ProperNumeral(n: Numeral) {
    && Digits(n.whole) && (n.whole[0] == '0' ==> |n.whole| == 1)
    && (n.fraction.Some? ==> Digits(n.fraction.value))
    && (n.exponent.Some? ==> n.exponent.value.0 in ["e", "E", "e+", "E+", "e-", "E-"] && Digits(n.exponent.value.1))
  }

  function FractionText(n: Numeral): string {
    if n.fraction.Some? then "." + n.fraction.value else ""
  }

  function ExponentText(n: Numeral): string {
    if n.exponent.Some? then n.exponent.value.0 + n.exponent.value.1 else ""
  }

  function NumeralText(n: Numeral): string {
    (if n.minus then "-" else "") + n.whole + FractionText(n) + ExponentText(n)
  }

  lemma {:induction false} DigitsStop(s: string, i: nat, j: nat)
    requires i <= j <= |s| && (forall k | i <= k < j :: Digit(s[k])) && (j < |s| ==> !Digit(s[j]))
    ensures DigitsEnd(s, i) == j
    decreases j - i
  {
    if i < j {
      DigitsStop(s, i + 1, j);
    }
  }

  lemma {:induction false} NumeralIsNumber(n: Numeral)
    requires ProperNumeral(n)
    ensures IsNumber(NumeralText(n))
  {
    hide DigitsEnd, FractionEnd, ExponentEnd;
    var s, a := NumeralText(n), if n.minus then 1 else 0;
    var b := a + |n.whole|;
    var c := b + |FractionText(n)|;
    assert forall k | a <= k < b :: s[k] == n.whole[k - a];
    assert s[b..c] == FractionText(n) && s[c..] == ExponentText(n);
    assert c < |s| ==> s[c] == ExponentText(n)[0];
    assert b < |s| ==> s[b] == (FractionText(n) + ExponentText(n))[0];
    WholeRead(s, a, b);
    FractionRead(n, s, b, c);
    ExponentRead(n, s, c);
  }

  lemma WholeRead(s: string, a: nat, b: nat)
    requires a < b <= |s| && (forall k | a <= k < b :: Digit(s[k])) && (s[a] == '0' ==> b == a + 1)
    requires b < |s| ==> !Digit(s[b])
    ensures IntegerEnd(s, a) == Some(b)
  {
    hide DigitsEnd;
    if s[a] != '0' {
      DigitsStop(s, a + 1, b);
    }
  }

  lemma FractionRead(n: Numeral, s: string, b: nat, c: nat)
    requires ProperNumeral(n) && b <= c <= |s| && s[b..c] == FractionText(n) && (c < |s| ==> s[c] in "eE")
    ensures FractionEnd(s, b) == Some(c)
  {
    hide DigitsEnd;
    if n.fraction.Some? {
      assert s[b] == s[b..c][0];
      assert forall k | b + 1 <= k < c :: s[k] == s[b..c][k - b] == n.fraction.value[k - b - 1];
      DigitsStop(s, b + 1, c);
    }
  }

  lemma ExponentRead(n: Numeral, s: string, c: nat)
    requires ProperNumeral(n) && c <= |s| && s[c..] == ExponentText(n)
    ensures ExponentEnd(s, c) == Some(|s|)
  {
    hide DigitsEnd;
    if n.exponent.Some? {
      var (mark, digits) := n.exponent.value;
      var d := c + |mark|;
      assert forall k | c <= k < |s| :: s[k] == s[c..][k - c];
      assert forall k | d <= k < |s| :: s[k] == digits[k - d];
      DigitsStop(s, d, |s|);
    }
  }

  // ---- documents ------------------------------------------------------------------------------

  datatype Doc =
    | Word(text: string) | Number(numeral: Numeral) | Text(chars: seq<LitChar>)
    | Hollow(brackets: bool, front: Trivia, comma: Option<Trivia>)
    | Series(items: seq<Element>, comma: Option<Trivia>) | Group(fields: seq<Field>, comma: Option<Trivia>)

  /** Trivia in front of a value and behind it. */
  datatype Element = Element(front: Trivia, value: Doc, behind: Trivia)

  datatype Field = Field(front: Trivia, key: seq<LitChar>, middle: Trivia, before: Trivia, value: Doc, behind: Trivia)

  predicate ProperComma(comma: Option<Trivia>) {
    comma.Some? ==> ProperTrivia(comma.value)
  }

  predicate Proper(d: Doc)
    decreases d, 1
  {
    match d
    case Word(text) => text in ["null", "true", "false"]
    case Number(numeral) => ProperNumeral(numeral)
    case Text(chars) => ProperChars(chars)
    case Hollow(_, front, comma) => ProperTrivia(front) && ProperComma(comma)
    case Series(items, comma) =>
      items != [] && ProperComma(comma) && forall i | 0 <= i < |items| :: assert items[i] in items; ProperElement(items[i])
    case Group(fields, comma) =>
      fields != [] && ProperComma(comma) && forall i | 0 <= i < |fields| :: assert fields[i] in fields; ProperField(fields[i])
  }

  predicate ProperElement(e: Element)
    decreases e
  {
    ProperTrivia(e.front) && ProperTrivia(e.behind) && Proper(e.value)
  }

  predicate ProperField(f: Field)
    decreases f
  {
    && ProperTrivia(f.front) && ProperTrivia(f.middle) && ProperTrivia(f.before) && ProperTrivia(f.behind)
    && ProperChars(f.key) && Proper(f.value)
  }

  function CommaText(comma: Option<Trivia>): string {
    if comma.Some? then "," + TriviaText(comma.value) else ""
  }

  function DocText(d: Doc): string
    decreases d, 2
  {
    match d
    case Word(text) => text
    case Number(numeral) => NumeralText(numeral)
    case Text(chars) => Literal(chars)
    case Hollow(brackets, front, comma) =>
      (if brackets then "[" else "{") + (TriviaText(front) + (CommaText(comma) + if brackets then "]" else "}"))
    case Series(items, comma) =>
      "[" + if items == [] then CommaText(comma) + "]"
            else TriviaText(items[0].front) + (DocText(items[0].value) + ItemsText(items[0].behind, items[1..], comma))
    case Group(fields, comma) =>
      "{" + if fields == [] then CommaText(comma) + "}"
            else TriviaText(fields[0].front) + (FieldText(fields[0]) + FieldsText(fields[0].behind, fields[1..], comma))
  }

  /** What follows an element's value. */
  function ItemsText(behind: Trivia, items: seq<Element>, comma: Option<Trivia>): string
    decreases items, 1
  {
    TriviaText(behind)
    + if items == [] then CommaText(comma) + "]"
      else "," + (TriviaText(items[0].front) + (DocText(items[0].value) + ItemsText(items[0].behind, items[1..], comma)))
  }

  function FieldText(f: Field): string
    decreases f, 0
  {
    Literal(f.key) + (TriviaText(f.middle) + (":" + (TriviaText(f.before) + DocText(f.value))))
  }

  /** What follows a member's value. */
  function FieldsText(behind: Trivia, fields: seq<Field>, comma: Option<Trivia>): string
    decreases fields, 1
  {
    TriviaText(behind)
    + if fields == [] then CommaText(comma) + "}"
      else "," + (TriviaText(fields[0].front) + (FieldText(fields[0]) + FieldsText(fields[0].behind, fields[1..], comma)))
  }

  /** The tree a document is meant to stand for. */
  function Meant(d: Doc): Tree
    requires Proper(d)
    decreases d, 1
  {
    match d
    case Group(fields, _) =>
      ElementsAre(d);
      Branch(MeantFields(fields))
    case Hollow(brackets, _, _) => if brackets then Leaf(DocText(d)) else Branch([])
    case _ => Leaf(DocText(d))
  }

  function MeantFields(fields: seq<Field>): (trees: seq<(string, Tree)>)
    requires forall i | 0 <= i < |fields| :: ProperChars(fields[i].key) && Proper(fields[i].value)
    ensures |trees| == |fields|
    ensures forall i | 0 <= i < |fields| :: trees[i] == (CharsMeaning(fields[i].key), Meant(fields[i].value))
    decreases fields
  {
    seq(|fields|, i requires 0 <= i < |fields| =>
      assert fields[i] in fields; (CharsMeaning(fields[i].key), Meant(fields[i].value)))
  }

  // ---- closing ----------------------------------------------------------------------------------

  lemma SolidAt(u: string, p: nat, c: char)
    requires p < |u| && u[p] == c && c in ",:}]\"[{"
    ensures Solid(u, p)
  {
  }

  /** What follows a value delimits it. */
  lemma TriviaDelimits(u: string, p: nat, bits: Trivia)
    requires ProperTrivia(bits) && Stands(u, p, TriviaText(bits))
    requires p + |TriviaText(bits)| < |u| && u[p + |TriviaText(bits)|] in ",}]"
    ensures Delimited(u, p)
  {
    if bits != [] {
      assert ProperBit(bits[0]);
      StandsAt(u, p, TriviaText(bits), 0);
      assert TriviaText(bits)[0] == BitText(bits[0])[0];
    }
  }

  /** Behind the last element: trivia, perhaps a comma and more trivia, the bracket. */
  lemma {:induction false} ClosesBehind(u: string, p: nat, behind: Trivia, comma: Option<Trivia>, close: char, first: bool)
    requires ProperTrivia(behind) && ProperComma(comma) && close in "]}"
    requires Stands(u, p, TriviaText(behind) + (CommaText(comma) + [close]))
    ensures var e := p + |TriviaText(behind)| + |CommaText(comma)|;
      && e < |u| && u[e] == close && Separator(u, p, first, close) == Some(e)
    ensures Delimited(u, p)
  {
    hide Stands, Skip, TriviaText, Delimited, ProperTrivia, Separator, CommaText;
    var q := p + |TriviaText(behind)|;
    StandsPart(u, p, TriviaText(behind), CommaText(comma) + [close]);
    if comma.Some? {
      ClosesAfterComma(u, q, comma, close);
    } else {
      ClosesAtOnce(u, q, comma, close);
    }
    SolidAt(u, q, u[q]);
    TriviaEnds(u, p, behind);
    SeparatorFrom(u, p, q, comma, close, first);
    TriviaDelimits(u, p, behind);
  }

  lemma ClosesAtOnce(u: string, q: nat, comma: Option<Trivia>, close: char)
    requires comma.None? && Stands(u, q, CommaText(comma) + [close])
    ensures CommaText(comma) == "" && q < |u| && u[q] == close
  {
    assert CommaText(comma) + [close] == [close];
    StandsAt(u, q, [close], 0);
  }

  lemma {:induction false} ClosesAfterComma(u: string, q: nat, comma: Option<Trivia>, close: char)
    requires comma.Some? && ProperComma(comma) && close in "]}" && Stands(u, q, CommaText(comma) + [close])
    ensures var e := q + |CommaText(comma)|;
      q + 1 <= e < |u| && u[q] == ',' && u[e] == close && Skip(u, q + 1) == e
  {
    hide Stands, Skip, TriviaText, ProperTrivia, CommaText;
    var more := TriviaText(comma.value);
    CommaCloses(comma.value, close);
    StandsPart(u, q, ",", more + [close]);
    StandsPart(u, q + 1, more, [close]);
    StandsAt(u, q, ",", 0);
    StandsAt(u, q + 1 + |more|, [close], 0);
    SolidAt(u, q + 1 + |more|, close);
    TriviaEnds(u, q + 1, comma.value);
  }

  lemma CommaCloses(bits: Trivia, close: char)
    ensures CommaText(Some(bits)) == "," + TriviaText(bits)
    ensures CommaText(Some(bits)) + [close] == "," + (TriviaText(bits) + [close])
  {
    hide TriviaText;
  }

  lemma SeparatorFrom(u: string, p: nat, q: nat, comma: Option<Trivia>, close: char, first: bool)
    requires p <= q < |u| && Skip(u, p) == q && close in "]}"
    requires if comma.Some? then u[q] == ',' && Skip(u, q + 1) == q + |CommaText(comma)| < |u| && u[q + |CommaText(comma)|] == close
             else u[q] == close
    ensures Separator(u, p, first, close) == Some(q + |CommaText(comma)|)
  {
    hide Skip;
  }

  /** Between two elements: trivia, the comma, trivia. */
  lemma NextBehind(u: string, p: nat, behind: Trivia, front: Trivia, rest: string, close: char)
    requires ProperTrivia(behind) && ProperTrivia(front) && close in "]}"
    requires Stands(u, p, TriviaText(behind) + ("," + (TriviaText(front) + rest)))
    requires var q := p + |TriviaText(behind)| + 1 + |TriviaText(front)|; Solid(u, q) && u[q] != close && u[q] != ','
    ensures Separator(u, p, false, close) == Some(p + |TriviaText(behind)| + 1 + |TriviaText(front)|)
    ensures Delimited(u, p)
  {
    hide Stands, Skip, TriviaText, Delimited;
    var a := p + |TriviaText(behind)|;
    StandsPart(u, p, TriviaText(behind), "," + (TriviaText(front) + rest));
    StandsPart(u, a, ",", TriviaText(front) + rest);
    StandsPart(u, a + 1, TriviaText(front), rest);
    StandsAt(u, a, ",", 0);
    SolidAt(u, a, ',');
    TriviaEnds(u, p, behind);
    TriviaEnds(u, a + 1, front);
    TriviaDelimits(u, p, behind);
  }

  // ---- values -----------------------------------------------------------------------------------

  /** A document, wherever it stands before a delimiter, is one value and means its tree. */
  lemma {:induction false} DocRead(d: Doc, u: string, q: nat)
    requires Proper(d) && Stands(u, q, DocText(d)) && Delimited(u, q + |DocText(d)|)
    ensures Value(u, q).Some? && Value(u, q).value.end == q + |DocText(d)|
    ensures TreeOf(u, Value(u, q).value) == Meant(d)
    decreases d, 2
  {
    hide Stands, Skip, IsLiteral, IsNumber, Literal, Members, Elements, TreeOf, StringEnd, Decode, CharsMeaning, ProperChars,
      NumeralText, ProperNumeral;
    match d
    case Word(text) =>
      ConstantsAreLiterals();
      LiteralStands(u, q, text);
      ScalarTree(u, q, text);
    case Number(numeral) =>
      ConstantsAreLiterals();
      NumeralIsNumber(numeral);
      LiteralStands(u, q, NumeralText(numeral));
      ScalarTree(u, q, NumeralText(numeral));
    case Text(chars) =>
      LiteralRead(u, q, chars);
      ScalarTree(u, q, Literal(chars));
    case Hollow(_, _, _) => HollowRead(d, u, q);
    case Series(_, _) => SeriesRead(d, u, q);
    case Group(_, _) => GroupRead(d, u, q);
  }

  lemma HollowRead(d: Doc, u: string, q: nat)
    requires Proper(d) && d.Hollow? && Stands(u, q, DocText(d))
    ensures Value(u, q).Some? && Value(u, q).value.end == q + |DocText(d)|
    ensures TreeOf(u, Value(u, q).value) == Meant(d)
  {
    hide Stands, Skip, TriviaText, CommaText, Separator;
    var (open, close) := if d.brackets then ("[", ']') else ("{", '}');
    var rest := TriviaText(d.front) + (CommaText(d.comma) + [close]);
    assert DocText(d) == open + rest;
    StandsPart(u, q, open, rest);
    StandsAt(u, q, open, 0);
    ClosesBehind(u, q + 1, d.front, d.comma, close, true);
    if d.brackets {
      ScalarTree(u, q, DocText(d));
    }
  }

  predicate AllProper(fields: seq<Field>) {
    forall i | 0 <= i < |fields| :: ProperField(fields[i]) && ProperChars(fields[i].key) && Proper(fields[i].value)
  }

  lemma ElementsAre(d: Doc)
    requires Proper(d)
    ensures d.Series? ==> forall i | 0 <= i < |d.items| :: ProperElement(d.items[i])
    ensures d.Group? ==> forall i | 0 <= i < |d.fields| :: ProperField(d.fields[i])
    ensures d.Group? ==> forall i | 0 <= i < |d.fields| :: ProperChars(d.fields[i].key) && Proper(d.fields[i].value)
  {
    if d.Series? {
      forall i | 0 <= i < |d.items| ensures ProperElement(d.items[i]) {
        assert d.items[i] in d.items;
      }
    }
    if d.Group? {
      forall i | 0 <= i < |d.fields|
        ensures ProperField(d.fields[i]) && ProperChars(d.fields[i].key) && Proper(d.fields[i].value)
      {
        assert d.fields[i] in d.fields;
        FieldParts(d.fields[i]);
      }
    }
  }

  lemma SeriesRead(d: Doc, u: string, q: nat)
    requires Proper(d) && d.Series? && Stands(u, q, DocText(d))
    ensures Value(u, q) == Some(Node(Array, q, q + |DocText(d)|))
    ensures TreeOf(u, Value(u, q).value) == Meant(d)
    decreases d, 1
  {
    hide Stands, Skip, Elements, TreeOf, Proper, ProperElement, Delimited, TriviaText, Value;
    SeriesParts(d);
    var e := d.items[0];
    var rest := DocText(e.value) + ItemsText(e.behind, d.items[1..], d.comma);
    var at := q + 1 + |TriviaText(e.front)|;
    ElementsAre(d);
    assert e in d.items;
    ElementParts(e);
    StandsPart(u, q, "[", TriviaText(e.front) + rest);
    StandsAt(u, q, "[", 0);
    StandsPart(u, q + 1, TriviaText(e.front), rest);
    StandsPart(u, at, DocText(e.value), ItemsText(e.behind, d.items[1..], d.comma));
    ItemsRead(e.behind, d.items[1..], d.comma, u, at + |DocText(e.value)|);
    DocRead(e.value, u, at);
    ValueStartsSolid(u, at);
    TriviaEnds(u, q + 1, e.front);
    FirstItem(u, q + 1, at);
    SeriesValue(u, q);
    ScalarTree(u, q, DocText(d));
  }

  lemma SeriesParts(d: Doc)
    requires Proper(d) && d.Series?
    ensures d.items != [] && ProperComma(d.comma)
    ensures var e := d.items[0];
      DocText(d) == "[" + (TriviaText(e.front) + (DocText(e.value) + ItemsText(e.behind, d.items[1..], d.comma)))
    ensures Meant(d) == Leaf(DocText(d))
  {
    hide TriviaText, ItemsText;
  }

  lemma ElementParts(e: Element)
    requires ProperElement(e)
    ensures ProperTrivia(e.front) && ProperTrivia(e.behind) && Proper(e.value)
  {
  }

  lemma SeriesValue(u: string, q: nat)
    requires q < |u| && u[q] == '['
    ensures Value(u, q) == match Elements(u, q + 1, true)
      case Some(end) => Some(Node(Array, q, end))
      case None => None
  {
    hide Elements;
  }

  lemma FirstItem(u: string, p: nat, q: nat)
    requires p <= q && Value(u, q).Some? && Skip(u, p) == q && Solid(u, q) && u[q] != ',' && u[q] != ']'
    ensures Elements(u, p, true) == Elements(u, Value(u, q).value.end, false)
  {
    hide Value, Skip;
    assert Separator(u, p, true, ']') == Some(q);
  }

  lemma NextItem(u: string, p: nat, q: nat)
    requires p <= q && Value(u, q).Some? && Separator(u, p, false, ']') == Some(q) && u[q] != ']'
    ensures Elements(u, p, false) == Elements(u, Value(u, q).value.end, false)
  {
    hide Value, Separator;
  }

  lemma {:induction false} ItemsRead(behind: Trivia, items: seq<Element>, comma: Option<Trivia>, u: string, p: nat)
    requires ProperTrivia(behind) && ProperComma(comma) && forall i | 0 <= i < |items| :: ProperElement(items[i])
    requires Stands(u, p, ItemsText(behind, items, comma))
    ensures Elements(u, p, false) == Some(p + |ItemsText(behind, items, comma)|) && Delimited(u, p)
    decreases items, 3
  {
    hide Stands, Skip, Elements, TreeOf, ProperElement, Proper, Value, TriviaText, CommaText, Separator, DocText;
    if items == [] {
      ClosesBehind(u, p, behind, comma, ']', false);
      ItemsClosed(u, p, p + |TriviaText(behind)| + |CommaText(comma)|);
    } else {
      var e := items[0];
      var rest := DocText(e.value) + ItemsText(e.behind, items[1..], comma);
      var a := p + |TriviaText(behind)|;
      var at := a + 1 + |TriviaText(e.front)|;
      assert e in items;
      ElementParts(e);
      StandsPart(u, p, TriviaText(behind), "," + (TriviaText(e.front) + rest));
      StandsPart(u, a, ",", TriviaText(e.front) + rest);
      StandsPart(u, a + 1, TriviaText(e.front), rest);
      StandsPart(u, at, DocText(e.value), ItemsText(e.behind, items[1..], comma));
      ItemsRead(e.behind, items[1..], comma, u, at + |DocText(e.value)|);
      DocRead(e.value, u, at);
      ValueStartsSolid(u, at);
      NextBehind(u, p, behind, e.front, rest, ']');
      NextItem(u, p, at);
    }
  }

  lemma ItemsClosed(u: string, p: nat, e: nat)
    requires p <= |u| && Separator(u, p, false, ']') == Some(e) && u[e] == ']'
    ensures Elements(u, p, false) == Some(e + 1)
  {
    hide Separator;
  }

  // ---- members ----------------------------------------------------------------------------------

  lemma FieldParts(f: Field)
    requires ProperField(f)
    ensures ProperTrivia(f.front) && ProperTrivia(f.middle) && ProperTrivia(f.before) && ProperTrivia(f.behind)
    ensures ProperChars(f.key) && Proper(f.value)
  {
  }

  lemma FieldRead(f: Field, u: string, q: nat)
    requires ProperField(f) && Stands(u, q, FieldText(f)) && Delimited(u, q + |FieldText(f)|)
    ensures q < |u| && u[q] == '"' && MemberAt(u, q).Some?
    ensures MemberAt(u, q).value.keyStart == q && MemberAt(u, q).value.value.end == q + |FieldText(f)|
    ensures ProperChars(f.key) && Proper(f.value)
    ensures (MemberAt(u, q).value.key, TreeOf(u, MemberAt(u, q).value.value)) == (CharsMeaning(f.key), Meant(f.value))
    decreases f, 3
  {
    hide Stands, Skip, Literal, TreeOf, Value, StringEnd, Decode, TriviaText, DocText, ProperChars, Proper, CharsMeaning,
      MemberHead, ProperTrivia;
    FieldParts(f);
    var e := q + |Literal(f.key)|;
    var colon := e + |TriviaText(f.middle)|;
    var at := colon + 1 + |TriviaText(f.before)|;
    StandsPart(u, q, Literal(f.key), TriviaText(f.middle) + (":" + (TriviaText(f.before) + DocText(f.value))));
    StandsPart(u, e, TriviaText(f.middle), ":" + (TriviaText(f.before) + DocText(f.value)));
    StandsPart(u, colon, ":", TriviaText(f.before) + DocText(f.value));
    StandsPart(u, colon + 1, TriviaText(f.before), DocText(f.value));
    StandsAt(u, colon, ":", 0);
    SolidAt(u, colon, ':');
    LiteralRead(u, q, f.key);
    DocRead(f.value, u, at);
    ValueStartsSolid(u, at);
    TriviaEnds(u, e, f.middle);
    TriviaEnds(u, colon + 1, f.before);
    HeadRead(u, q, CharsMeaning(f.key), e, colon, at);
    MemberFromParts(u, q, CharsMeaning(f.key), at);
  }

  lemma HeadRead(u: string, q: nat, key: string, e: nat, colon: nat, at: nat)
    requires q < e <= colon < at <= |u| && u[q] == '"' && u[colon] == ':'
    requires StringEnd(u, q + 1) == Some(e) && Decode(u[q + 1..e - 1]) == Some(key)
    requires Skip(u, e) == colon && Skip(u, colon + 1) == at
    ensures MemberHead(u, q) == Some((key, at))
  {
    hide Skip, StringEnd, Decode;
  }

  lemma GroupParts(d: Doc)
    requires Proper(d) && d.Group?
    ensures d.fields != [] && ProperComma(d.comma) && AllProper(d.fields)
    ensures var f := d.fields[0];
      DocText(d) == "{" + (TriviaText(f.front) + (FieldText(f) + FieldsText(f.behind, d.fields[1..], d.comma)))
    ensures Meant(d) == Branch(MeantFields(d.fields))
  {
    hide TriviaText, FieldText, FieldsText;
    ElementsAre(d);
  }

  lemma GroupRead(d: Doc, u: string, q: nat)
    requires Proper(d) && d.Group? && Stands(u, q, DocText(d))
    ensures Value(u, q).Some? && Value(u, q).value.end == q + |DocText(d)|
    ensures TreeOf(u, Value(u, q).value) == Meant(d)
    decreases d, 1
  {
    hide Stands, Skip, Members, TreeOf, Proper, ProperField, Delimited, TriviaText, Value, FieldText, FieldsText, MemberAt, Meant,
      Separator, DocText, MemberTrees, MeantFields, CharsMeaning;
    GroupParts(d);
    var f := d.fields[0];
    var rest := FieldText(f) + FieldsText(f.behind, d.fields[1..], d.comma);
    var at := q + 1 + |TriviaText(f.front)|;
    assert f in d.fields;
    FieldParts(f);
    StandsPart(u, q, "{", TriviaText(f.front) + rest);
    StandsAt(u, q, "{", 0);
    StandsPart(u, q + 1, TriviaText(f.front), rest);
    StandsPart(u, at, FieldText(f), FieldsText(f.behind, d.fields[1..], d.comma));
    FieldsRead(f.behind, d.fields[1..], d.comma, u, at + |FieldText(f)|);
    FieldRead(f, u, at);
    SolidAt(u, at, '"');
    TriviaEnds(u, q + 1, f.front);
    FirstField(u, q + 1, at);
    var m := MemberAt(u, at).value;
    MembersCons(u, q + 1, true, m);
    ObjectValue(u, q);
    BranchTree(u, Value(u, q).value);
    TreesCons(u, m, Members(u, m.value.end, false).value.0, d.fields);
  }

  lemma FirstField(u: string, p: nat, q: nat)
    requires p <= q < |u| && Skip(u, p) == q && u[q] == '"'
    ensures Separator(u, p, true, '}') == Some(q)
  {
    hide Skip;
  }

  lemma TreesCons(u: string, m: Member, rest: seq<Member>, fields: seq<Field>)
    requires fields != [] && AllProper(fields)
    requires (m.key, TreeOf(u, m.value)) == (CharsMeaning(fields[0].key), Meant(fields[0].value))
    requires MemberTrees(u, rest) == MeantFields(fields[1..])
    ensures MemberTrees(u, [m] + rest) == MeantFields(fields)
  {
    hide TreeOf, Meant, CharsMeaning, Proper, ProperField, ProperChars;
    MemberTreesAppend(u, [m], rest);
    assert MemberTrees(u, [m]) == [(m.key, TreeOf(u, m.value))];
    assert MeantFields(fields) == [(CharsMeaning(fields[0].key), Meant(fields[0].value))] + MeantFields(fields[1..]) by {
      assert forall i | 0 < i < |fields| :: fields[i] == fields[1..][i - 1];
    }
  }

  lemma {:induction false} FieldsRead(behind: Trivia, fields: seq<Field>, comma: Option<Trivia>, u: string, p: nat)
    requires ProperTrivia(behind) && ProperComma(comma) && AllProper(fields)
    requires Stands(u, p, FieldsText(behind, fields, comma))
    ensures p <= |u| && Members(u, p, false).Some? && Delimited(u, p)
    ensures Members(u, p, false).value.1 == p + |FieldsText(behind, fields, comma)|
    ensures MemberTrees(u, Members(u, p, false).value.0) == MeantFields(fields)
    decreases fields, 4
  {
    hide Stands, Skip, Members, TreeOf, ProperField, Proper, Value, TriviaText, CommaText, Separator, FieldText, MemberAt, Meant,
      MemberTrees, MeantFields, CharsMeaning, ProperChars;
    StandsBounds(u, p, FieldsText(behind, fields, comma));
    if fields == [] {
      ClosesBehind(u, p, behind, comma, '}', false);
      FieldsClosed(u, p, p + |TriviaText(behind)| + |CommaText(comma)|);
      NoFields(u);
    } else {
      var f := fields[0];
      var more := FieldsText(f.behind, fields[1..], comma);
      var a := p + |TriviaText(behind)|;
      var at := a + 1 + |TriviaText(f.front)|;
      assert f in fields;
      FieldParts(f);
      StandsPart(u, p, TriviaText(behind), "," + (TriviaText(f.front) + (FieldText(f) + more)));
      StandsPart(u, a, ",", TriviaText(f.front) + (FieldText(f) + more));
      StandsPart(u, a + 1, TriviaText(f.front), FieldText(f) + more);
      StandsPart(u, at, FieldText(f), more);
      FieldsRead(f.behind, fields[1..], comma, u, at + |FieldText(f)|);
      FieldRead(f, u, at);
      SolidAt(u, at, '"');
      NextBehind(u, p, behind, f.front, FieldText(f) + more, '}');
      var m := MemberAt(u, at).value;
      MembersCons(u, p, false, m);
      TreesCons(u, m, Members(u, m.value.end, false).value.0, fields);
    }
  }

  lemma FieldsClosed(u: string, p: nat, e: nat)
    requires p <= |u| && Separator(u, p, false, '}') == Some(e) && u[e] == '}'
    ensures Members(u, p, false) == Some(([], e + 1))
  {
    hide Separator;
  }

  lemma NoFields(u: string)
    ensures MemberTrees(u, []) == MeantFields([])
  {
  }

  // ---- whole documents ----------------------------------------------------------------------------

  /**
   * Every text written of these parts, with any trivia around them, is accepted by the guard and
   * parsed to the tree it is meant to stand for.
   */
  lemma WrittenIsRead(front: Trivia, d: Doc, behind: Trivia)
    requires ProperTrivia(front) && Proper(d) && ProperTrivia(behind)
    ensures var t := TriviaText(front) + (DocText(d) + TriviaText(behind));
      Accepts(t) && ParseDocument(t).Ok? && DocumentTree(t) == Meant(d)
  {
    hide Value, Stands, Skip, TriviaText, DocText, Meant, Proper, TreeOf, Accepts, ParseDocument, LeftOpen, ProperTrivia,
      SplitBom, Document;
    var t := TriviaText(front) + (DocText(d) + TriviaText(behind));
    var end := |TriviaText(front)| + |DocText(d)|;
    WrittenStands(front, d, behind);
    EndDelimits(t, end, behind);
    TriviaSkipped(t, end, behind);
    AtEnd(t);
    WrittenDocument(t, front, d);
    DocStarts(d);
    NoMark(t, front, d);
    AcceptsIsStrict(t);
    AcceptedTextParses(t);
    NothingOpen(t, end, behind);
  }

  lemma WrittenStands(front: Trivia, d: Doc, behind: Trivia)
    ensures var t := TriviaText(front) + (DocText(d) + TriviaText(behind));
      && Stands(t, 0, TriviaText(front)) && Stands(t, |TriviaText(front)|, DocText(d))
      && Stands(t, |TriviaText(front)| + |DocText(d)|, TriviaText(behind))
  {
    hide Stands, TriviaText, DocText;
    var t := TriviaText(front) + (DocText(d) + TriviaText(behind));
    WholeStands(t);
    StandsPart(t, 0, TriviaText(front), DocText(d) + TriviaText(behind));
    StandsPart(t, |TriviaText(front)|, DocText(d), TriviaText(behind));
  }

  /** A document in front of trivia that runs to the end. */
  lemma WrittenDocument(t: string, front: Trivia, d: Doc)
    requires ProperTrivia(front) && Proper(d)
    requires Stands(t, 0, TriviaText(front)) && Stands(t, |TriviaText(front)|, DocText(d))
    requires var end := |TriviaText(front)| + |DocText(d)|; end <= |t| && Delimited(t, end) && Skip(t, end) == |t|
    ensures var r := Document(t);
      r.Some? && r.value.end == |TriviaText(front)| + |DocText(d)| && TreeOf(t, r.value) == Meant(d)
  {
    hide Value, Stands, Skip, TriviaText, DocText, Meant, Proper, TreeOf, ProperTrivia, Delimited;
    var at := |TriviaText(front)|;
    DocRead(d, t, at);
    ValueStartsSolid(t, at);
    TriviaEnds(t, 0, front);
  }

  lemma AtEnd(t: string)
    ensures Skip(t, |t|) == |t|
  {
  }

  lemma WholeStands(t: string)
    ensures Stands(t, 0, t)
  {
  }

  lemma EndDelimits(t: string, p: nat, bits: Trivia)
    requires ProperTrivia(bits) && Stands(t, p, TriviaText(bits)) && p + |TriviaText(bits)| == |t|
    ensures Delimited(t, p)
  {
    if bits != [] {
      assert ProperBit(bits[0]);
      StandsAt(t, p, TriviaText(bits), 0);
      assert TriviaText(bits)[0] == BitText(bits[0])[0];
    }
  }

  lemma NoMark(t: string, front: Trivia, d: Doc)
    requires ProperTrivia(front) && Proper(d)
    requires Stands(t, 0, TriviaText(front)) && Stands(t, |TriviaText(front)|, DocText(d))
    ensures SplitBom(t) == ("", t)
  {
    hide DocText;
    DocStarts(d);
    if front == [] {
      StandsAt(t, 0, DocText(d), 0);
    } else {
      StandsAt(t, 0, TriviaText(front), 0);
      assert ProperBit(front[0]);
      assert TriviaText(front)[0] == BitText(front[0])[0];
    }
  }

  lemma DocStarts(d: Doc)
    requires Proper(d)
    ensures DocText(d) != "" && DocText(d)[0] != BOM
  {
    hide TriviaText, CommaText, ItemsText, FieldsText, CharsText;
    match d
    case Number(n) =>
      assert NumeralText(n)[0] == if n.minus then '-' else n.whole[0];
    case _ =>
  }

  lemma BitNotOpen(u: string, p: nat, b: Bit)
    requires ProperBit(b) && Stands(u, p, BitText(b))
    ensures p + |BitText(b)| <= |u| && LeftOpen(u, p) == LeftOpen(u, p + |BitText(b)|)
  {
    hide Stands, LineEnd, BlockEnd, LeftOpen, CommentEnd;
    match b
    case White(c) =>
      StandsAt(u, p, [c], 0);
      OpenStep(u, p);
    case LineNote(note) =>
      LineNoteEnds(u, p, note);
      OpenStep(u, p);
      OpenStep(u, p + 2 + |note|);
    case BlockNote(note) =>
      BlockNoteEnds(u, p, note);
      OpenStep(u, p);
  }

  lemma OpenStep(u: string, p: nat)
    requires p < |u|
    ensures JsonWs(u[p]) ==> LeftOpen(u, p) == LeftOpen(u, p + 1)
    ensures OpensComment(u, p) && CommentEnd(u, p).Some? ==> LeftOpen(u, p) == LeftOpen(u, CommentEnd(u, p).value)
  {
  }

  lemma {:induction false} NothingOpen(u: string, p: nat, bits: Trivia)
    requires ProperTrivia(bits) && Stands(u, p, TriviaText(bits)) && p + |TriviaText(bits)| == |u|
    ensures !LeftOpen(u, p)
    decreases |bits|
  {
    hide Stands, BitText, ProperBit, LeftOpen;
    if bits == [] {
      assert !LeftOpen(u, |u|) by {
        EndNotOpen(u);
      }
    } else {
      StandsPart(u, p, BitText(bits[0]), TriviaText(bits[1..]));
      BitNotOpen(u, p, bits[0]);
      NothingOpen(u, p + |BitText(bits[0])|, bits[1..]);
    }
  }

  lemma EndNotOpen(u: string)
    ensures !LeftOpen(u, |u|)
  {
  }
}
