/** Tokens of JSON and JSONC text: trivia, string literals and bare literals. */
module JsonLexer {
  import opened Text

  /** White space as RFC 8259 (section 2) has it. */
  predicate JsonWs(c: char) {
    c == ' ' || c == '\t' || c == '\n' || c == '\r'
  }

  // ---- comments and trivia ------------------------------------------------------

  predicate OpensComment(t: string, i: nat) {
    i + 1 < |t| && t[i] == '/' && (t[i + 1] == '/' || t[i + 1] == '*')
  }

  function LineEnd(t: string, i: nat): (j: nat)
    requires i <= |t|
    ensures i <= j <= |t|
    ensures j < |t| ==> t[j] == '\n'
    ensures forall k | i <= k < j :: t[k] != '\n'
    decreases |t| - i
  {
    if i < |t| && t[i] != '\n' then LineEnd(t, i + 1) else i
  }

  predicate ClosesAt(t: string, k: nat) {
    k + 1 < |t| && t[k] == '*' && t[k + 1] == '/'
  }

  /** Just past the first `*` `/` at or after `i`. */
  function BlockEnd(t: string, i: nat): (r: Option<nat>)
    requires i <= |t|
    ensures r.Some? ==> i + 2 <= r.value <= |t| && ClosesAt(t, r.value - 2)
    ensures forall k | i <= k < (if r.Some? then r.value - 2 else |t|) :: !ClosesAt(t, k)
    decreases |t| - i
  {
    if i == |t| then None
    else if ClosesAt(t, i) then Some(i + 2)
    else BlockEnd(t, i + 1)
  }

  /** Where the comment that opens at `i` ends; None when it is never closed. */
  function CommentEnd(t: string, i: nat): (r: Option<nat>)
    requires OpensComment(t, i)
    ensures r.Some? ==> i + 2 <= r.value <= |t|
  {
    if t[i + 1] == '/' then Some(LineEnd(t, i + 2)) else BlockEnd(t, i + 2)
  }

  /** Skips white space and comments; a comment left open runs to the end. */
  function Skip(t: string, i: nat): (j: nat)
    requires i <= |t|
    ensures i <= j <= |t|
    ensures j < |t| ==> !JsonWs(t[j]) && !OpensComment(t, j)
    decreases |t| - i
  {
    if i == |t| then i
    else if JsonWs(t[i]) then Skip(t, i + 1)
    else if OpensComment(t, i) then
      match CommentEnd(t, i)
      case Some(e) => Skip(t, e)
      case None => |t|
    else i
  }

  // ---- string literals ----------------------------------------------------------

  /** Just past the quote that closes a string whose body starts at `i`. */
  function StringEnd(t: string, i: nat): (r: Option<nat>)
    ensures r.Some? ==> i < r.value <= |t| && t[r.value - 1] == '"'
    decreases |t| - i
  {
    if i >= |t| then None
    else if t[i] == '\\' then StringEnd(t, i + 2)
    else if t[i] == '"' then Some(i + 1)
    else StringEnd(t, i + 1)
  }

  function HexValue(c: char): Option<nat> {
    if '0' <= c <= '9' then Some(c as nat - '0' as nat)
    else if 'a' <= c <= 'f' then Some(c as nat - 'a' as nat + 10)
    else if 'A' <= c <= 'F' then Some(c as nat - 'A' as nat + 10)
    else None
  }

  function Hex4(s: string): (r: Option<nat>)
    ensures r.Some? ==> |s| >= 4 && r.value < 0x1_0000
  {
    if |s| < 4 then None
    else
      var a :- HexValue(s[0]);
      var b :- HexValue(s[1]);
      var c :- HexValue(s[2]);
      var d :- HexValue(s[3]);
      Some(((a * 16 + b) * 16 + c) * 16 + d)
  }

  function SimpleEscape(c: char): Option<char> {
    match c
    case '"' => Some('"')
    case '\\' => Some('\\')
    case '/' => Some('/')
    case 'b' => Some('\U{8}')
    case 'f' => Some('\U{C}')
    case 'n' => Some('\n')
    case 'r' => Some('\r')
    case 't' => Some('\t')
    case _ => None
  }

  /** The text a string body denotes (RFC 8259, section 7); surrogates only in pairs. */
  function Decode(s: string): Option<string>
    decreases |s|
  {
    if s == "" then Some("")
    else if s[0] == '\\' then
      if |s| == 1 then None
      else if s[1] == 'u' then
        var x :- Hex4(s[2..]);
        if 0xD800 <= x < 0xDC00 then
          if |s| < 12 || s[6] != '\\' || s[7] != 'u' then None
          else
            var y :- Hex4(s[8..]);
            if !(0xDC00 <= y < 0xE000) then None
            else
              var rest :- Decode(s[12..]);
              Some([(0x1_0000 + (x - 0xD800) * 0x400 + (y - 0xDC00)) as char] + rest)
        else if 0xDC00 <= x < 0xE000 then None
        else
          var rest :- Decode(s[6..]);
          Some([x as char] + rest)
      else
        var c :- SimpleEscape(s[1]);
        var rest :- Decode(s[2..]);
        Some([c] + rest)
    else if s[0] < ' ' || s[0] == '"' then None
    else
      var rest :- Decode(s[1..]);
      Some([s[0]] + rest)
  }

  function HexDigit(n: nat): char
    requires n < 16
  {
    "0123456789abcdef"[n]
  }

  function EncodeChar(c: char): (e: string)
    ensures e != ""
  {
    match c
    case '"' => "\\\""
    case '\\' => "\\\\"
    case '\U{8}' => "\\b"
    case '\U{C}' => "\\f"
    case '\n' => "\\n"
    case '\r' => "\\r"
    case '\t' => "\\t"
    case _ => if c < ' ' then "\\u00" + [HexDigit(c as nat / 16), HexDigit(c as nat % 16)] else [c]
  }

  function Encode(s: string): string {
    if s == "" then "" else EncodeChar(s[0]) + Encode(s[1..])
  }

  /** `serde_json::to_string` of a string. */
  function Quote(s: string): string {
    "\"" + Encode(s) + "\""
  }

  lemma HexOfDigit(n: nat)
    requires n < 16
    ensures HexValue(HexDigit(n)) == Some(n)
  {
  }

  lemma DecodeControl(c: char, rest: string)
    requires c < ' '
    ensures Decode("\\u00" + [HexDigit(c as nat / 16), HexDigit(c as nat % 16)] + rest)
         == match Decode(rest) case Some(r) => Some([c] + r) case None => None
  {
    assert HexValue('0') == Some(0);
    hide HexValue, HexDigit;
    var n := c as nat;
    var s := "\\u00" + [HexDigit(n / 16), HexDigit(n % 16)] + rest;
    HexOfDigit(n / 16);
    HexOfDigit(n % 16);
    assert s[0] == '\\' && s[1] == 'u' && s[6..] == rest;
    assert Hex4(s[2..]) == Some(n);
  }

  lemma DecodeOne(c: char, rest: string)
    ensures Decode(EncodeChar(c) + rest)
         == match Decode(rest) case Some(r) => Some([c] + r) case None => None
  {
    var e := EncodeChar(c);
    var s := e + rest;
    assert s[|e|..] == rest;
    if |e| == 6 {
      DecodeControl(c, rest);
    }
  }

  lemma DecodeNothing()
    ensures Decode("") == Some("")
  {
  }

  lemma {:induction false} DecodeEncode(s: string)
    ensures Decode(Encode(s)) == Some(s)
  {
    hide Decode, EncodeChar;
    if s == "" {
      DecodeNothing();
    } else {
      DecodeEncode(s[1..]);
      DecodeOne(s[0], Encode(s[1..]));
      assert s == [s[0]] + s[1..];
    }
  }

  lemma StringEndOne(t: string, i: nat, c: char)
    requires i + |EncodeChar(c)| <= |t|
    requires t[i..i + |EncodeChar(c)|] == EncodeChar(c)
    ensures StringEnd(t, i) == StringEnd(t, i + |EncodeChar(c)|)
  {
    hide HexDigit;
    var e := EncodeChar(c);
    var s := t[i..i + |e|];
    assert forall k | 0 <= k < |e| :: t[i + k] == s[k];
    if |e| == 6 {
      var n := c as nat;
      HexDigitIsPlain(n / 16);
      HexDigitIsPlain(n % 16);
      assert s == "\\u00" + [HexDigit(n / 16), HexDigit(n % 16)];
      assert s[0] == '\\' && s[2] == '0' && s[3] == '0' && s[4] == HexDigit(n / 16) && s[5] == HexDigit(n % 16);
      PlainStep(t, i + 2);
      PlainStep(t, i + 3);
      PlainStep(t, i + 4);
      PlainStep(t, i + 5);
      EscapeStep(t, i);
    }
  }

  lemma HexDigitIsPlain(n: nat)
    requires n < 16
    ensures HexDigit(n) != '"' && HexDigit(n) != '\\'
  {
  }

  lemma PlainStep(t: string, i: nat)
    requires i < |t| && t[i] != '"' && t[i] != '\\'
    ensures StringEnd(t, i) == StringEnd(t, i + 1)
  {
  }

  lemma EscapeStep(t: string, i: nat)
    requires i < |t| && t[i] == '\\'
    ensures StringEnd(t, i) == StringEnd(t, i + 2)
  {
  }

  /** The string scanner stops at exactly the quote that closes an encoded text. */
  lemma {:induction false} StringEndEncoded(t: string, i: nat, s: string)
    requires i + |Encode(s)| < |t|
    requires t[i..i + |Encode(s)|] == Encode(s)
    requires t[i + |Encode(s)|] == '"'
    ensures StringEnd(t, i) == Some(i + |Encode(s)| + 1)
    decreases |s|
  {
    hide EncodeChar;
    if s != "" {
      var e, rest := EncodeChar(s[0]), Encode(s[1..]);
      assert t[i..i + |e|] == Encode(s)[..|e|] == e;
      assert t[i + |e|..i + |e| + |rest|] == Encode(s)[|e|..] == rest;
      StringEndOne(t, i, s[0]);
      StringEndEncoded(t, i + |e|, s[1..]);
    }
  }

  // ---- bare literals --------------------------------------------------------------

  predicate EndsBare(c: char) {
    AsciiWhitespace(c) || c == ',' || c == '}' || c == ']' || c == '/'
  }

  function BareEnd(t: string, i: nat): (j: nat)
    requires i <= |t|
    ensures i <= j <= |t|
    ensures j < |t| ==> EndsBare(t[j])
    ensures forall k | i <= k < j :: !EndsBare(t[k])
    decreases |t| - i
  {
    if i < |t| && !EndsBare(t[i]) then BareEnd(t, i + 1) else i
  }

  predicate Digit(c: char) {
    '0' <= c <= '9'
  }

  function DigitsEnd(s: string, i: nat): (j: nat)
    requires i <= |s|
    ensures i <= j <= |s|
    ensures forall k | i <= k < j :: Digit(s[k])
    decreases |s| - i
  {
    if i < |s| && Digit(s[i]) then DigitsEnd(s, i + 1) else i
  }

  /** Past an optional part of a number; None when the part is malformed. */
  function FractionEnd(s: string, i: nat): (r: Option<nat>)
    requires i <= |s|
    ensures r.Some? ==> i <= r.value <= |s|
    ensures r.Some? ==> forall k | i <= k < r.value :: LiteralChar(s[k])
  {
    if i == |s| || s[i] != '.' then Some(i)
    else
      var j := DigitsEnd(s, i + 1);
      if j > i + 1 then Some(j) else None
  }

  function ExponentEnd(s: string, i: nat): (r: Option<nat>)
    requires i <= |s|
    ensures r.Some? ==> i <= r.value <= |s|
    ensures r.Some? ==> forall k | i <= k < r.value :: LiteralChar(s[k])
  {
    if i == |s| || (s[i] != 'e' && s[i] != 'E') then Some(i)
    else
      var d := if i + 1 < |s| && (s[i + 1] == '+' || s[i + 1] == '-') then i + 2 else i + 1;
      var j := DigitsEnd(s, d);
      if j > d then Some(j) else None
  }

  function IntegerEnd(s: string, i: nat): (r: Option<nat>)
    requires i <= |s|
    ensures r.Some? ==> i < r.value <= |s|
    ensures r.Some? ==> forall k | i <= k < r.value :: LiteralChar(s[k])
  {
    if i == |s| || !Digit(s[i]) then None
    else if s[i] == '0' then Some(i + 1)
    else Some(DigitsEnd(s, i + 1))
  }

  predicate LiteralChar(c: char) {
    Digit(c) || 'a' <= c <= 'z' || c == '-' || c == '+' || c == '.' || c == 'E'
  }

  /** A number in the grammar of RFC 8259, section 6. */
  predicate IsNumber(s: string) {
    var i := if s != "" && s[0] == '-' then 1 else 0;
    var whole := IntegerEnd(s, i);
    && whole.Some?
    && var fraction := FractionEnd(s, whole.value);
       && fraction.Some?
       && ExponentEnd(s, fraction.value) == Some(|s|)
  }

  predicate IsLiteral(s: string) {
    s == "null" || s == "true" || s == "false" || IsNumber(s)
  }

  lemma LiteralChars(s: string)
    requires IsLiteral(s)
    ensures s != "" && forall k | 0 <= k < |s| :: LiteralChar(s[k])
  {
    if IsNumber(s) {
      var i := if s[0] == '-' then 1 else 0;
      var whole := IntegerEnd(s, i).value;
      var fraction := FractionEnd(s, whole).value;
      forall k | 0 <= k < |s| ensures LiteralChar(s[k]) {
        if k < i {
        } else if k < whole {
        } else if k < fraction {
        }
      }
    }
  }
}
