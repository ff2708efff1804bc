/** How a user's dotenv text is read, rewritten and deleted from, told from the parts it is written of. */
module DotEnvText {
  import opened Text
  import opened DotEnv
  import opened DotEnvLine
  import opened DotEnvLaws

  // ---- a value as it is written -----------------------------------------------------------------

  /** A character between double quotes, as it stands or behind a backslash. */
  datatype Piece = Plain(c: char) | Escaped(c: char)

  datatype Spelling =
    | InDouble(pieces: seq<Piece>) | InSingle(text: string) | Unquoted(text: string)
    | OpenDouble(pieces: seq<Piece>) | OpenSingle(text: string)

  predicate ProperPiece(p: Piece) {
    match p
    case Plain(c) => c != '"' && c != '\\' && c != '\n'
    case Escaped(c) => c != '\n'
  }

  predicate ProperPieces(pieces: seq<Piece>) {
    forall i | 0 <= i < |pieces| :: ProperPiece(pieces[i])
  }

  predicate ProperSpelling(v: Spelling) {
    match v
    case InDouble(pieces) => ProperPieces(pieces)
    case InSingle(text) => '\'' !in text && '\n' !in text
    case Unquoted(text) =>
      && '\n' !in text
      && (text != "" ==> text[0] !in " \t\"'#" && text[|text| - 1] !in " \t")
      && forall k | 0 < k < |text| :: text[k] == '#' ==> text[k - 1] !in " \t"
    case OpenDouble(pieces) => ProperPieces(pieces) && (pieces != [] ==> pieces[|pieces| - 1] != Escaped('"'))
    case OpenSingle(text) => '\'' !in text && '\n' !in text
  }

  function PieceText(p: Piece): string {
    match p
    case Plain(c) => [c]
    case Escaped(c) => ['\\', c]
  }

  function PiecesText(pieces: seq<Piece>): string {
    if pieces == [] then "" else PieceText(pieces[0]) + PiecesText(pieces[1..])
  }

  function Spelled(v: Spelling): string {
    match v
    case InDouble(pieces) => "\"" + PiecesText(pieces) + "\""
    case InSingle(text) => "'" + text + "'"
    case Unquoted(text) => text
    case OpenDouble(pieces) => "\"" + PiecesText(pieces)
    case OpenSingle(text) => "'" + text
  }

  /** Three letters stand for control characters, a backslash and both quotes for themselves; any other escape stays. */
  function PieceMeaning(p: Piece): string {
    match p
    case Plain(c) => [c]
    case Escaped(c) =>
      if c == 'n' then "\n" else if c == 'r' then "\r" else if c == 't' then "\t"
      else if c in "\\\"'" then [c]
      else ['\\', c]
  }

  function PiecesMeaning(pieces: seq<Piece>): string {
    if pieces == [] then "" else PieceMeaning(pieces[0]) + PiecesMeaning(pieces[1..])
  }

  /** A quote that is never closed belongs to the value. */
  function Meaning(v: Spelling): string {
    match v
    case InDouble(pieces) => PiecesMeaning(pieces)
    case InSingle(text) => text
    case Unquoted(text) => text
    case OpenDouble(pieces) => "\"" + PiecesMeaning(pieces)
    case OpenSingle(text) => "'" + text
  }

  // ---- a line as it is written -----------------------------------------------------------------------

  predicate AllBlank(s: string) {
    forall k | 0 <= k < |s| :: s[k] == ' ' || s[k] == '\t'
  }

  datatype Parts = Parts(indent: string, exported: Option<string>, key: string, before: string, after: string,
                         value: Spelling, tail: string)

  predicate ProperKey(key: string) {
    key != "" && forall k | 0 <= k < |key| :: key[k] !in "= \t#\r\n"
  }

  /** Behind an unquoted value: blanks, and a comment behind at least one; right behind `=` a comment may follow at once. */
  predicate ProperTail(v: Spelling, tail: string) {
    && '\n' !in tail
    && match v
       case InDouble(_) => true
       case InSingle(_) => true
       case Unquoted(text) =>
         if text == "" then tail == "" || tail[0] == '#'
         else AllBlank(tail) || exists n | 0 < n < |tail| :: AllBlank(tail[..n]) && tail[n] == '#'
       case OpenDouble(_) => tail == ""
       case OpenSingle(_) => tail == ""
  }

  predicate ProperParts(p: Parts) {
    && AllBlank(p.indent) && AllBlank(p.before) && AllBlank(p.after)
    && (p.exported.Some? ==> p.exported.value != "" && AllBlank(p.exported.value))
    && (p.exported.None? && p.key == "export" ==> p.before == "")
    && ProperKey(p.key) && ProperSpelling(p.value) && ProperTail(p.value, p.tail)
  }

  function Front(p: Parts): string {
    p.indent + if p.exported.Some? then "export" + p.exported.value else ""
  }

  function Head(p: Parts): string {
    Front(p) + p.key + p.before + "=" + p.after
  }

  function PartsText(p: Parts): string {
    Head(p) + Spelled(p.value) + p.tail
  }

  // ---- the key --------------------------------------------------------------------------------------------

  lemma {:induction false} BlanksSkipped(c: string, i: nat, j: nat)
    requires i <= j <= |c| && (j < |c| ==> !Blank(c[j])) && forall k | i <= k < j :: Blank(c[k])
    ensures SkipBlanks(c, i) == j
    decreases j - i
  {
    if i < j {
      BlanksSkipped(c, i + 1, j);
    }
  }

  lemma {:induction false} KeySkipped(c: string, i: nat, j: nat)
    requires i <= j < |c| && EndsKey(c[j]) && forall k | i <= k < j :: !EndsKey(c[k])
    ensures KeyEnd(c, i) == j
    decreases j - i
  {
    if i < j {
      KeySkipped(c, i + 1, j);
    }
  }

  /** `s` stands in `c` at `i`. */
  predicate At(c: string, i: nat, s: string) {
    i + |s| <= |c| && c[i..i + |s|] == s
  }

  lemma AtParts(c: string, i: nat, a: string, b: string)
    requires At(c, i, a + b)
    ensures At(c, i, a) && At(c, i + |a|, b)
  {
    var s := c[i..i + |a + b|];
    assert s[..|a|] == a && s[|a|..] == b;
    assert s[..|a|] == c[i..i + |a|] && s[|a|..] == c[i + |a|..i + |a| + |b|];
  }

  lemma AtChar(c: string, i: nat, s: string, k: nat)
    requires At(c, i, s) && k < |s|
    ensures i + k < |c| && c[i + k] == s[k]
  {
    assert c[i..i + |s|][k] == s[k];
  }

  lemma AtBlanks(c: string, i: nat, s: string)
    requires At(c, i, s) && AllBlank(s)
    ensures forall k | i <= k < i + |s| :: Blank(c[k])
  {
    forall k | i <= k < i + |s| ensures Blank(c[k]) {
      AtChar(c, i, s, k - i);
    }
  }

  lemma AtKey(c: string, i: nat, key: string)
    requires At(c, i, key) && ProperKey(key)
    ensures forall k | i <= k < i + |key| :: !EndsKey(c[k])
    ensures i < |c| && !Blank(c[i]) && c[i] != '#'
  {
    forall k | i <= k < i + |key| ensures !EndsKey(c[k]) {
      AtChar(c, i, key, k - i);
    }
  }

  lemma HeadLength(p: Parts)
    ensures |Head(p)| == |Front(p)| + |p.key| + |p.before| + 1 + |p.after|
  {
  }

  lemma PartsStand(p: Parts, c: string)
    requires c == PartsText(p)
    ensures At(c, 0, Front(p)) && At(c, |Front(p)|, p.key) && At(c, |Front(p)| + |p.key|, p.before)
    ensures At(c, |Front(p)| + |p.key| + |p.before|, "=") && At(c, |Head(p)| - |p.after|, p.after)
    ensures |Head(p)| == |Front(p)| + |p.key| + |p.before| + 1 + |p.after|
  {
    hide Spelled, Front, At;
    HeadLength(p);
    var f, rest := Front(p), Spelled(p.value) + p.tail;
    assert At(c, 0, Head(p) + rest) by {
      WholeStands(c);
      assert Head(p) + rest == c;
    }
    AtParts(c, 0, Head(p), rest);
    AtParts(c, 0, f + p.key + p.before + "=", p.after);
    AtParts(c, 0, f + p.key + p.before, "=");
    AtParts(c, 0, f + p.key, p.before);
    AtParts(c, 0, f, p.key);
  }

  lemma WholeStands(c: string)
    ensures At(c, 0, c)
  {
  }

  lemma FrontStands(p: Parts, c: string)
    requires At(c, 0, Front(p))
    ensures At(c, 0, p.indent)
    ensures if p.exported.Some? then At(c, |p.indent|, "export") && At(c, |p.indent| + 6, p.exported.value)
                                     && |Front(p)| == |p.indent| + 6 + |p.exported.value|
            else Front(p) == p.indent
  {
    hide At;
    if p.exported.Some? {
      AtParts(c, 0, p.indent, "export" + p.exported.value);
      AtParts(c, |p.indent|, "export", p.exported.value);
    } else {
      assert p.indent + "" == p.indent;
    }
  }

  /** `export` is seen exactly where it was written. */
  lemma ExportSeen(p: Parts, c: string)
    requires ProperParts(p) && c == PartsText(p)
    ensures ExportAt(c, |p.indent|) <==> p.exported.Some?
  {
    hide Spelled, ProperSpelling, ProperTail;
    PartsStand(p, c);
    FrontStands(p, c);
    var i := |p.indent|;
    if p.exported.Some? {
      AtChar(c, i + 6, p.exported.value, 0);
    } else {
      KeyIsNotExport(p, c, i);
    }
  }

  lemma KeyIsNotExport(p: Parts, c: string, i: nat)
    requires ProperParts(p) && p.exported.None? && At(c, i, p.key) && At(c, i + |p.key|, p.before)
    requires At(c, i + |p.key| + |p.before|, "=")
    ensures !ExportAt(c, i)
  {
    hide ProperSpelling, ProperTail;
    var n := |p.key|;
    AtKey(c, i, p.key);
    AtChar(c, i + n + |p.before|, "=", 0);
    if p.before != "" {
      AtChar(c, i + n, p.before, 0);
    }
    ExportLetters(c, i);
    if n == 6 {
      assert c[i..i + 6] == p.key;
    }
  }

  lemma ExportLetters(c: string, i: nat)
    ensures ExportAt(c, i) ==> (forall k | i <= k < i + 6 :: !EndsKey(c[k])) && EndsKey(c[i + 6])
  {
    if ExportAt(c, i) {
      forall k | i <= k < i + 6 ensures !EndsKey(c[k]) {
        assert c[k] == c[i..i + 6][k - i] == "export"[k - i];
      }
    }
  }

  /** Where the key starts, and where it ends. */
  lemma KeyFound(p: Parts, c: string)
    requires ProperParts(p) && c == PartsText(p)
    ensures SkipBlanks(c, 0) == |p.indent| < |c| && c[|p.indent|] != '#'
    ensures KeyStart(c) == |Front(p)|
    ensures KeyEnd(c, |Front(p)|) == |Front(p)| + |p.key|
  {
    hide Spelled, ProperSpelling, ProperTail, SkipBlanks, KeyEnd, ExportAt, At, ProperKey, PartsText, Front, AllBlank;
    PartsStand(p, c);
    FrontStands(p, c);
    var i, ks := |p.indent|, |Front(p)|;
    AtBlanks(c, 0, p.indent);
    FirstVisible(p, c);
    BlanksSkipped(c, 0, i);
    ExportSeen(p, c);
    AtKey(c, ks, p.key);
    if p.exported.Some? {
      AtBlanks(c, i + 6, p.exported.value);
      BlanksSkipped(c, i + 6, ks);
    }
    KeyStops(p, c, ks + |p.key|);
    KeySkipped(c, ks, ks + |p.key|);
  }

  lemma KeyStops(p: Parts, c: string, ke: nat)
    requires AllBlank(p.before) && At(c, ke, p.before) && At(c, ke + |p.before|, "=")
    ensures ke < |c| && EndsKey(c[ke])
  {
    if p.before == "" {
      AtChar(c, ke, "=", 0);
    } else {
      AtChar(c, ke, p.before, 0);
    }
  }

  lemma KeyParsed(p: Parts, c: string)
    requires ProperParts(p) && c == PartsText(p)
    ensures ParseKey(c) == Some((p.key, |Head(p)|))
  {
    hide Spelled, ProperSpelling, ProperTail, SkipBlanks, KeyEnd, KeyStart, At, PartsText, Front, AllBlank;
    PartsStand(p, c);
    KeyFound(p, c);
    var ks := |Front(p)|;
    var eq, start := ks + |p.key| + |p.before|, |Head(p)|;
    AtChar(c, eq, "=", 0);
    AtBlanks(c, ks + |p.key|, p.before);
    BlanksSkipped(c, ks + |p.key|, eq);
    AtBlanks(c, eq + 1, p.after);
    ValueVisible(p, c);
    BlanksSkipped(c, eq + 1, start);
    KeyThere(c, ks, p.key);
  }

  lemma KeyThere(c: string, i: nat, s: string)
    requires At(c, i, s)
    ensures i + |s| <= |c| && c[i..i + |s|] == s
  {
  }

  lemma FirstVisible(p: Parts, c: string)
    requires ProperParts(p) && c == PartsText(p)
    ensures |p.indent| < |c| && !Blank(c[|p.indent|]) && c[|p.indent|] != '#'
  {
    hide Spelled, ProperSpelling, ProperTail;
    PartsStand(p, c);
    FrontStands(p, c);
    if p.exported.Some? {
      AtChar(c, |p.indent|, "export", 0);
    } else {
      AtKey(c, |p.indent|, p.key);
    }
  }

  lemma ValueVisible(p: Parts, c: string)
    requires ProperParts(p) && c == PartsText(p)
    ensures var start := |Head(p)|; start <= |c| && (start < |c| ==> !Blank(c[start]))
  {
    hide Head, ProperKey, AllBlank, Spelled;
    var start, v := |Head(p)|, Spelled(p.value) + p.tail;
    assert c == Head(p) + v;
    ValueStarts(p.value, p.tail);
    assert v != "" ==> c[start] == v[0];
  }

  lemma ValueStarts(v: Spelling, tail: string)
    requires ProperSpelling(v) && ProperTail(v, tail)
    ensures Spelled(v) + tail != "" ==> !Blank((Spelled(v) + tail)[0])
  {
    var s := Spelled(v);
    assert s != "" ==> (s + tail)[0] == s[0];
    assert s == "" ==> s + tail == tail;
  }

  // ---- the value --------------------------------------------------------------------------------------------

  lemma PieceIsOne(p: Piece)
    requires ProperPiece(p)
    ensures var e := PieceText(p); (|e| == 1 && e[0] != '\\' && e[0] != '"') || (|e| == 2 && e[0] == '\\')
  {
  }

  /** Pieces are passed over, the escaped quote among them. */
  lemma {:induction false} PiecesPassed(c: string, i: nat, pieces: seq<Piece>)
    requires ProperPieces(pieces) && At(c, i, PiecesText(pieces))
    ensures DoubleEnd(c, i) == DoubleEnd(c, i + |PiecesText(pieces)|)
    decreases |pieces|
  {
    hide DoubleEnd, PieceText;
    if pieces != [] {
      var e, rest := PieceText(pieces[0]), PiecesText(pieces[1..]);
      AtParts(c, i, e, rest);
      PieceIsOne(pieces[0]);
      DoubleEndStep(c, i, e);
      PiecesPassed(c, i + |e|, pieces[1..]);
    }
  }

  lemma {:induction false} PiecesUnescaped(pieces: seq<Piece>)
    requires ProperPieces(pieces)
    ensures UnescapeDouble(PiecesText(pieces)) == PiecesMeaning(pieces)
    decreases |pieces|
  {
    hide UnescapeDouble, PieceText, PieceMeaning, ProperPiece;
    if pieces == [] {
      NothingUnescaped();
    } else {
      PiecesUnescaped(pieces[1..]);
      PieceUnescaped(pieces[0], PiecesText(pieces[1..]));
    }
  }

  lemma NothingUnescaped()
    ensures UnescapeDouble("") == ""
  {
  }

  lemma PieceUnescaped(p: Piece, rest: string)
    requires ProperPiece(p)
    ensures UnescapeDouble(PieceText(p) + rest) == PieceMeaning(p) + UnescapeDouble(rest)
  {
    var e := PieceText(p);
    assert (e + rest)[|e|..] == rest;
  }

  lemma {:induction false} LastPiece(pieces: seq<Piece>)
    requires ProperPieces(pieces) && pieces != [] && pieces[|pieces| - 1] != Escaped('"')
    ensures var s := PiecesText(pieces); s != "" && s[|s| - 1] != '"'
    decreases |pieces|
  {
    if |pieces| == 1 {
      assert pieces[1..] == [] && PiecesText(pieces) == PieceText(pieces[0]) + "";
      assert ProperPiece(pieces[0]);
    } else {
      LastPiece(pieces[1..]);
    }
  }

  lemma DoubleRead(c: string, start: nat, pieces: seq<Piece>, closed: bool)
    requires ProperPieces(pieces)
    requires closed ==> At(c, start, "\"" + PiecesText(pieces) + "\"")
    requires !closed ==> At(c, start, "\"" + PiecesText(pieces)) && start + 1 + |PiecesText(pieces)| == |c|
    requires !closed && pieces != [] ==> pieces[|pieces| - 1] != Escaped('"')
    ensures QuoteAt(c, start) == Double
    ensures var end := ValueEnd(c, start);
      && end == start + 1 + |PiecesText(pieces)| + (if closed then 1 else 0)
      && UnescapeDouble(StripQuotes(c[start..end], '"'))
         == (if closed then PiecesMeaning(pieces) else "\"" + PiecesMeaning(pieces))
  {
    hide PiecesText, UnescapeDouble, PiecesMeaning;
    var s := PiecesText(pieces);
    if closed {
      AtParts(c, start, "\"" + s, "\"");
      AtChar(c, start + 1 + |s|, "\"", 0);
    }
    AtParts(c, start, "\"", s);
    AtChar(c, start, "\"", 0);
    PiecesPassed(c, start + 1, pieces);
    PiecesUnescaped(pieces);
    var end := start + 1 + |s| + if closed then 1 else 0;
    assert ValueEnd(c, start) == end;
    if closed {
      assert c[start..end] == "\"" + s + "\"";
      assert StripQuotes(c[start..end], '"') == s;
    } else {
      assert c[start..end] == "\"" + s;
      if pieces != [] {
        LastPiece(pieces);
      } else {
        NoPieces();
      }
      assert StripQuotes(c[start..end], '"') == "\"" + s;
      QuoteKept(s);
    }
  }

  lemma NoPieces()
    ensures PiecesText([]) == ""
  {
  }

  lemma QuoteKept(s: string)
    ensures UnescapeDouble("\"" + s) == "\"" + UnescapeDouble(s)
  {
    assert ("\"" + s)[1..] == s;
  }

  lemma {:induction false} SinglePassed(c: string, i: nat, j: nat)
    requires i <= j <= |c| && (forall k | i <= k < j :: c[k] != '\'') && (j < |c| ==> c[j] == '\'')
    ensures SingleEnd(c, i) == if j < |c| then j + 1 else j
    decreases j - i
  {
    if i < j {
      SinglePassed(c, i + 1, j);
    }
  }

  lemma {:induction false} SingleRead(c: string, start: nat, text: string, closed: bool)
    requires '\'' !in text
    requires closed ==> At(c, start, "'" + text + "'")
    requires !closed ==> At(c, start, "'" + text) && start + 1 + |text| == |c|
    ensures QuoteAt(c, start) == Single
    ensures var end := ValueEnd(c, start);
      && end == start + 1 + |text| + (if closed then 1 else 0)
      && StripQuotes(c[start..end], '\'') == (if closed then text else "'" + text)
  {
    if closed {
      AtParts(c, start, "'" + text, "'");
      AtChar(c, start + 1 + |text|, "'", 0);
    }
    AtParts(c, start, "'", text);
    AtChar(c, start, "'", 0);
    forall k | start + 1 <= k < start + 1 + |text| ensures c[k] != '\'' {
      AtChar(c, start + 1, text, k - start - 1);
    }
    SinglePassed(c, start + 1, start + 1 + |text|);
    if closed {
      assert c[start..start + 2 + |text|] == "'" + text + "'";
    } else {
      assert c[start..] == "'" + text;
      assert text != "" ==> text[|text| - 1] in text;
    }
  }

  lemma {:induction false} UnquotedRead(c: string, start: nat, text: string, tail: string)
    requires ProperSpelling(Unquoted(text)) && ProperTail(Unquoted(text), tail)
    requires start <= |c| && c[start..] == text + tail
    ensures QuoteAt(c, start) == Bare && ValueEnd(c, start) == start + |text| && c[start..start + |text|] == text
  {
    hide BareStop, TrimBlanks;
    var end := start + |text|;
    assert c[start..end] == text && c[end..] == tail;
    assert forall k | start <= k < end :: c[k] == text[k - start];
    assert forall k | end <= k < |c| :: c[k] == tail[k - end];
    if text == "" {
      BareStopIs(c, start, start);
      NothingTrimmed(c, start);
    } else {
      UnquotedEnds(c, start, text, tail);
    }
  }

  lemma {:induction false} UnquotedEnds(c: string, start: nat, text: string, tail: string)
    requires ProperSpelling(Unquoted(text)) && ProperTail(Unquoted(text), tail) && text != ""
    requires start + |text| + |tail| == |c|
    requires forall k | start <= k < start + |text| :: c[k] == text[k - start]
    requires forall k | start + |text| <= k < |c| :: c[k] == tail[k - start - |text|]
    ensures TrimBlanks(c, start, BareStop(c, start, start)) == start + |text|
  {
    hide BareStop, TrimBlanks;
    var end := start + |text|;
    var stop := CommentStart(tail);
    forall k | start <= k < end + stop ensures !CommentAt(c, start, k) {
      if k < end && k > start {
        assert text[k - start] == '#' ==> text[k - start - 1] !in " \t";
      }
    }
    BareStopIs(c, start, end + stop);
    TrimBlanksIs(c, start, end + stop, end);
  }

  lemma NothingTrimmed(c: string, lo: nat)
    requires lo <= |c|
    ensures TrimBlanks(c, lo, lo) == lo
  {
  }

  lemma CommentStart(tail: string) returns (n: nat)
    requires AllBlank(tail) || exists n | 0 < n < |tail| :: AllBlank(tail[..n]) && tail[n] == '#'
    ensures n <= |tail| && (forall k | 0 <= k < n :: Blank(tail[k])) && (n < |tail| ==> n > 0 && tail[n] == '#')
  {
    if AllBlank(tail) {
      n := |tail|;
    } else {
      n :| 0 < n < |tail| && AllBlank(tail[..n]) && tail[n] == '#';
      assert forall k | 0 <= k < n :: tail[..n][k] == tail[k];
    }
  }

  predicate SpelledAt(c: string, start: nat, v: Spelling, tail: string) {
    start <= |c| && c[start..] == Spelled(v) + tail
  }

  lemma SpellingRead(c: string, start: nat, v: Spelling, tail: string)
    requires ProperSpelling(v) && ProperTail(v, tail) && SpelledAt(c, start, v, tail)
    ensures var a := Assignment("", start, ValueEnd(c, start), QuoteAt(c, start));
      && a.end == start + |Spelled(v)|
      && ValueOf(c, a) == Meaning(v)
  {
    hide DoubleEnd, SingleEnd, BareStop, TrimBlanks, UnescapeDouble, StripQuotes, PiecesText, PiecesMeaning;
    var s := Spelled(v);
    assert c[start..start + |s|] == (s + tail)[..|s|] == s;
    assert At(c, start, s);
    match v
    case InDouble(pieces) => DoubleRead(c, start, pieces, true);
    case InSingle(text) => SingleRead(c, start, text, true);
    case Unquoted(text) => UnquotedRead(c, start, text, tail);
    case OpenDouble(pieces) => DoubleRead(c, start, pieces, false);
    case OpenSingle(text) => SingleRead(c, start, text, false);
  }

  /** A line written of parts is an assignment of the key, its value spelled where it was put and read as it is meant. */
  lemma PartsRead(p: Parts)
    requires ProperParts(p)
    ensures var c := PartsText(p);
      && ParseLine(c) == Some(Assignment(p.key, |Head(p)|, |Head(p)| + |Spelled(p.value)|, QuoteAt(c, |Head(p)|)))
      && |Head(p)| + |Spelled(p.value)| <= |c|
      && ValueOf(c, ParseLine(c).value) == Meaning(p.value)
  {
    hide ParseKey, ValueEnd, QuoteAt, Spelled, Meaning, ProperSpelling, ProperTail, UnescapeDouble, StripQuotes, Head;
    var c := PartsText(p);
    KeyParsed(p, c);
    assert c[|Head(p)|..] == Spelled(p.value) + p.tail;
    SpellingRead(c, |Head(p)|, p.value, p.tail);
  }

  // ---- lines that assign nothing -------------------------------------------------------------------------

  /** A line: an assignment, a comment, blanks, a word with no `=` behind it, or `=` with no key before it. */
  datatype EnvLine =
    | Assigning(parts: Parts) | Comment(indent: string, note: string) | Empty(indent: string)
    | Word(indent: string, word: string, blanks: string, rest: string) | Nameless(indent: string, rest: string)

  predicate ProperLine(line: EnvLine) {
    match line
    case Assigning(parts) => ProperParts(parts)
    case Comment(indent, note) => AllBlank(indent) && '\n' !in note
    case Empty(indent) => AllBlank(indent)
    case Word(indent, word, blanks, rest) =>
      && AllBlank(indent) && ProperKey(word) && word != "export" && AllBlank(blanks) && '\n' !in rest
      && (rest != "" ==> rest[0] !in "= \t" && (blanks == "" ==> rest[0] in "#\r"))
    case Nameless(indent, rest) => AllBlank(indent) && '\n' !in rest
  }

  function LineText(line: EnvLine): string {
    match line
    case Assigning(parts) => PartsText(parts)
    case Comment(indent, note) => indent + "#" + note
    case Empty(indent) => indent
    case Word(indent, word, blanks, rest) => indent + word + blanks + rest
    case Nameless(indent, rest) => indent + "=" + rest
  }

  lemma BlankFront(c: string, indent: string, rest: string)
    requires c == indent + rest && AllBlank(indent) && (rest != "" ==> !Blank(rest[0]))
    ensures SkipBlanks(c, 0) == |indent|
    ensures forall k | 0 <= k < |rest| :: c[|indent| + k] == rest[k]
  {
    forall k | 0 <= k < |indent| ensures Blank(c[k]) {
      assert c[k] == indent[k];
    }
    assert rest != "" ==> c[|indent|] == rest[0];
    BlanksSkipped(c, 0, |indent|);
  }

  lemma NamelessReads(indent: string, rest: string)
    requires AllBlank(indent)
    ensures ParseLine(indent + "=" + rest) == None
  {
    hide SkipBlanks;
    var c, i := indent + "=" + rest, |indent|;
    assert c == indent + ("=" + rest);
    BlankFront(c, indent, "=" + rest);
    assert c[i] == '=';
    ExportLetters(c, i);
    assert !ExportAt(c, i);
    KeySkipped(c, i, i);
  }

  lemma WordReads(indent: string, word: string, blanks: string, rest: string)
    requires ProperLine(Word(indent, word, blanks, rest))
    ensures ParseLine(indent + word + blanks + rest) == None
  {
    hide SkipBlanks, KeyEnd, ExportAt, KeyStart, At, AllBlank, ProperKey;
    var c, i := indent + word + blanks + rest, |indent|;
    var ke := i + |word|;
    WordStands(c, indent, word, blanks, rest);
    AtKey(c, i, word);
    AtBlanks(c, 0, indent);
    AtBlanks(c, ke, blanks);
    BlanksSkipped(c, 0, i);
    WordIsNotExport(c, i, word);
    KeyStartHere(c, i);
    WordSkipped(c, i, ke);
    BlanksSkipped(c, ke, ke + |blanks|);
  }

  lemma KeyStartHere(c: string, i: nat)
    requires SkipBlanks(c, 0) == i && !ExportAt(c, i)
    ensures KeyStart(c) == i
  {
  }

  lemma WordStands(c: string, indent: string, word: string, blanks: string, rest: string)
    requires ProperLine(Word(indent, word, blanks, rest)) && c == indent + word + blanks + rest
    ensures AllBlank(indent) && AllBlank(blanks) && ProperKey(word) && word != "export"
    ensures At(c, 0, indent) && At(c, |indent|, word) && At(c, |indent| + |word|, blanks)
    ensures var ke := |indent| + |word|;
      && ke + |blanks| <= |c| && (ke < |c| ==> EndsKey(c[ke]))
      && (ke + |blanks| < |c| ==> c[ke + |blanks|] !in "= \t")
  {
    hide ProperKey;
    var ke := |indent| + |word|;
    assert c[..|indent|] == indent;
    assert c[ke + |blanks|..] == rest;
    if blanks != "" {
      assert c[ke] == blanks[0];
    } else if rest != "" {
      assert c[ke] == rest[0];
    }
  }

  lemma WordIsNotExport(c: string, i: nat, word: string)
    requires At(c, i, word) && ProperKey(word) && word != "export"
    requires i + |word| < |c| ==> EndsKey(c[i + |word|])
    ensures !ExportAt(c, i)
  {
    AtKey(c, i, word);
    ExportLetters(c, i);
    assert |word| == 6 ==> c[i..i + 6] == word;
  }

  lemma {:induction false} WordSkipped(c: string, i: nat, j: nat)
    requires i <= j <= |c| && (j < |c| ==> EndsKey(c[j])) && forall k | i <= k < j :: !EndsKey(c[k])
    ensures KeyEnd(c, i) == j
    decreases j - i
  {
    if i < j {
      WordSkipped(c, i + 1, j);
    }
  }

  lemma OthersRead(line: EnvLine)
    requires ProperLine(line) && !line.Assigning?
    ensures ParseLine(LineText(line)) == None
  {
    match line
    case Comment(indent, note) =>
      assert LineText(line) == indent + ("#" + note);
      BlankFront(LineText(line), indent, "#" + note);
    case Empty(indent) =>
      assert indent == indent + "";
      BlankFront(indent, indent, "");
    case Word(indent, word, blanks, rest) => WordReads(indent, word, blanks, rest);
    case Nameless(indent, rest) => NamelessReads(indent, rest);
  }

  // ---- a text of such lines ----------------------------------------------------------------------------------

  datatype Row = Row(line: EnvLine, ending: string)

  /** Every row is ended; only the last, unless it is empty, need not be. */
  predicate ProperRow(row: Row, last: bool) {
    && ProperLine(row.line) && '\n' !in LineText(row.line)
    && (LineText(row.line) != "" ==> LineText(row.line)[|LineText(row.line)| - 1] != '\r')
    && (row.ending in ["\n", "\r\n"] || (last && row.ending == "" && LineText(row.line) != ""))
  }

  predicate ProperRows(rows: seq<Row>) {
    forall i | 0 <= i < |rows| :: ProperRow(rows[i], i == |rows| - 1)
  }

  function RowText(row: Row): string {
    LineText(row.line) + row.ending
  }

  function RowTexts(rows: seq<Row>): (texts: seq<string>)
    ensures |texts| == |rows| && forall i | 0 <= i < |rows| :: texts[i] == RowText(rows[i])
  {
    seq(|rows|, i requires 0 <= i < |rows| => RowText(rows[i]))
  }

  function AllText(rows: seq<Row>): string {
    Concat(RowTexts(rows))
  }

  predicate Gives(row: Row, key: string) {
    row.line.Assigning? && row.line.parts.key == key
  }

  /** What the last row that assigns the key means by its value. */
  function LastGiven(rows: seq<Row>, key: string): Option<string> {
    if rows == [] then None
    else
      var last := rows[|rows| - 1];
      if Gives(last, key) then Some(Meaning(last.line.parts.value)) else LastGiven(rows[..|rows| - 1], key)
  }

  /** The rows that assign none of the keys. */
  function Without(rows: seq<Row>, keys: seq<string>): seq<Row> {
    if rows == [] then []
    else
      var last := rows[|rows| - 1];
      Without(rows[..|rows| - 1], keys)
      + if last.line.Assigning? && last.line.parts.key in keys then [] else [last]
  }

  lemma RowRead(row: Row, last: bool)
    requires ProperRow(row, last)
    ensures IsLine(RowText(row)) && SplitLineEnd(RowText(row)) == (LineText(row.line), row.ending)
    ensures row.ending != "" ==> Terminated(RowText(row))
    ensures row.line.Assigning? ==> ParseLine(LineText(row.line)).Some? && ParseLine(LineText(row.line)).value.key == row.line.parts.key
                                    && ReadLine(RowText(row)) == Meaning(row.line.parts.value)
    ensures !row.line.Assigning? ==> ParseLine(LineText(row.line)) == None
    ensures forall key :: Assigns(RowText(row), key) <==> Gives(row, key)
  {
    hide ParseLine, PartsText, Meaning, ProperLine, ProperParts;
    ContentOf(LineText(row.line), row.ending);
    LineIsLine(LineText(row.line), row.ending);
    if row.line.Assigning? {
      LineIsParts(row.line);
      PartsRead(row.line.parts);
    } else {
      OthersRead(row.line);
    }
  }

  lemma LineIsParts(line: EnvLine)
    requires line.Assigning? && ProperLine(line)
    ensures ProperParts(line.parts) && LineText(line) == PartsText(line.parts)
  {
  }

  lemma LineIsLine(content: string, ending: string)
    requires '\n' !in content && (ending in ["\n", "\r\n"] || (ending == "" && content != ""))
    ensures IsLine(content + ending) && (ending != "" ==> Terminated(content + ending))
  {
    var s := content + ending;
    assert forall k | 0 <= k < |content| :: s[k] == content[k];
    assert forall k | 0 <= k < |s| - 1 :: s[..|s| - 1][k] == s[k];
  }

  lemma RowsSplit(rows: seq<Row>)
    requires ProperRows(rows)
    ensures LinesOk(RowTexts(rows)) && Lines(AllText(rows)) == RowTexts(rows)
  {
    hide Lines, Concat, ProperRow, IsLine, Terminated, RowText, SplitLineEnd, Meaning;
    forall i | 0 <= i < |rows|
      ensures IsLine(RowTexts(rows)[i]) && (i < |rows| - 1 ==> Terminated(RowTexts(rows)[i]))
    {
      RowRead(rows[i], i == |rows| - 1);
      InnerIsEnded(rows[i], i == |rows| - 1);
    }
    LinesOfConcat(RowTexts(rows));
  }

  lemma InnerIsEnded(row: Row, last: bool)
    requires ProperRow(row, last)
    ensures row.ending == "" ==> last
  {
  }

  lemma {:induction false} RowsRead(rows: seq<Row>, key: string)
    requires forall r | r in rows :: ProperRow(r, true)
    ensures GetLines(RowTexts(rows), key) == LastGiven(rows, key)
  {
    hide ProperRow, RowText, Meaning, GetLines, Assigns, ReadLine, Gives, SplitLineEnd, ParseLine;
    if rows == [] {
      NothingRead(key);
    } else {
      var n := |rows| - 1;
      assert rows[n] in rows;
      RowsRead(rows[..n], key);
      RowRead(rows[n], true);
      GivesIs(rows[n], key);
      GetAppend(RowTexts(rows[..n]), RowText(rows[n]), key);
      assert RowTexts(rows) == RowTexts(rows[..n]) + [RowText(rows[n])];
    }
  }

  lemma NothingRead(key: string)
    ensures GetLines([], key) == None
  {
  }

  lemma GivesIs(row: Row, key: string)
    ensures Gives(row, key) ==> row.line.Assigning?
  {
  }

  lemma ProperAlone(rows: seq<Row>)
    requires ProperRows(rows)
    ensures forall r | r in rows :: ProperRow(r, true)
  {
    hide ProperLine, LineText;
  }

  /** With or without a byte order mark, `get` finds what the last assignment of the key means. */
  lemma TextRead(mark: string, rows: seq<Row>, key: string)
    requires ProperRows(rows) && mark in ["", [BOM]] && (mark == "" ==> AllText(rows) == "" || AllText(rows)[0] != BOM)
    ensures Get(mark + AllText(rows), key) == LastGiven(rows, key)
  {
    hide AllText, GetLines, Lines, LastGiven, ProperRow;
    Unmarked(mark, AllText(rows));
    RowsSplit(rows);
    ProperAlone(rows);
    RowsRead(rows, key);
  }

  lemma Unmarked(mark: string, text: string)
    requires mark in ["", [BOM]] && (mark == "" ==> text == "" || text[0] != BOM)
    ensures SplitBom(mark + text) == (mark, text)
  {
    if mark == "" {
      assert mark + text == text;
    } else {
      assert (mark + text)[1..] == text;
    }
  }

  lemma {:induction false} RowsDeleted(rows: seq<Row>, keys: seq<string>)
    requires forall r | r in rows :: ProperRow(r, true)
    ensures DelLines(RowTexts(rows), keys) == RowTexts(Without(rows, keys))
  {
    hide ProperRow, RowText, RowTexts, Meaning, ParseLine, ReadLine, DelLines, Removed;
    if rows == [] {
      NothingDeleted(keys);
    } else {
      var n := |rows| - 1;
      var last := rows[n];
      assert last in rows;
      RowsDeleted(rows[..n], keys);
      RowRemoved(last, keys);
      DelLinesStep(RowTexts(rows[..n]), RowText(last), keys);
      TextsMore(rows[..n], last);
      assert rows == rows[..n] + [last];
      TextsMore(Without(rows[..n], keys), last);
    }
  }

  lemma NothingDeleted(keys: seq<string>)
    ensures DelLines(RowTexts([]), keys) == RowTexts([])
  {
  }

  lemma TextsMore(rows: seq<Row>, row: Row)
    ensures RowTexts(rows + [row]) == RowTexts(rows) + [RowText(row)]
    ensures rows + [] == rows && RowTexts(rows) + [] == RowTexts(rows)
  {
    hide RowText;
  }

  lemma RowRemoved(row: Row, keys: seq<string>)
    requires ProperRow(row, true)
    ensures Removed(RowText(row), keys) <==> row.line.Assigning? && row.line.parts.key in keys
  {
    hide ProperRow, LineText, Meaning, ParseLine;
    RowRead(row, true);
  }

  /** `del` drops the rows that assign one of the keys, and keeps every other character. */
  lemma TextDeleted(mark: string, rows: seq<Row>, keys: seq<string>)
    requires ProperRows(rows) && mark in ["", [BOM]] && (mark == "" ==> AllText(rows) == "" || AllText(rows)[0] != BOM)
    ensures Del(mark + AllText(rows), keys) == mark + AllText(Without(rows, keys))
  {
    hide DelLines, Lines, Without, ProperRow, Concat;
    Unmarked(mark, AllText(rows));
    RowsSplit(rows);
    ProperAlone(rows);
    RowsDeleted(rows, keys);
  }

  // ---- writing -----------------------------------------------------------------------------------------------

  /** The escapes that are written: control characters by a letter, backslash and double quote by themselves. */
  function PiecesFor(raw: string): (pieces: seq<Piece>)
    ensures |pieces| == |raw|
    ensures forall i | 0 <= i < |raw| ::
      pieces[i] == (if raw[i] == '\n' then Escaped('n') else if raw[i] == '\r' then Escaped('r')
                    else if raw[i] == '\t' then Escaped('t') else if raw[i] in "\\\"" then Escaped(raw[i]) else Plain(raw[i]))
  {
    seq(|raw|, i requires 0 <= i < |raw| =>
      (if raw[i] == '\n' then Escaped('n') else if raw[i] == '\r' then Escaped('r')
       else if raw[i] == '\t' then Escaped('t') else if raw[i] in "\\\"" then Escaped(raw[i]) else Plain(raw[i])))
  }

  /** The new value in the quotes the old one had, where it can stand in them. */
  function Respelled(v: Spelling, raw: string): Spelling {
    match v
    case InDouble(_) => InDouble(PiecesFor(raw))
    case OpenDouble(_) => InDouble(PiecesFor(raw))
    case InSingle(_) => if exists c | c in raw :: c in "'\n\r" then InDouble(PiecesFor(raw)) else InSingle(raw)
    case OpenSingle(_) => if exists c | c in raw :: c in "'\n\r" then InDouble(PiecesFor(raw)) else InSingle(raw)
    case Unquoted(_) =>
      if raw == "" || exists c | c in raw :: Whitespace(c) || c in "#\"'\\" then InDouble(PiecesFor(raw)) else Unquoted(raw)
  }

  lemma {:induction false} PiecesSpelled(raw: string)
    ensures PiecesText(PiecesFor(raw)) == EscapeDouble(raw)
  {
    if raw != "" {
      PiecesSpelled(raw[1..]);
      assert PiecesFor(raw)[1..] == PiecesFor(raw[1..]);
    }
  }

  function QuoteOf(v: Spelling): Quote {
    match v
    case InDouble(_) => Double
    case OpenDouble(_) => Double
    case InSingle(_) => Single
    case OpenSingle(_) => Single
    case Unquoted(_) => Bare
  }

  lemma NewValueSpelled(v: Spelling, raw: string)
    ensures NewValueText(QuoteOf(v), raw) == Spelled(Respelled(v, raw))
  {
    hide NeedsQuotes, EscapeDouble, PiecesText, PiecesFor, Whitespace;
    PiecesSpelled(raw);
    NeedsQuotesIs(raw);
  }

  lemma NeedsQuotesIs(raw: string)
    ensures NeedsQuotes(raw) <==> raw == "" || exists c | c in raw :: Whitespace(c) || c in "#\"'\\"
  {
    hide Whitespace;
    if k: nat :| k < |raw| && (Whitespace(raw[k]) || raw[k] in "#\"'\\") {
      assert raw[k] in raw;
    }
  }

  lemma QuoteSeen(c: string, start: nat, v: Spelling, tail: string)
    requires ProperSpelling(v) && ProperTail(v, tail) && SpelledAt(c, start, v, tail)
    ensures QuoteAt(c, start) == QuoteOf(v)
  {
    var s := Spelled(v) + tail;
    assert s != "" ==> c[start] == s[0];
  }

  /** The line with its value spelled anew, everything else as it was. */
  lemma PartsRewritten(p: Parts, raw: string)
    requires ProperParts(p)
    ensures ParseLine(PartsText(p)).Some?
    ensures ReplaceValue(PartsText(p), ParseLine(PartsText(p)).value, raw) == PartsText(p.(value := Respelled(p.value, raw)))
  {
    hide ParseLine, QuoteAt, Spelled, Meaning, ProperSpelling, ProperTail, NewValueText, Respelled, Head, ValueOf;
    var c := PartsText(p);
    var head, v := Head(p), Spelled(p.value);
    PartsRead(p);
    assert c == head + (v + p.tail);
    assert c[|head|..] == v + p.tail;
    QuoteSeen(c, |head|, p.value, p.tail);
    NewValueSpelled(p.value, raw);
    SameHead(p, Respelled(p.value, raw));
    assert c[..|head|] == head && c[|head| + |v|..] == p.tail;
  }

  lemma SameHead(p: Parts, v: Spelling)
    ensures Head(p.(value := v)) == Head(p)
  {
  }

  predicate GivesLast(rows: seq<Row>, i: nat, key: string) {
    i < |rows| && Gives(rows[i], key) && forall j | i < j < |rows| :: !Gives(rows[j], key)
  }

  /** `set` of a key that is assigned: the value of its last row is spelled anew, every other character stays. */
  lemma TextRewritten(mark: string, rows: seq<Row>, kv: KV, i: nat)
    requires ProperRows(rows) && mark in ["", [BOM]] && (mark == "" ==> AllText(rows) == "" || AllText(rows)[0] != BOM)
    requires GivesLast(rows, i, kv.path)
    ensures var p := rows[i].line.parts;
      Set(mark + AllText(rows), [kv])
      == mark + AllText(rows[i := Row(Assigning(p.(value := Respelled(p.value, RawValue(kv.value)))), rows[i].ending)])
  {
    hide Lines, Concat, SetLines, ParseLine, ProperRow, RowText, Respelled, NewlineStyle, Meaning, PartsText, SplitLineEnd;
    var text, raw := AllText(rows), RawValue(kv.value);
    Unmarked(mark, text);
    RowsSplit(rows);
    SetOneLines(RowTexts(rows), kv, NewlineStyle(text));
    LastRow(rows, i, kv.path);
    RowRewritten(rows[i], i == |rows| - 1, raw);
    var p := rows[i].line.parts;
    var row := Row(Assigning(p.(value := Respelled(p.value, raw))), rows[i].ending);
    assert RowTexts(rows[i := row]) == RowTexts(rows)[i := RowText(row)];
  }

  lemma LastRow(rows: seq<Row>, i: nat, key: string)
    requires ProperRows(rows) && GivesLast(rows, i, key)
    ensures LastAssignment(RowTexts(rows), key) == Some(i)
  {
    hide ParseLine, ProperRow, RowText, Meaning, SplitLineEnd, Gives, Assigns;
    forall j | 0 <= j < |rows| ensures Assigns(RowTexts(rows)[j], key) <==> Gives(rows[j], key) {
      RowRead(rows[j], j == |rows| - 1);
    }
    LastWhereIs(RowTexts(rows), (line: string) => Assigns(line, key), i);
  }

  lemma RowRewritten(row: Row, last: bool, raw: string)
    requires ProperRow(row, last) && row.line.Assigning?
    ensures ParseLine(Content(RowText(row))).Some?
    ensures var p := row.line.parts;
      ReplaceInLine(RowText(row), raw) == RowText(Row(Assigning(p.(value := Respelled(p.value, raw))), row.ending))
  {
    hide ParseLine, Meaning, Respelled, PartsText, ProperParts, ReplaceValue, SplitLineEnd;
    RowRead(row, last);
    LineIsParts(row.line);
    PartsRewritten(row.line.parts, raw);
  }

  /** `set` of a key that is not: the last line is ended, and a line is added. */
  lemma TextExtended(mark: string, rows: seq<Row>, kv: KV)
    requires ProperRows(rows) && mark in ["", [BOM]] && (mark == "" ==> AllText(rows) == "" || AllText(rows)[0] != BOM)
    requires forall i | 0 <= i < |rows| :: !Gives(rows[i], kv.path)
    ensures var newline := if exists i | 0 <= i < |rows| :: rows[i].ending == "\r\n" then "\r\n" else "\n";
      var ended := rows == [] || rows[|rows| - 1].ending != "";
      var raw := if kv.value.Null? then "" else kv.value.text;
      Set(mark + AllText(rows), [kv])
      == mark + AllText(rows) + (if ended then "" else newline)
         + kv.path + "=" + Spelled(Respelled(Unquoted(""), raw)) + newline
  {
    hide Lines, Concat, SetLines, ParseLine, ProperRow, RowText, Respelled, NewlineStyle, AllText, QuoteEnv, NewValueText,
      SplitBom, Set, LastAssignment, Spelled, Gives, Terminated;
    var text, raw := AllText(rows), RawValue(kv.value);
    Unmarked(mark, text);
    RowsSplit(rows);
    NoRow(rows, kv.path);
    SetAppendsLine(mark + text, kv);
    NewValueSpelled(Unquoted(""), raw);
    BareValue(raw);
    StyleOfRows(rows);
    EndOfRows(rows);
    var newline, value := NewlineStyle(text), QuoteEnv(raw);
    var end := if text == "" || Terminated(text) then "" else newline;
    assert AppendedLine(kv.path, raw, newline) == kv.path + "=" + value + newline;
    Regrouped(mark + text + end, kv.path, value, newline);
  }

  lemma Regrouped(front: string, key: string, value: string, newline: string)
    ensures front + (key + "=" + value + newline) == front + key + "=" + value + newline
  {
  }

  lemma BareValue(raw: string)
    ensures NewValueText(Bare, raw) == QuoteEnv(raw)
  {
  }

  lemma NoRow(rows: seq<Row>, key: string)
    requires ProperRows(rows) && forall i | 0 <= i < |rows| :: !Gives(rows[i], key)
    ensures LastAssignment(RowTexts(rows), key) == None
  {
    hide ParseLine, ProperRow, RowText, Meaning, SplitLineEnd, Gives, Assigns;
    forall j | 0 <= j < |rows| ensures !Assigns(RowTexts(rows)[j], key) {
      RowRead(rows[j], j == |rows| - 1);
    }
    LastWhereNone(RowTexts(rows), (line: string) => Assigns(line, key));
  }

  lemma EndOfRows(rows: seq<Row>)
    requires ProperRows(rows)
    ensures (AllText(rows) == "" || Terminated(AllText(rows))) <==> (rows == [] || rows[|rows| - 1].ending != "")
  {
    hide Lines, Concat, ProperRow, RowText, SplitLineEnd, Meaning, ParseLine;
    if rows == [] {
      ConcatStep(RowTexts(rows));
    } else {
      var n := |rows| - 1;
      RowRead(rows[n], true);
      RowEnd(rows[n]);
      ConcatAppend(RowTexts(rows[..n]), [RowText(rows[n])]);
      assert RowTexts(rows) == RowTexts(rows[..n]) + [RowText(rows[n])];
      ConcatStep([RowText(rows[n])]);
      ConcatStep([RowText(rows[n])][1..]);
      assert AllText(rows) == Concat(RowTexts(rows[..n])) + RowText(rows[n]);
    }
  }

  lemma RowEnd(row: Row)
    requires ProperRow(row, true)
    ensures RowText(row) != "" && (RowText(row)[|RowText(row)| - 1] == '\n' <==> row.ending != "")
  {
    hide LineText;
    var s := LineText(row.line);
    if row.ending == "" {
      assert RowText(row) == s && s[|s| - 1] in s;
    }
  }

  /** A text counts as written with carriage returns as soon as one of its lines is. */
  lemma {:induction false} StyleOfRows(rows: seq<Row>)
    requires ProperRows(rows)
    ensures NewlineStyle(AllText(rows)) == if exists i | 0 <= i < |rows| :: rows[i].ending == "\r\n" then "\r\n" else "\n"
  {
    hide ProperRow, Concat;
    ProperAlone(rows);
    CrLfInRows(rows);
  }

  lemma {:induction false} CrLfInRows(rows: seq<Row>)
    requires forall r | r in rows :: ProperRow(r, true)
    ensures ContainsCrLf(AllText(rows)) <==> exists i | 0 <= i < |rows| :: rows[i].ending == "\r\n"
    decreases |rows|
  {
    hide ProperRow, RowText, Concat, ContainsCrLf;
    ConcatStep(RowTexts(rows));
    if rows == [] {
      NoCrLf();
    } else {
      assert rows[0] in rows;
      CrLfInRows(rows[1..]);
      RowEnd(rows[0]);
      RowCrLf(rows[0]);
      assert RowTexts(rows)[1..] == RowTexts(rows[1..]);
      assert forall i | 0 < i < |rows| :: rows[i] == rows[1..][i - 1];
      CrLfJoined(RowText(rows[0]), AllText(rows[1..]));
    }
  }

  lemma NoCrLf()
    ensures !ContainsCrLf("")
  {
  }

  lemma RowCrLf(row: Row)
    requires ProperRow(row, true)
    ensures ContainsCrLf(RowText(row)) <==> row.ending == "\r\n"
    ensures RowText(row)[|RowText(row)| - 1] != '\r'
  {
    hide ProperLine, LineText;
    var s, c := RowText(row), LineText(row.line);
    assert forall k | 0 <= k < |c| :: s[k] == c[k] && c[k] in c;
    if row.ending == "\r\n" {
      assert s[|c|] == '\r' && s[|c| + 1] == '\n';
    }
  }

  lemma CrLfJoined(a: string, b: string)
    requires a != "" && a[|a| - 1] != '\r'
    ensures ContainsCrLf(a + b) <==> ContainsCrLf(a) || ContainsCrLf(b)
  {
    var s := a + b;
    assert forall k | 0 <= k < |b| :: s[|a| + k] == b[k];
    if ContainsCrLf(b) {
      var k :| 0 <= k < |b| - 1 && b[k] == '\r' && b[k + 1] == '\n';
      assert s[|a| + k] == '\r' && s[|a| + k + 1] == '\n';
    }
    if ContainsCrLf(a) {
      var k :| 0 <= k < |a| - 1 && a[k] == '\r' && a[k + 1] == '\n';
      assert s[k] == '\r' && s[k + 1] == '\n';
    }
    if ContainsCrLf(s) {
      var k :| 0 <= k < |s| - 1 && s[k] == '\r' && s[k + 1] == '\n';
      if k >= |a| {
        assert b[k - |a|] == '\r' && b[k - |a| + 1] == '\n';
      } else {
        assert a[k] == '\r' && k + 1 < |a| && a[k + 1] == '\n';
      }
    }
  }
}
