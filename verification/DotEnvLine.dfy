/** What rewriting the value of one dotenv line does to how that line reads. */
module DotEnvLine {
  import opened Text
  import opened DotEnv

  // ---- escaping ---------------------------------------------------------------

  lemma UnescapeOne(ch: char, rest: string)
    ensures UnescapeDouble(EscapeChar(ch) + rest) == [ch] + UnescapeDouble(rest)
  {
    var e := EscapeChar(ch);
    assert (e + rest)[|e|..] == rest;
    assert forall k | 0 <= k < |e| :: (e + rest)[k] == e[k];
  }

  lemma {:induction false} UnescapeEscape(raw: string)
    ensures UnescapeDouble(EscapeDouble(raw)) == raw
  {
    hide EscapeChar;
    if raw != "" {
      UnescapeEscape(raw[1..]);
      UnescapeOne(raw[0], EscapeDouble(raw[1..]));
      assert raw == [raw[0]] + raw[1..];
    }
  }

  lemma EscapeShape(ch: char)
    ensures var e := EscapeChar(ch);
      (e == [ch] && ch != '\\' && ch != '"') || (|e| == 2 && e[0] == '\\')
  {
  }

  /** Both characters of an escape are passed over, and so is any other character but a quote. */
  lemma DoubleEndStep(c: string, i: nat, e: string)
    requires i + |e| <= |c| && c[i..i + |e|] == e
    requires (|e| == 1 && e[0] != '\\' && e[0] != '"') || (|e| == 2 && e[0] == '\\')
    ensures DoubleEnd(c, i) == DoubleEnd(c, i + |e|)
  {
    assert c[i] == c[i..i + |e|][0];
  }

  lemma SpanParts(c: string, i: nat, e: string, rest: string)
    requires i + |e + rest| <= |c| && c[i..i + |e + rest|] == e + rest
    ensures c[i..i + |e|] == e && c[i + |e|..i + |e| + |rest|] == rest
  {
    var span := c[i..i + |e + rest|];
    assert span[..|e|] == c[i..i + |e|] && (e + rest)[..|e|] == e;
    assert span[|e|..] == c[i + |e|..i + |e| + |rest|] && (e + rest)[|e|..] == rest;
  }

  /** The scanner stops at exactly the quote that closes an escaped text. */
  lemma {:induction false} ScanEscaped(c: string, i: nat, raw: string)
    requires i + |EscapeDouble(raw)| < |c|
    requires c[i..i + |EscapeDouble(raw)|] == EscapeDouble(raw)
    requires c[i + |EscapeDouble(raw)|] == '"'
    ensures DoubleEnd(c, i) == i + |EscapeDouble(raw)| + 1
    decreases |raw|
  {
    hide EscapeChar;
    if raw != "" {
      hide DoubleEnd;
      var e, rest := EscapeChar(raw[0]), EscapeDouble(raw[1..]);
      SpanParts(c, i, e, rest);
      EscapeShape(raw[0]);
      DoubleEndStep(c, i, e);
      ScanEscaped(c, i + |e|, raw[1..]);
    }
  }

  lemma {:induction false} EscapedHasNoBreaks(raw: string)
    ensures '\n' !in EscapeDouble(raw) && '\r' !in EscapeDouble(raw)
  {
    if raw != "" {
      EscapedHasNoBreaks(raw[1..]);
    }
  }

  // ---- scanning a line that agrees with another up to its value -----------------

  predicate SamePrefix(c: string, d: string, n: nat) {
    n <= |c| && n <= |d| && forall k | 0 <= k < n :: c[k] == d[k]
  }

  lemma {:induction false} SkipBlanksSame(c: string, d: string, i: nat)
    requires i <= |c|
    requires SamePrefix(c, d, SkipBlanks(c, i))
    requires SkipBlanks(c, i) < |d| ==> !Blank(d[SkipBlanks(c, i)])
    ensures SkipBlanks(d, i) == SkipBlanks(c, i)
    decreases |c| - i
  {
    var j := SkipBlanks(c, i);
    if i < j {
      SkipBlanksSame(c, d, i + 1);
    }
  }

  lemma {:induction false} KeyEndSame(c: string, d: string, i: nat)
    requires i <= |c|
    requires SamePrefix(c, d, KeyEnd(c, i))
    requires KeyEnd(c, i) < |d| && EndsKey(d[KeyEnd(c, i)])
    ensures KeyEnd(d, i) == KeyEnd(c, i)
    decreases |c| - i
  {
    var j := KeyEnd(c, i);
    if i < j {
      KeyEndSame(c, d, i + 1);
    }
  }

  lemma KeyStartSame(c: string, d: string, eq: nat)
    requires KeyStart(c) <= eq < |c| && c[eq] == '='
    requires SamePrefix(c, d, eq + 1)
    ensures KeyStart(d) == KeyStart(c)
    ensures SkipBlanks(d, 0) == SkipBlanks(c, 0)
  {
    hide SkipBlanks;
    var i := SkipBlanks(c, 0);
    SkipBlanksSame(c, d, 0);
    if i + 6 < eq {
      assert c[i..i + 6] == d[i..i + 6];
    }
    if ExportAt(c, i) {
      assert c[i..i + 6] == d[i..i + 6];
      SkipBlanksSame(c, d, i + 6);
    } else if eq <= i + 6 < |d| {
      assert d[eq] == '=';
      assert eq < i + 6 ==> d[i..i + 6][eq - i] == '=';
      assert eq < i + 6 ==> d[i..i + 6][eq - i] != "export"[eq - i];
    }
  }

  /** Everything before the value decides the key and where the value starts. */
  lemma ParseKeySame(c: string, d: string)
    requires ParseKey(c).Some?
    requires SamePrefix(c, d, ParseKey(c).value.1)
    requires ParseKey(c).value.1 < |d| ==> !Blank(d[ParseKey(c).value.1])
    ensures ParseKey(d) == ParseKey(c)
  {
    hide KeyStart, KeyEnd, SkipBlanks;
    var ks := KeyStart(c);
    var ke := KeyEnd(c, ks);
    var eq := SkipBlanks(c, ke);
    KeyStartSame(c, d, eq);
    KeyEndSame(c, d, ks);
    SkipBlanksSame(c, d, ke);
    SkipBlanksSame(c, d, eq + 1);
    assert c[ks..ke] == d[ks..ke];
  }

  // ---- the value span after a rewrite --------------------------------------------

  /** The one case in which an added value swallows the comment behind it. */
  predicate Fuses(c: string, a: Assignment, raw: string)
    requires a.start <= a.end <= |c|
  {
    a.quote == Bare && a.start == a.end < |c| && !NeedsQuotes(raw)
  }

  lemma BareStopIs(c: string, start: nat, j: nat)
    requires start <= j <= |c|
    requires forall k | start <= k < j :: !CommentAt(c, start, k)
    requires j < |c| ==> CommentAt(c, start, j)
    ensures BareStop(c, start, start) == j
  {
  }

  lemma TrimBlanksIs(c: string, lo: nat, hi: nat, j: nat)
    requires lo < j <= hi <= |c|
    requires !Blank(c[j - 1])
    requires forall k | j <= k < hi :: Blank(c[k])
    ensures TrimBlanks(c, lo, hi) == j
  {
  }

  predicate Plain(raw: string) {
    raw != "" && forall k | 0 <= k < |raw| :: !Whitespace(raw[k]) && raw[k] !in "#\"'\\"
  }

  /** An unquoted value is read back exactly, whatever blanks and comment follow. */
  lemma {:induction false} BareReadsBack(c: string, start: nat, raw: string)
    requires start <= |c| && QuoteAt(c, start) == Bare
    requires start < |c| ==> !Blank(c[start])
    requires Plain(raw)
    requires ValueEnd(c, start) == start ==> start == |c|
    ensures var d := c[..start] + raw + c[ValueEnd(c, start)..];
      QuoteAt(d, start) == Bare && ValueEnd(d, start) == start + |raw|
  {
    hide BareStop, TrimBlanks, CommentAt, QuoteAt, Plain;
    var end, stop := ValueEnd(c, start), BareStop(c, start, start);
    var d := c[..start] + raw + c[end..];
    NoCommentMoved(c, d, start, raw, end, stop);
    var shift := |raw| - (end - start);
    BareStopIs(d, start, stop + shift);
    TrimBlanksIs(d, start, stop + shift, start + |raw|);
  }

  /** An unquoted value put in place of another: no comment starts inside, and the one behind moves along. */
  lemma NoCommentMoved(c: string, d: string, start: nat, raw: string, end: nat, stop: nat)
    requires start <= end <= stop <= |c| && d == c[..start] + raw + c[end..] && Plain(raw)
    requires if end == start then start == |c| else !Blank(c[end - 1])
    requires forall k | start <= k < stop :: !CommentAt(c, start, k)
    requires stop < |c| ==> CommentAt(c, start, stop)
    requires forall k | end <= k < stop :: Blank(c[k])
    ensures var to := stop + |raw| - (end - start);
      && to <= |d| && start < start + |raw| <= to && QuoteAt(d, start) == Bare && !Blank(d[start + |raw| - 1])
      && (forall k | start <= k < to :: !CommentAt(d, start, k))
      && (to < |d| ==> CommentAt(d, start, to))
      && (forall k | start + |raw| <= k < to :: Blank(d[k]))
  {
    var shift := |raw| - (end - start);
    assert forall k | start <= k < start + |raw| :: d[k] == raw[k - start];
    assert forall k | end <= k < |c| :: d[k + shift] == c[k];
    assert forall k | start + |raw| <= k < |d| :: d[k] == c[k - shift];
    forall k | start <= k < stop + shift ensures !CommentAt(d, start, k) {
      if k >= start + |raw| {
        assert !CommentAt(c, start, k - shift);
      }
    }
  }

  /** Fused with a comment, the value reads longer than what was written. */
  lemma FusedReadsLonger(c: string, start: nat, raw: string)
    requires start < |c| && QuoteAt(c, start) == Bare && !Blank(c[start])
    requires ValueEnd(c, start) == start
    requires Plain(raw)
    ensures var d := c[..start] + raw + c[start..];
      QuoteAt(d, start) == Bare && ValueEnd(d, start) > start + |raw|
  {
    var d := c[..start] + raw + c[start..];
    var n := start + |raw|;
    assert forall k | start <= k < n :: d[k] == raw[k - start];
    assert d[n] == c[start];
    var stop := BareStop(d, start, start);
    assert forall k | start <= k <= n :: !CommentAt(d, start, k);
    assert stop > n;
  }

  /** A double-quoted value is read back exactly, whatever follows it. */
  lemma DoubleReadsBack(head: string, raw: string, tail: string)
    ensures var d := head + Quoted(raw) + tail;
      && QuoteAt(d, |head|) == Double
      && ValueEnd(d, |head|) == |head| + |Quoted(raw)|
      && d[|head|..|head| + |Quoted(raw)|] == Quoted(raw)
      && UnescapeDouble(StripQuotes(Quoted(raw), '"')) == raw
  {
    var d, e := head + Quoted(raw) + tail, EscapeDouble(raw);
    assert d[|head|..|head| + |Quoted(raw)|] == Quoted(raw);
    assert d[|head| + 1..|head| + 1 + |e|] == e;
    assert d[|head| + 1 + |e|] == '"';
    ScanEscaped(d, |head| + 1, raw);
    UnescapeEscape(raw);
    assert StripQuotes(Quoted(raw), '"') == e;
  }

  lemma {:induction false} SingleEndIs(c: string, i: nat, j: nat)
    requires i <= j < |c| && c[j] == '\''
    requires forall k | i <= k < j :: c[k] != '\''
    ensures SingleEnd(c, i) == j + 1
    decreases j - i
  {
    if i < j {
      SingleEndIs(c, i + 1, j);
    }
  }

  lemma SingleReadsBack(head: string, raw: string, tail: string)
    requires '\'' !in raw
    ensures var d, q := head + ("'" + raw + "'") + tail, "'" + raw + "'";
      && QuoteAt(d, |head|) == Single
      && ValueEnd(d, |head|) == |head| + |q|
      && d[|head|..|head| + |q|] == q
      && StripQuotes(q, '\'') == raw
  {
    var d, q := head + ("'" + raw + "'") + tail, "'" + raw + "'";
    assert d[|head|..|head| + |q|] == q;
    assert forall k | |head| + 1 <= k < |head| + 1 + |raw| :: d[k] == raw[k - |head| - 1];
    SingleEndIs(d, |head| + 1, |head| + 1 + |raw|);
  }

  lemma ValueStartsSolid(c: string)
    requires ParseKey(c).Some?
    ensures var start := ParseKey(c).value.1; start < |c| ==> !Blank(c[start])
  {
    hide KeyStart, KeyEnd;
  }

  /** Rewriting a line's value keeps its key, and it reads back unless it fuses. */
  lemma ReplaceReadsBack(c: string, raw: string)
    requires ParseLine(c).Some?
    ensures var a := ParseLine(c).value;
      var d := ReplaceValue(c, a, raw);
      && ParseLine(d).Some?
      && ParseLine(d).value.key == a.key
      && (ValueOf(d, ParseLine(d).value) == raw <==> !Fuses(c, a, raw))
  {
    hide ParseKey, EscapeDouble, UnescapeDouble, StripQuotes, NeedsQuotes, SingleEnd, DoubleEnd, BareStop, TrimBlanks;
    var a := ParseLine(c).value;
    ValueStartsSolid(c);
    var text := NewValueText(a.quote, raw);
    var head, tail := c[..a.start], c[a.end..];
    var d := head + text + tail;
    NewValueIsSolid(a.quote, raw);
    assert d[a.start] == text[0];
    ParseKeySame(c, d);
    if text == Quoted(raw) {
      DoubleReadsBack(head, raw, tail);
    } else if a.quote == Single {
      SingleReadsBack(head, raw, tail);
    } else if Fuses(c, a, raw) {
      FusedReadsLonger(c, a.start, raw);
    } else {
      BareReadsBack(c, a.start, raw);
      assert d[a.start..a.start + |raw|] == raw;
    }
  }

  lemma NewValueIsSolid(quote: Quote, raw: string)
    ensures var text := NewValueText(quote, raw);
      && text != ""
      && !Blank(text[0])
      && '\n' !in text
      && text[|text| - 1] != '\r'
      && (text == Quoted(raw) || (quote == Single && text == "'" + raw + "'" && '\'' !in raw)
          || (quote == Bare && text == raw && Plain(raw) && !NeedsQuotes(raw)))
      && (quote == Bare && NeedsQuotes(raw) ==> text == Quoted(raw))
      && (quote == Bare && !NeedsQuotes(raw) ==> text == raw && Plain(raw))
  {
    EscapedHasNoBreaks(raw);
    if quote == Bare && !NeedsQuotes(raw) {
      assert forall k | 0 <= k < |raw| :: !Whitespace(raw[k]) && raw[k] !in "#\"'\\";
    }
  }

  // ---- a line that loses a final carriage return ---------------------------------

  lemma {:induction false} UnescapeAppend(s: string, ch: char)
    ensures |UnescapeDouble(s + [ch])| >= |UnescapeDouble(s)|
    ensures ch == '\r' ==> UnescapeDouble(s + [ch]) == UnescapeDouble(s) + [ch]
  {
    var t := s + [ch];
    if s == "" {
    } else if s[0] != '\\' {
      assert t[1..] == s[1..] + [ch];
      UnescapeAppend(s[1..], ch);
    } else if |s| > 1 {
      assert t[2..] == s[2..] + [ch];
      UnescapeAppend(s[2..], ch);
    } else {
      assert t[2..] == "";
    }
  }

  lemma {:induction false} DoubleEndDropCr(c: string, i: nat)
    requires c != "" && c[|c| - 1] == '\r' && i < |c|
    ensures DoubleEnd(c[..|c| - 1], i) == if DoubleEnd(c, i) == |c| then |c| - 1 else DoubleEnd(c, i)
    decreases |c| - i
  {
    if i < |c| - 1 && c[i] != '"' {
      var next := if c[i] == '\\' then i + 2 else i + 1;
      if next < |c| {
        DoubleEndDropCr(c, next);
      }
    }
  }

  lemma {:induction false} SingleEndDropCr(c: string, i: nat)
    requires c != "" && c[|c| - 1] == '\r' && i < |c|
    ensures SingleEnd(c[..|c| - 1], i) == if SingleEnd(c, i) == |c| then |c| - 1 else SingleEnd(c, i)
    decreases |c| - i
  {
    if i < |c| - 1 && c[i] != '\'' {
      SingleEndDropCr(c, i + 1);
    }
  }

  lemma ValueStartInside(c: string)
    requires c != "" && c[|c| - 1] == '\r' && ParseKey(c).Some?
    ensures ParseKey(c).value.1 < |c|
  {
    hide KeyStart, KeyEnd;
    var eq := SkipBlanks(c, KeyEnd(c, KeyStart(c)));
    assert c[eq] == '=';
    assert SkipBlanks(c, eq + 1) < |c|;
  }

  lemma {:induction false} ParseKeyDropCr(c: string)
    requires c != "" && c[|c| - 1] == '\r'
    ensures ParseKey(c[..|c| - 1]) == ParseKey(c)
    ensures ParseKey(c).Some? ==> ParseKey(c).value.1 < |c|
  {
    hide ParseKey;
    var d := c[..|c| - 1];
    if ParseKey(c).Some? {
      ValueStartInside(c);
      ValueStartsSolid(c);
      ParseKeySame(c, d);
    } else if ParseKey(d).Some? {
      ValueStartsSolid(d);
      ParseKeySame(d, c);
    }
  }

  lemma DropCrBare(c: string, start: nat)
    requires start < |c| && c[|c| - 1] == '\r' && QuoteAt(c, start) == Bare
    ensures var d := c[..|c| - 1];
      ValueEnd(c, start) < |c| ==> ValueEnd(d, start) == ValueEnd(c, start)
  {
    var d, stop := c[..|c| - 1], BareStop(c, start, start);
    assert forall k | start <= k < |d| :: CommentAt(d, start, k) == CommentAt(c, start, k);
    BareStopIs(d, start, if stop == |c| then |d| else stop);
    if start < ValueEnd(c, start) < |c| {
      TrimBlanksIs(d, start, stop, ValueEnd(c, start));
    }
  }

  lemma DropCrSpan(c: string, start: nat)
    requires start < |c| && c[|c| - 1] == '\r'
    ensures var d := c[..|c| - 1];
      && QuoteAt(d, start) == QuoteAt(c, start)
      && (ValueEnd(c, start) < |c| ==> ValueEnd(d, start) == ValueEnd(c, start))
      && (ValueEnd(c, start) == |c| && QuoteAt(c, start) != Bare ==> ValueEnd(d, start) == |d|)
  {
    match QuoteAt(c, start)
    case Double => DoubleEndDropCr(c, start + 1);
    case Single => SingleEndDropCr(c, start + 1);
    case Bare => DropCrBare(c, start);
  }

  lemma Stripped(s: string, q: char)
    ensures |StripQuotes(s, q)| <= |s|
    ensures s != "" && s[|s| - 1] != q ==> StripQuotes(s, q) == s
  {
  }

  /** The value's text without the final CR, if it reached that far. */
  lemma DropCrText(c: string, start: nat, end: nat, to: nat)
    requires c != "" && c[|c| - 1] == '\r' && start <= end <= |c| && start < |c| && start <= to <= |c| - 1
    requires end < |c| ==> to == end
    ensures var (x, y) := (c[start..end], c[..|c| - 1][start..to]);
      && (end < |c| ==> x == y)
      && (end == |c| ==> x != "" && x[|x| - 1] == '\r' && |y| < |x| && (to == |c| - 1 ==> x == y + "\r"))
      && (start < to ==> y != "" && y[0] == c[start])
  {
  }

  lemma {:induction false} DropCrValue(c: string, a: Assignment, b: Assignment)
    requires c != "" && c[|c| - 1] == '\r'
    requires a.start <= a.end <= |c| && a.start < |c| && b.end <= |c| - 1
    requires b.start == a.start <= b.end && b.quote == a.quote
    requires a.end < |c| ==> b.end == a.end
    requires a.end == |c| && a.quote != Bare ==> b.end == |c| - 1 && a.start < b.end
    requires a.quote == Double ==> c[a.start] == '"'
    ensures ValueOf(c[..|c| - 1], b) == ValueOf(c, a) <==> a.end < |c|
  {
    hide StripQuotes, UnescapeDouble;
    var d := c[..|c| - 1];
    var x, y := c[a.start..a.end], d[b.start..b.end];
    DropCrText(c, a.start, a.end, b.end);
    if a.end == |c| {
      if a.quote == Double {
        DropCrDouble(x, y);
      } else {
        Stripped(x, '\'');
        Stripped(y, '\'');
      }
    }
  }

  /** Dropping the final CR changes a value exactly when the value reaches it. */
  lemma DropCr(c: string)
    requires c != "" && c[|c| - 1] == '\r'
    requires ParseLine(c).Some?
    ensures var d := c[..|c| - 1];
      && ParseLine(d).Some?
      && ParseLine(d).value.key == ParseLine(c).value.key
      && (ValueOf(d, ParseLine(d).value) == ValueOf(c, ParseLine(c).value)
          <==> ParseLine(c).value.end < |c|)
  {
    ParseKeyDropCr(c);
    DropCrSpan(c, ParseKey(c).value.1);
    DropCrValue(c, ParseLine(c).value, ParseLine(c[..|c| - 1]).value);
  }

  lemma DropCrDouble(x: string, y: string)
    requires y == x || (x == y + "\r" && y != "" && y[0] == '"')
    ensures UnescapeDouble(StripQuotes(x, '"')) == UnescapeDouble(StripQuotes(y, '"')) <==> y == x
  {
    if x == y + "\r" {
      UnescapeAppend(y, '\r');
      if |y| >= 2 && y[|y| - 1] == '"' {
        var m := y[1..|y| - 1];
        assert y[1..] == m + "\"";
        UnescapeAppend(m, '"');
      }
    }
  }
}
