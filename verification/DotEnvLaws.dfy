/** Laws of the dotenv editor over whole texts: reading back, framing, undoing. */
module DotEnvLaws {
  import opened Text
  import opened DotEnv
  import opened DotEnvLine

  /** The keys a dotenv line can hold. */
  predicate WellFormedKey(key: string) {
    key != "" && '\n' !in key && forall k | 0 <= k < |key| :: !EndsKey(key[k])
  }

  predicate OneLinePaths(kvs: seq<KV>) {
    forall i | 0 <= i < |kvs| :: '\n' !in kvs[i].path
  }

  // ---- one line at a time -------------------------------------------------------

  lemma ContentOf(content: string, ending: string)
    requires '\n' !in content
    requires ending in ["", "\n", "\r\n"]
    requires ending == "\n" ==> content == "" || content[|content| - 1] != '\r'
    ensures SplitLineEnd(content + ending) == (content, ending)
  {
    var line := content + ending;
    if ending == "" {
      assert content != "" ==> line[|line| - 1] in content;
    } else {
      assert line[|line| - 1] == '\n';
      assert line[..|line| - |ending|] == content;
      assert content != "" && ending == "\n" ==> line[|line| - 2] == content[|content| - 1];
    }
  }

  lemma ReplacedLine(line: string, raw: string)
    requires IsLine(line) && ParseLine(Content(line)).Some?
    ensures var a := ParseLine(Content(line)).value;
      && SplitLineEnd(ReplaceInLine(line, raw))
         == (ReplaceValue(Content(line), a, raw), SplitLineEnd(line).1)
      && IsLine(ReplaceInLine(line, raw))
      && (Terminated(line) <==> Terminated(ReplaceInLine(line, raw)))
  {
    hide ParseLine, NewValueText;
    var (c, ending) := SplitLineEnd(line);
    var a := ParseLine(c).value;
    NewValueIsSolid(a.quote, raw);
    assert ending == "\n" && c != "" ==> c[|c| - 1] == line[|line| - 2];
    ReplacedContent(c, a.start, a.end, NewValueText(a.quote, raw), ending);
  }

  /** A new value without line breaks, put into a line's content. */
  lemma ReplacedContent(c: string, start: nat, end: nat, text: string, ending: string)
    requires start <= end <= |c| && text != "" && '\n' !in c && '\n' !in text && text[|text| - 1] != '\r'
    requires ending in ["", "\n", "\r\n"] && (ending == "\n" ==> c == "" || c[|c| - 1] != '\r')
    ensures var d := c[..start] + text + c[end..];
      && SplitLineEnd(d + ending) == (d, ending)
      && IsLine(d + ending)
      && (Terminated(d + ending) <==> ending != "")
  {
    hide SplitLineEnd;
    var d := c[..start] + text + c[end..];
    assert '\n' !in d;
    assert d[|d| - 1] == if end < |c| then c[|c| - 1] else text[|text| - 1];
    ContentOf(d, ending);
  }

  lemma KeyEndAt(c: string, i: nat, j: nat)
    requires i <= j < |c| && EndsKey(c[j])
    requires forall k | i <= k < j :: !EndsKey(c[k])
    ensures KeyEnd(c, i) == j
  {
  }

  lemma ParseOwnLine(key: string, tail: string)
    requires WellFormedKey(key)
    requires tail != "" && !Blank(tail[0])
    ensures ParseKey(key + "=" + tail) == Some((key, |key| + 1))
  {
    var c := key + "=" + tail;
    assert forall k | 0 <= k < |key| :: c[k] == key[k];
    assert c[|key|] == '=' && c[|key| + 1] == tail[0];
    assert !EndsKey(c[0]);
    if |key| < 6 < |c| {
      assert c[..6][|key|] == '=' && "export"[|key|] != '=';
    }
    assert !ExportAt(c, 0);
    KeyEndAt(c, 0, |key|);
    assert c[0..|key|] == key;
  }

  /** The line that `set` appends holds its key and reads back the value. */
  lemma AppendedReadsBack(key: string, raw: string, newline: string)
    requires newline in ["\n", "\r\n"]
    requires WellFormedKey(key)
    ensures var line := AppendedLine(key, raw, newline);
      && IsLine(line) && Terminated(line)
      && Assigns(line, key)
      && ReadLine(line) == raw
  {
    hide ParseLine, QuoteEnv, ValueOf;
    var c := key + "=" + QuoteEnv(raw);
    AppendedIsLine(key, raw, newline);
    assert AppendedLine(key, raw, newline) == c + newline;
    OwnValueReadsBack(key, raw);
    NewValueIsSolid(Bare, raw);
    NewValueIsQuoted(raw);
    assert c[|c| - 1] == QuoteEnv(raw)[|QuoteEnv(raw)| - 1];
    ContentOf(c, newline);
  }

  lemma NewValueIsQuoted(raw: string)
    ensures NewValueText(Bare, raw) == QuoteEnv(raw)
  {
  }

  /** A line of the form `key=value`, with the value quoted as needed, reads back. */
  lemma OwnValueReadsBack(key: string, raw: string)
    requires WellFormedKey(key)
    ensures var c := key + "=" + QuoteEnv(raw);
      ParseLine(c).Some? && ParseLine(c).value.key == key && ValueOf(c, ParseLine(c).value) == raw
  {
    hide ParseKey, EscapeDouble, UnescapeDouble, StripQuotes;
    var text, head := QuoteEnv(raw), key + "=";
    var c := head + text;
    NewValueIsSolid(Bare, raw);
    ParseOwnLine(key, text);
    if NeedsQuotes(raw) {
      DoubleReadsBack(head, raw, "");
      assert head + Quoted(raw) + "" == c;
    } else {
      NoValueYet(head);
      BareReadsBack(head, |head|, raw);
      assert head[..|head|] + raw + head[|head|..] == c;
      assert c[|head|..] == raw;
    }
  }

  lemma NoValueYet(head: string)
    ensures QuoteAt(head, |head|) == Bare && ValueEnd(head, |head|) == |head|
  {
  }

  lemma AppendedIsLine(key: string, raw: string, newline: string)
    requires newline in ["\n", "\r\n"]
    requires '\n' !in key
    ensures IsLine(AppendedLine(key, raw, newline)) && Terminated(AppendedLine(key, raw, newline))
  {
    NewValueIsSolid(Bare, raw);
  }

  lemma KeysAreWellFormed(line: string, key: string)
    requires IsLine(line) && Assigns(line, key)
    ensures WellFormedKey(key)
  {
    var c := Content(line);
    var ks := KeyStart(c);
    assert key == c[ks..KeyEnd(c, ks)];
  }

  // ---- the lines of a text --------------------------------------------------------

  lemma LastWhereIs<T>(xs: seq<T>, p: T -> bool, i: nat)
    requires i < |xs| && p(xs[i])
    requires forall k | i < k < |xs| :: !p(xs[k])
    ensures LastWhere(xs, p) == Some(i)
  {
    var r := LastWhere(xs, p);
    assert r.Some? && r.value >= i;
  }

  lemma LastWhereNone<T>(xs: seq<T>, p: T -> bool)
    requires forall k | 0 <= k < |xs| :: !p(xs[k])
    ensures LastWhere(xs, p) == None
  {
  }

  lemma GetAppend(lines: seq<string>, line: string, key: string)
    ensures GetLines(lines + [line], key)
         == if Assigns(line, key) then Some(ReadLine(line)) else GetLines(lines, key)
  {
    assert (lines + [line])[..|lines|] == lines;
  }

  /** Rewriting one line: the rewritten key reads differently, no other key does. */
  lemma GetUpdate(lines: seq<string>, i: nat, line: string, own: string, key: string)
    requires LastAssignment(lines, own) == Some(i)
    requires Assigns(line, own)
    ensures GetLines(lines[i := line], key)
         == if key == own then Some(ReadLine(line)) else GetLines(lines, key)
  {
    var p := (l: string) => Assigns(l, key);
    var after := lines[i := line];
    var r := LastWhere(lines, p);
    if key == own {
      LastWhereIs(after, p, i);
    } else if r.Some? {
      LastWhereIs(after, p, r.value);
    } else {
      LastWhereNone(after, p);
    }
  }

  lemma LinesUpdate(lines: seq<string>, i: nat, line: string)
    requires LinesOk(lines) && i < |lines| && IsLine(line)
    requires Terminated(lines[i]) ==> Terminated(line)
    ensures LinesOk(lines[i := line])
  {
  }

  lemma EnsureTerminatedLines(lines: seq<string>, newline: string, line: string)
    requires LinesOk(lines) && newline in ["\n", "\r\n"] && IsLine(line)
    ensures LinesOk(EnsureTerminated(lines, newline) + [line])
  {
    if lines != [] && !Terminated(lines[|lines| - 1]) {
      var last := lines[|lines| - 1];
      assert '\n' !in last;
      LinesUpdate(lines, |lines| - 1, last + newline);
    }
  }

  lemma SetKeyKeepsLines(lines: seq<string>, key: string, raw: string, newline: string)
    requires LinesOk(lines) && newline in ["\n", "\r\n"] && '\n' !in key
    ensures LinesOk(SetKey(lines, key, raw, newline))
  {
    hide ParseLine;
    match LastAssignment(lines, key)
    case Some(i) =>
      ReplacedLine(lines[i], raw);
      LinesUpdate(lines, i, ReplaceInLine(lines[i], raw));
    case None =>
      AppendedIsLine(key, raw, newline);
      EnsureTerminatedLines(lines, newline, AppendedLine(key, raw, newline));
  }

  lemma {:induction false} SetLinesKeepsLines(lines: seq<string>, kvs: seq<KV>, newline: string)
    requires LinesOk(lines) && newline in ["\n", "\r\n"] && OneLinePaths(kvs)
    ensures LinesOk(SetLines(lines, kvs, newline))
    decreases |kvs|
  {
    if kvs != [] {
      SetLinesKeepsLines(lines, kvs[..|kvs| - 1], newline);
      var kv := kvs[|kvs| - 1];
      SetKeyKeepsLines(SetLines(lines, kvs[..|kvs| - 1], newline), kv.path, RawValue(kv.value), newline);
    }
  }

  /** `key`'s last line holds an empty unquoted value with a comment right behind. */
  predicate FusesIn(lines: seq<string>, key: string, raw: string) {
    var i := LastAssignment(lines, key);
    i.Some? && var c := Content(lines[i.value]); Fuses(c, ParseLine(c).value, raw)
  }

  /** What is written is what is read, except behind a touching comment. */
  lemma SetKeyReadsBack(lines: seq<string>, key: string, raw: string, newline: string)
    requires LinesOk(lines) && newline in ["\n", "\r\n"]
    ensures WellFormedKey(key) ==>
      (GetLines(SetKey(lines, key, raw, newline), key) == Some(raw) <==> !FusesIn(lines, key, raw))
  {
    match LastAssignment(lines, key)
    case Some(i) =>
      var line := ReplaceInLine(lines[i], raw);
      ReplacedLine(lines[i], raw);
      ReplaceReadsBack(Content(lines[i]), raw);
      GetUpdate(lines, i, line, key, key);
    case None =>
      if WellFormedKey(key) {
        AppendedReadsBack(key, raw, newline);
        GetAppend(EnsureTerminated(lines, newline), AppendedLine(key, raw, newline), key);
      }
  }

  // ---- the other keys ---------------------------------------------------------------

  /** The last line ends in a lone CR that an appended newline would absorb. */
  predicate AbsorbsCr(lines: seq<string>, newline: string) {
    && newline == "\n" && lines != []
    && var last := lines[|lines| - 1];
       last != "" && last[|last| - 1] == '\r'
  }

  /** ... and that CR belongs to the value of `key`. */
  predicate LosesCr(lines: seq<string>, newline: string, key: string) {
    && AbsorbsCr(lines, newline)
    && var last := lines[|lines| - 1];
       Assigns(last, key) && ParseLine(Content(last)).value.end == |last|
  }

  lemma TerminatedLineReads(last: string, newline: string)
    requires last != "" && '\n' !in last && newline in ["\n", "\r\n"]
    ensures var (c, d) := (Content(last), Content(last + newline));
      && c == last
      && (ParseLine(c).Some? <==> ParseLine(d).Some?)
      && (ParseLine(c).Some? ==>
            && ParseLine(d).value.key == ParseLine(c).value.key
            && (ReadLine(last + newline) == ReadLine(last)
                <==> !(AbsorbsCr([last], newline) && ParseLine(c).value.end == |c|)))
  {
    hide ParseKey;
    if AbsorbsCr([last], newline) {
      var d := last[..|last| - 1];
      assert last + newline == d + "\r\n";
      ContentOf(d, "\r\n");
      ParseKeyDropCr(last);
      if ParseLine(last).Some? {
        DropCr(last);
      }
    } else {
      ContentOf(last, newline);
    }
  }

  lemma EnsureTerminatedGet(lines: seq<string>, newline: string, key: string)
    requires LinesOk(lines) && newline in ["\n", "\r\n"]
    ensures GetLines(EnsureTerminated(lines, newline), key) == GetLines(lines, key)
       <==> !LosesCr(lines, newline, key)
  {
    hide ParseLine;
    if lines != [] && !Terminated(lines[|lines| - 1]) {
      var init, last := lines[..|lines| - 1], lines[|lines| - 1];
      assert lines == init + [last];
      assert EnsureTerminated(lines, newline) == init + [last + newline];
      GetAppend(init, last, key);
      GetAppend(init, last + newline, key);
      TerminatedLineReads(last, newline);
    }
  }

  lemma AppendedKey(own: string, raw: string, newline: string, key: string)
    requires newline in ["\n", "\r\n"] && WellFormedKey(own)
    requires Assigns(AppendedLine(own, raw, newline), key)
    ensures key == own
  {
    hide ParseKey;
    AppendedReadsBack(own, raw, newline);
  }

  /** The line added for an unassigned key, or the newline put before it, changes what `key` reads. */
  predicate Disturbs(lines: seq<string>, line: string, newline: string, key: string) {
    if Assigns(line, key) then GetLines(lines, key) != Some(ReadLine(line)) else LosesCr(lines, newline, key)
  }

  /** Setting one key leaves every other key as it read, but for what an added line disturbs. */
  lemma SetKeyFrame(lines: seq<string>, own: string, raw: string, newline: string, key: string)
    requires LinesOk(lines) && newline in ["\n", "\r\n"] && key != own
    ensures GetLines(SetKey(lines, own, raw, newline), key) == GetLines(lines, key)
       <==> !(LastAssignment(lines, own).None?
              && Disturbs(lines, AppendedLine(own, raw, newline), newline, key))
  {
    hide ParseLine;
    match LastAssignment(lines, own)
    case Some(i) =>
      ReplacedLine(lines[i], raw);
      ReplaceReadsBack(Content(lines[i]), raw);
      GetUpdate(lines, i, ReplaceInLine(lines[i], raw), own, key);
    case None =>
      var line := AppendedLine(own, raw, newline);
      EnsureTerminatedGet(lines, newline, key);
      GetAppend(EnsureTerminated(lines, newline), line, key);
  }

  /** With a key that can stand on a line only a carriage return can be lost. */
  lemma OnlyCrDisturbs(lines: seq<string>, own: string, raw: string, newline: string, key: string)
    requires WellFormedKey(own) && newline in ["\n", "\r\n"] && key != own
    ensures Disturbs(lines, AppendedLine(own, raw, newline), newline, key) <==> LosesCr(lines, newline, key)
  {
    hide ParseLine;
    if Assigns(AppendedLine(own, raw, newline), key) {
      AppendedKey(own, raw, newline, key);
    }
  }

  // ---- whole texts --------------------------------------------------------------------

  /** A key that starts with a BOM, written into an empty text, reads as the text's BOM. */
  predicate HidesFirstKey(original: string, kvs: seq<KV>) {
    original == "" && kvs != [] && kvs[0].path != "" && kvs[0].path[0] == BOM
  }

  lemma ConcatStarts(lines: seq<string>)
    requires lines != [] && lines[0] != ""
    ensures Concat(lines) != "" && Concat(lines)[0] == lines[0][0]
  {
  }

  lemma SetKeyStarts(lines: seq<string>, key: string, raw: string, newline: string)
    requires LinesOk(lines)
    ensures var after := SetKey(lines, key, raw, newline);
      && after != [] && after[0] != ""
      && after[0][0] == if lines != [] then lines[0][0] else (key + "=")[0]
  {
    match LastAssignment(lines, key)
    case Some(i) =>
      var c := Content(lines[i]);
      assert ParseLine(c).value.start > 0;
      assert ReplaceInLine(lines[i], raw)[0] == c[0] == lines[i][0];
    case None =>
      var line := AppendedLine(key, raw, newline);
      assert line == (key + "=") + (QuoteEnv(raw) + newline);
  }

  lemma {:induction false} SetLinesStarts(lines: seq<string>, kvs: seq<KV>, newline: string)
    requires LinesOk(lines) && newline in ["\n", "\r\n"] && OneLinePaths(kvs)
    ensures var after := SetLines(lines, kvs, newline);
      && (lines == [] && kvs == [] ==> after == [])
      && (lines != [] ==> after != [] && after[0] != "" && after[0][0] == lines[0][0])
      && (lines == [] && kvs != [] ==> after != [] && after[0] != "" && after[0][0] == (kvs[0].path + "=")[0])
    decreases |kvs|
  {
    if kvs != [] {
      var init, kv := kvs[..|kvs| - 1], kvs[|kvs| - 1];
      SetLinesStarts(lines, init, newline);
      SetLinesKeepsLines(lines, init, newline);
      SetKeyStarts(SetLines(lines, init, newline), kv.path, RawValue(kv.value), newline);
    }
  }

  lemma SplitJoined(bom: string, rest: string)
    requires bom in ["", [BOM]]
    requires bom == "" && rest != "" ==> rest[0] != BOM
    ensures SplitBom(bom + rest) == (bom, rest)
  {
    if bom == "" {
      assert bom + rest == rest;
    } else {
      assert (bom + rest)[1..] == rest;
    }
  }

  /** The lines `set` leaves behind, as a later call finds them. */
  lemma SetBody(original: string, kvs: seq<KV>)
    requires OneLinePaths(kvs) && !HidesFirstKey(original, kvs)
    ensures var (bom, body) := SplitBom(original);
      && SplitBom(Set(original, kvs)).0 == bom
      && Lines(SplitBom(Set(original, kvs)).1) == SetLines(Lines(body), kvs, NewlineStyle(body))
  {
    hide SetLines, Concat, ContainsCrLf;
    var (bom, body) := SplitBom(original);
    var lines, newline := Lines(body), NewlineStyle(body);
    var after := SetLines(lines, kvs, newline);
    SetLinesKeepsLines(lines, kvs, newline);
    SetLinesStarts(lines, kvs, newline);
    LinesOfConcat(after);
    if after != [] {
      ConcatStarts(after);
    }
    if lines != [] {
      ConcatStarts(lines);
    }
    assert body != "" && bom == "" ==> body[0] != BOM;
    SplitJoined(bom, Concat(after));
  }

  lemma ReadableKeys(text: string, key: string)
    ensures Get(text, key).Some? ==> WellFormedKey(key)
  {
    hide ParseLine;
    var lines := Lines(SplitBom(text).1);
    if Get(text, key).Some? {
      KeysAreWellFormed(lines[LastAssignment(lines, key).value], key);
    }
  }

  /** The lines on which the last of several assignments acts. */
  function LinesBefore(original: string, kvs: seq<KV>): seq<string> {
    var body := SplitBom(original).1;
    SetLines(Lines(body), kvs, NewlineStyle(body))
  }

  lemma LinesAfter(original: string, kvs: seq<KV>, kv: KV)
    ensures LinesBefore(original, kvs + [kv])
         == SetKey(LinesBefore(original, kvs), kv.path, RawValue(kv.value), NewlineStyle(SplitBom(original).1))
  {
    assert (kvs + [kv])[..|kvs|] == kvs;
  }

  /** The value written last is the value read, exactly when nothing fuses with it, if no mark is in play. */
  lemma PlainSetReadsBack(original: string, kvs: seq<KV>, kv: KV)
    requires OneLinePaths(kvs) && !HidesFirstKey(original, kvs + [kv])
    ensures Get(Set(original, kvs + [kv]), kv.path) == Some(RawValue(kv.value))
       <==> WellFormedKey(kv.path) && !FusesIn(LinesBefore(original, kvs), kv.path, RawValue(kv.value))
  {
    hide ParseLine;
    var body := SplitBom(original).1;
    if WellFormedKey(kv.path) {
      assert OneLinePaths(kvs + [kv]);
      SetBody(original, kvs + [kv]);
      LinesAfter(original, kvs, kv);
      SetLinesKeepsLines(Lines(body), kvs, NewlineStyle(body));
      SetKeyReadsBack(LinesBefore(original, kvs), kv.path, RawValue(kv.value), NewlineStyle(body));
    } else {
      ReadableKeys(Set(original, kvs + [kv]), kv.path);
    }
  }

  /** For a single assignment the condition can be read off the text and the key. */
  lemma SetOneReadsBack(original: string, kv: KV)
    ensures Get(Set(original, [kv]), kv.path) == Some(RawValue(kv.value))
       <==> && WellFormedKey(kv.path)
            && !(original == "" && kv.path[0] == BOM)
            && !FusesIn(Lines(SplitBom(original).1), kv.path, RawValue(kv.value))
  {
    hide ParseLine;
    assert [] + [kv] == [kv];
    if HidesFirstKey(original, [kv]) {
      HiddenKey(kv);
    } else {
      PlainSetReadsBack(original, [], kv);
    }
  }

  lemma OnlyLine(line: string, key: string)
    requires IsLine(line)
    ensures Lines(line) == [line]
    ensures GetLines([line], key) == if Assigns(line, key) then Some(ReadLine(line)) else None
  {
    hide ParseLine;
    assert [line][1..] == [];
    assert Concat([line]) == line;
    LinesOfConcat([line]);
    assert [] + [line] == [line];
    GetAppend([], line, key);
  }

  /** A line behind a BOM does not assign the key that includes the BOM. */
  lemma BehindBom(key: string, raw: string, other: string)
    requires key == "" || WellFormedKey(key)
    requires other != key && other != ""
    ensures Get([BOM] + AppendedLine(key, raw, "\n"), other).None?
  {
    hide Assigns, QuoteEnv;
    var rest := AppendedLine(key, raw, "\n");
    assert ([BOM] + rest)[1..] == rest;
    AppendedIsLine(key, raw, "\n");
    OnlyLine(rest, other);
    NotThisKey(key, raw, other);
  }

  lemma AppendedBehindBom(key: string, raw: string)
    ensures AppendedLine([BOM] + key, raw, "\n") == [BOM] + AppendedLine(key, raw, "\n")
  {
    hide QuoteEnv;
  }

  lemma HiddenKey(kv: KV)
    requires HidesFirstKey("", [kv])
    ensures Get(Set("", [kv]), kv.path).None?
  {
    hide Get, Set, AppendedLine, RawValue;
    var key := kv.path[1..];
    SetEmpty(kv);
    if WellFormedKey(kv.path) {
      AppendedBehindBom(key, RawValue(kv.value));
      assert kv.path == [BOM] + key;
      BehindBom(key, RawValue(kv.value), kv.path);
    } else {
      ReadableKeys(Set("", [kv]), kv.path);
    }
  }

  lemma SetEmpty(kv: KV)
    ensures Set("", [kv]) == AppendedLine(kv.path, RawValue(kv.value), "\n")
  {
    var line := AppendedLine(kv.path, RawValue(kv.value), "\n");
    assert [kv][..0] == [];
    assert SetLines([], [kv], "\n") == SetKey([], kv.path, RawValue(kv.value), "\n") == [line];
    assert [line][1..] == [];
    assert Concat([line]) == line;
  }

  lemma NotThisKey(key: string, raw: string, other: string)
    requires other != key && other != ""
    requires key == "" || WellFormedKey(key)
    ensures !Assigns(AppendedLine(key, raw, "\n"), other)
  {
    if Assigns(AppendedLine(key, raw, "\n"), other) {
      if key == "" {
        NoKeyLine(raw);
      } else {
        AppendedKey(key, raw, "\n", other);
      }
    }
  }

  lemma EqualsFirst(c: string)
    requires c != "" && c[0] == '='
    ensures ParseLine(c).None?
  {
    assert SkipBlanks(c, 0) == 0;
    assert |c| > 6 ==> c[..6][0] == '=' && "export"[0] == 'e';
    assert KeyStart(c) == 0 && KeyEnd(c, 0) == 0;
  }

  lemma NoKeyLine(raw: string)
    ensures ParseLine(Content(AppendedLine("", raw, "\n"))).None?
  {
    hide ValueEnd, QuoteEnv, EscapeDouble, NeedsQuotes;
    NewValueIsSolid(Bare, raw);
    NewValueIsQuoted(raw);
    var c := "=" + QuoteEnv(raw);
    assert c[|c| - 1] == QuoteEnv(raw)[|QuoteEnv(raw)| - 1];
    ContentOf(c, "\n");
    assert AppendedLine("", raw, "\n") == c + "\n";
    EqualsFirst(c);
  }

  /** Writing one more key leaves what every other key reads, unless an added line disturbs it. */
  lemma PlainSetFrame(original: string, kvs: seq<KV>, kv: KV, key: string)
    requires OneLinePaths(kvs + [kv]) && !HidesFirstKey(original, kvs + [kv])
    requires key != kv.path
    ensures var (before, newline) := (LinesBefore(original, kvs), NewlineStyle(SplitBom(original).1));
      Get(Set(original, kvs + [kv]), key) == Get(Set(original, kvs), key)
      <==> !(LastAssignment(before, kv.path).None?
             && Disturbs(before, AppendedLine(kv.path, RawValue(kv.value), newline), newline, key))
  {
    hide ParseLine, Disturbs, AppendedLine;
    var body := SplitBom(original).1;
    assert forall i | 0 <= i < |kvs| :: kvs[i] == (kvs + [kv])[i];
    SetBody(original, kvs + [kv]);
    SetBody(original, kvs);
    LinesAfter(original, kvs, kv);
    SetLinesKeepsLines(Lines(body), kvs, NewlineStyle(body));
    SetKeyFrame(LinesBefore(original, kvs), kv.path, RawValue(kv.value), NewlineStyle(body), key);
  }

  lemma SetNothing(original: string)
    ensures Set(original, []) == original
  {
  }

  lemma TouchingLine(c: string)
    requires c == "KEY=#note"
    ensures IsLine(c) && Content(c) == c && ParseLine(c) == Some(Assignment("KEY", 4, 4, Bare))
  {
    hide ParseKey, BareStop, TrimBlanks;
    assert c == "KEY" + "=" + "#note";
    ParseOwnLine("KEY", "#note");
    BareStopIs(c, 4, 4);
  }

  /** A line on its own, of which the parse is known. */
  lemma OnlyLineReads(c: string, a: Assignment)
    requires IsLine(c) && Content(c) == c && ParseLine(c) == Some(a) && c[0] != BOM
    ensures Lines(SplitBom(c).1) == [c] && LastAssignment([c], a.key) == Some(0)
    ensures Get(c, a.key) == Some(ValueOf(c, a))
  {
    hide ParseLine, ValueOf, Lines;
    OnlyLine(c, a.key);
    LastWhereIs([c], (line: string) => Assigns(line, a.key), 0);
  }

  /** A comment right behind the equals sign: what is written there does not read back. */
  lemma TouchingComment()
    ensures Get("KEY=#note", "KEY") == Some("")
    ensures FusesIn(["KEY=#note"], "KEY", "v")
    ensures Get(Set("KEY=#note", [KV("KEY", Str("v"))]), "KEY") != Some("v")
  {
    hide Set, Get, ParseLine, LastAssignment, Lines, Content, IsLine;
    var c := "KEY=#note";
    TouchingLine(c);
    OnlyLineReads(c, Assignment("KEY", 4, 4, Bare));
    assert c[4..4] == "";
    SetOneReadsBack(c, KV("KEY", Str("v")));
  }

  lemma LoneCrLine(c: string)
    requires c == "A=x\r"
    ensures IsLine(c) && Content(c) == c && ParseLine(c) == Some(Assignment("A", 2, 4, Bare))
  {
    hide ParseKey, BareStop, TrimBlanks;
    assert c == "A" + "=" + "x\r";
    ParseOwnLine("A", "x\r");
    BareStopIs(c, 2, 4);
    TrimBlanksIs(c, 2, 4, 4);
  }

  /** A value that ends in a lone carriage return at the end of the text loses it to the next `set`. */
  lemma LoneCrIsLost()
    ensures Get("A=x\r", "A") == Some("x\r")
    ensures LosesCr(["A=x\r"], "\n", "A")
    ensures Get(Set("A=x\r", [KV("B", Str("1"))]), "A") != Some("x\r")
  {
    hide Set, Get, ParseLine, LastAssignment, Lines, Content, IsLine, LosesCr, NewlineStyle, AppendedLine, Disturbs;
    var c, kv := "A=x\r", KV("B", Str("1"));
    LoneCrLine(c);
    OnlyLineReads(c, Assignment("A", 2, 4, Bare));
    assert c[2..4] == "x\r";
    LoneCr(c);
    SetNothing(c);
    assert [] + [kv] == [kv];
    PlainSetFrame(c, [], kv, "A");
    LinesBeforeNothing(c);
    NotAssigned(c, "B");
    var b := "B";
    assert |b| == 1 && b[0] == 'B' && ('\n' !in b) && "A"[0] != b[0];
    assert forall k | 0 <= k < |b| :: b[k] == b[0];
    OnlyCrDisturbs([c], b, "1", "\n", "A");
  }

  lemma LinesBeforeNothing(original: string)
    ensures LinesBefore(original, []) == Lines(SplitBom(original).1)
  {
    hide Lines;
  }

  lemma NotAssigned(c: string, key: string)
    requires !Assigns(c, key)
    ensures LastAssignment([c], key).None?
  {
    hide ParseLine;
    LastWhereNone([c], (line: string) => Assigns(line, key));
  }

  lemma LoneCr(c: string)
    requires c == "A=x\r" && Assigns(c, "A") && ParseLine(Content(c)).value.end == |c|
    ensures LosesCr([c], "\n", "A") && NewlineStyle(c) == "\n"
  {
    hide ParseLine;
  }

  lemma ConcatHead(lines: seq<string>, i: nat)
    requires i < |lines|
    ensures Concat(lines[i..]) == lines[i] + Concat(lines[i + 1..])
  {
    assert lines[i..][1..] == lines[i + 1..];
  }

  lemma JoinThree(a: string, b: string, c: string)
    ensures a + (b + c) == a + b + c
  {
  }

  lemma ConcatAround(lines: seq<string>, i: nat)
    requires i < |lines|
    ensures Concat(lines) == Concat(lines[..i]) + lines[i] + Concat(lines[i + 1..])
  {
    hide Concat;
    ConcatAppend(lines[..i], lines[i..]);
    assert lines[..i] + lines[i..] == lines;
    ConcatHead(lines, i);
    JoinThree(Concat(lines[..i]), lines[i], Concat(lines[i + 1..]));
  }

  lemma SetOneLines(lines: seq<string>, kv: KV, newline: string)
    ensures SetLines(lines, [kv], newline) == SetKey(lines, kv.path, RawValue(kv.value), newline)
  {
    hide SetKey;
    assert [kv][..0] == [];
  }

  lemma Regroup(bom: string, above: string, head: string, x: string, tail: string, ending: string, below: string)
    ensures bom + (above + (head + x + tail + ending) + below)
         == (bom + above + head) + x + (tail + ending + below)
  {
  }

  /** When the key is assigned, `set` replaces exactly one value span of the text. */
  lemma {:induction false} SetSplicesValue(original: string, kv: KV, i: nat)
    requires LastAssignment(Lines(SplitBom(original).1), kv.path) == Some(i)
    ensures var (bom, body) := SplitBom(original);
      var (c, ending) := SplitLineEnd(Lines(body)[i]);
      var a := ParseLine(c).value;
      var head := bom + Concat(Lines(body)[..i]) + c[..a.start];
      var tail := c[a.end..] + ending + Concat(Lines(body)[i + 1..]);
      && original == head + c[a.start..a.end] + tail
      && Set(original, [kv]) == head + NewValueText(a.quote, RawValue(kv.value)) + tail
  {
    hide ParseLine, LastWhere, NewValueText, Concat, SplitLineEnd, SetLines, NewlineStyle;
    var (bom, body) := SplitBom(original);
    var lines, raw := Lines(body), RawValue(kv.value);
    var (c, ending) := SplitLineEnd(lines[i]);
    var a := ParseLine(c).value;
    var line := ReplaceInLine(lines[i], raw);
    SetOneLines(lines, kv, NewlineStyle(body));
    assert Set(original, [kv]) == bom + Concat(lines[i := line]);
    ConcatAround(lines, i);
    ConcatReplaced(lines, i, line);
    var above, below := Concat(lines[..i]), Concat(lines[i + 1..]);
    assert c == c[..a.start] + c[a.start..a.end] + c[a.end..];
    Regroup(bom, above, c[..a.start], c[a.start..a.end], c[a.end..], ending, below);
    Regroup(bom, above, c[..a.start], NewValueText(a.quote, raw), c[a.end..], ending, below);
  }

  lemma ConcatReplaced(lines: seq<string>, i: nat, line: string)
    requires i < |lines|
    ensures Concat(lines[i := line]) == Concat(lines[..i]) + line + Concat(lines[i + 1..])
  {
    hide Concat;
    ConcatAround(lines[i := line], i);
    assert lines[i := line][..i] == lines[..i] && lines[i := line][i + 1..] == lines[i + 1..];
  }

  /** When it is not, `set` only adds a line at the end. */
  lemma {:induction false} SetAppendsLine(original: string, kv: KV)
    requires LastAssignment(Lines(SplitBom(original).1), kv.path).None?
    ensures var body := SplitBom(original).1;
      Set(original, [kv]) == original
        + (if body == "" || Terminated(body) then "" else NewlineStyle(body))
        + AppendedLine(kv.path, RawValue(kv.value), NewlineStyle(body))
  {
    hide ParseLine, LastWhere, AppendedLine, NewlineStyle, SetLines, Concat;
    var (bom, body) := SplitBom(original);
    var lines, newline := Lines(body), NewlineStyle(body);
    var line := AppendedLine(kv.path, RawValue(kv.value), newline);
    SetOneLines(lines, kv, newline);
    ConcatAppended(lines, line, newline);
    var gap := if body == "" || Terminated(body) then "" else newline;
    assert bom + (body + gap + line) == (bom + body) + gap + line;
  }

  lemma TerminatedJoin(lines: seq<string>, newline: string)
    requires LinesOk(lines) && lines != []
    ensures var last := lines[|lines| - 1];
      Concat(EnsureTerminated(lines, newline)) == Concat(lines) + if Terminated(last) then "" else newline
  {
    hide Concat, Terminated, LinesOk;
    var n := |lines| - 1;
    ConcatAround(lines, n);
    assert lines[n + 1..] == [];
    ConcatStep([]);
    if !Terminated(lines[n]) {
      var after := EnsureTerminated(lines, newline);
      ConcatAround(after, n);
      assert after[..n] == lines[..n] && after[n + 1..] == [];
      JoinThree(Concat(lines[..n]), lines[n], newline);
    }
  }

  lemma {:induction false} ConcatAppended(lines: seq<string>, line: string, newline: string)
    requires LinesOk(lines)
    ensures Concat(EnsureTerminated(lines, newline) + [line]) == Concat(lines)
      + (if Concat(lines) == "" || Terminated(Concat(lines)) then "" else newline) + line
  {
    hide Concat, EnsureTerminated, LinesOk;
    ConcatAppend(EnsureTerminated(lines, newline), [line]);
    OneConcat(line);
    if lines == [] {
      NothingJoined();
      NothingEnsured(newline);
    } else {
      LastLineEnds(lines);
      LinesOkLast(lines);
      TerminatedJoin(lines, newline);
    }
  }

  lemma OneConcat(line: string)
    ensures Concat([line]) == line
  {
    assert [line][1..] == [];
  }

  lemma NothingEnsured(newline: string)
    ensures EnsureTerminated([], newline) == []
  {
  }

  // ---- deleting -----------------------------------------------------------------------

  lemma DelLinesStep(init: seq<string>, last: string, keys: seq<string>)
    ensures DelLines(init + [last], keys) == DelLines(init, keys) + if Removed(last, keys) then [] else [last]
  {
    hide Removed;
    assert (init + [last])[..|init|] == init;
  }

  lemma RemovedIs(line: string, keys: seq<string>, key: string)
    requires Assigns(line, key)
    ensures Removed(line, keys) <==> key in keys
  {
    hide ParseLine;
  }

  lemma NothingLeft(keys: seq<string>, key: string)
    ensures DelLines([], keys) == [] && GetLines([], key) == None
  {
  }

  lemma {:induction false} DelLinesGet(lines: seq<string>, keys: seq<string>, key: string)
    ensures GetLines(DelLines(lines, keys), key)
         == if key in keys then None else GetLines(lines, key)
    decreases |lines|
  {
    hide DelLines, GetLines, Assigns, Removed, ReadLine;
    if lines == [] {
      NothingLeft(keys, key);
    } else {
      var init, last := lines[..|lines| - 1], lines[|lines| - 1];
      DelLinesGet(init, keys, key);
      assert lines == init + [last];
      DelLinesStep(init, last, keys);
      GetAppend(init, last, key);
      GetAppend(DelLines(init, keys), last, key);
      assert DelLines(init, keys) + [] == DelLines(init, keys);
      if Assigns(last, key) {
        RemovedIs(last, keys, key);
      }
    }
  }

  lemma {:induction false} DelLinesOk(lines: seq<string>, keys: seq<string>)
    requires LinesOk(lines)
    ensures LinesOk(DelLines(lines, keys))
    ensures lines != [] && Terminated(lines[|lines| - 1]) ==>
      forall line | line in DelLines(lines, keys) :: Terminated(line)
  {
    hide ParseLine;
    if lines != [] {
      var init := lines[..|lines| - 1];
      assert LinesOk(init);
      DelLinesOk(init, keys);
    }
  }

  // ---- undoing ------------------------------------------------------------------------

  lemma {:induction false} DelLinesNone(lines: seq<string>, key: string)
    requires forall i | 0 <= i < |lines| :: !Assigns(lines[i], key)
    ensures DelLines(lines, [key]) == lines
  {
    hide ParseLine;
    if lines != [] {
      DelLinesNone(lines[..|lines| - 1], key);
      assert lines == lines[..|lines| - 1] + [lines[|lines| - 1]];
    }
  }

  lemma DelUndoesSetKey(lines: seq<string>, key: string, raw: string, newline: string)
    requires WellFormedKey(key) && newline in ["\n", "\r\n"]
    requires LastAssignment(lines, key).None?
    requires lines == [] || Terminated(lines[|lines| - 1])
    ensures DelLines(SetKey(lines, key, raw, newline), [key]) == lines
  {
    hide ParseLine;
    AppendedReadsBack(key, raw, newline);
    var line := AppendedLine(key, raw, newline);
    assert (lines + [line])[..|lines|] == lines;
    DelLinesNone(lines, key);
    assert lines + [] == lines;
  }

  lemma {:induction false} LastLineEnds(lines: seq<string>)
    requires LinesOk(lines) && lines != []
    ensures Concat(lines) != ""
    ensures Concat(lines)[|Concat(lines)| - 1] == lines[|lines| - 1][|lines[|lines| - 1]| - 1]
  {
    if |lines| > 1 {
      LastLineEnds(lines[1..]);
    }
  }

  /** Removing a key that `set` just added gives the text back byte for byte, if it ended a line. */
  lemma PlainDelUndoesSet(original: string, kv: KV)
    requires WellFormedKey(kv.path) && !(original == "" && kv.path[0] == BOM)
    requires Get(original, kv.path).None?
    ensures Del(Set(original, [kv]), [kv.path]) == original
       <==> SplitBom(original).1 == "" || Terminated(SplitBom(original).1)
  {
    hide ParseLine, SetKey, DelLines, LastWhere, Concat, ContainsCrLf;
    var (bom, body) := SplitBom(original);
    var lines, newline := Lines(body), NewlineStyle(body);
    var raw := RawValue(kv.value);
    SetBody(original, [kv]);
    assert [kv][..0] == [];
    assert SetLines(lines, [kv], newline) == SetKey(lines, kv.path, raw, newline);
    if lines != [] {
      LastLineEnds(lines);
    }
    if body == "" || Terminated(body) {
      DelUndoesSetKey(lines, kv.path, raw, newline);
    } else {
      DelKeepsNewline(lines, kv.path, raw, newline);
    }
  }

  lemma DelKeepsNewline(lines: seq<string>, key: string, raw: string, newline: string)
    requires LinesOk(lines) && lines != [] && !Terminated(lines[|lines| - 1])
    requires WellFormedKey(key) && newline in ["\n", "\r\n"]
    requires LastAssignment(lines, key).None?
    ensures Concat(DelLines(SetKey(lines, key, raw, newline), [key])) != Concat(lines)
  {
    hide SetKey, DelLines, Concat, LastAssignment, LinesOk, Terminated;
    var after := SetKey(lines, key, raw, newline);
    AllTerminated(lines, key, raw, newline);
    DelLinesOk(after, [key]);
    EndsDiffer(lines, DelLines(after, [key]));
  }

  /** After appending, every line has its newline. */
  lemma AllTerminated(lines: seq<string>, key: string, raw: string, newline: string)
    requires LinesOk(lines) && WellFormedKey(key) && newline in ["\n", "\r\n"]
    requires LastAssignment(lines, key).None?
    ensures var after := SetKey(lines, key, raw, newline);
      LinesOk(after) && after != [] && Terminated(after[|after| - 1])
  {
    hide LastAssignment, AppendedLine, IsLine, EnsureTerminated;
    var after := SetKey(lines, key, raw, newline);
    SetKeyKeepsLines(lines, key, raw, newline);
    AppendedIsLine(key, raw, newline);
    assert after[|after| - 1] == AppendedLine(key, raw, newline);
  }

  /** Text that ends a line is not text that does not. */
  lemma EndsDiffer(lines: seq<string>, kept: seq<string>)
    requires LinesOk(lines) && lines != [] && !Terminated(lines[|lines| - 1])
    requires LinesOk(kept) && forall l | l in kept :: Terminated(l)
    ensures Concat(kept) != Concat(lines)
  {
    hide LinesOk, Concat;
    LastLineEnds(lines);
    assert lines[|lines| - 1] != "" by { LinesOkLast(lines); }
    if kept != [] {
      LastLineEnds(kept);
      assert kept[|kept| - 1] in kept;
    }
    assert Concat([]) == "" by { NothingJoined(); }
  }

  lemma NothingJoined()
    ensures Concat([]) == ""
  {
  }

  lemma LinesOkLast(lines: seq<string>)
    requires LinesOk(lines) && lines != []
    ensures lines[|lines| - 1] != ""
  {
  }
}
