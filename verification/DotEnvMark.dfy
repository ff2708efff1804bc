/** Texts that begin with a byte order mark: what `set` and `del` do when a mark comes to the front. */
module DotEnvMark {
  import opened Text
  import opened DotEnv
  import opened DotEnvLine
  import opened DotEnvLaws

  predicate Marked(line: string) {
    line != "" && line[0] == BOM
  }

  /** Joined lines as the next call finds them: a mark at the front is taken for the text's own. */
  function Unmarked(lines: seq<string>): seq<string> {
    if lines == [] || !Marked(lines[0]) then lines
    else if lines[0] == [BOM] then lines[1..]
    else [lines[0][1..]] + lines[1..]
  }

  lemma UnmarkedLinesOk(lines: seq<string>)
    requires LinesOk(lines)
    ensures LinesOk(Unmarked(lines))
  {
    if lines != [] && Marked(lines[0]) && lines[0] != [BOM] {
      var line := lines[0];
      assert forall k | 0 <= k < |line| - 2 :: line[1..][k] == line[..|line| - 1][k + 1];
      assert Terminated(line) ==> Terminated(line[1..]);
    }
  }

  lemma UnmarkedJoined(lines: seq<string>)
    requires lines != [] && Marked(lines[0])
    ensures Concat(lines) == [BOM] + Concat(Unmarked(lines))
  {
    hide Concat;
    ConcatStep(lines);
    var rest, more := lines[0][1..], Concat(lines[1..]);
    assert lines[0] == [BOM] + rest;
    if rest != "" {
      ConcatStep([rest] + lines[1..]);
      assert ([rest] + lines[1..])[1..] == lines[1..];
      assert ([BOM] + rest) + more == [BOM] + (rest + more);
    }
  }

  lemma UnmarkedLines(lines: seq<string>)
    requires LinesOk(lines)
    ensures Lines(SplitBom(Concat(lines)).1) == Unmarked(lines)
  {
    hide Concat, Lines, IsLine, Terminated, LinesOk;
    UnmarkedLinesOk(lines);
    LinesOfConcat(Unmarked(lines));
    if lines != [] {
      LineIsNotEmpty(lines, 0);
      if Marked(lines[0]) {
        UnmarkedJoined(lines);
        SplitJoined([BOM], Concat(Unmarked(lines)));
      } else {
        ConcatStep(lines);
        SplitJoined("", Concat(lines));
      }
    } else {
      ConcatStep(lines);
    }
  }

  lemma LineIsNotEmpty(lines: seq<string>, i: nat)
    requires LinesOk(lines) && i < |lines|
    ensures lines[i] != ""
  {
  }

  // ---- the key behind a mark ----------------------------------------------------------

  lemma {:induction false} SkipBlanksShift(c: string, i: nat)
    requires 1 <= i <= |c|
    ensures SkipBlanks(c[1..], i - 1) == SkipBlanks(c, i) - 1
    decreases |c| - i
  {
    if i < |c| && Blank(c[i]) {
      SkipBlanksShift(c, i + 1);
    }
  }

  lemma {:induction false} KeyEndShift(c: string, i: nat)
    requires 1 <= i <= |c|
    ensures KeyEnd(c[1..], i - 1) == KeyEnd(c, i) - 1
    decreases |c| - i
  {
    if i < |c| && !EndsKey(c[i]) {
      KeyEndShift(c, i + 1);
    }
  }

  /** Where the key of a marked line ends, and its value starts. */
  lemma MarkedParse(c: string)
    requires Marked(c)
    ensures KeyStart(c) == 0 && KeyEnd(c, 0) == KeyEnd(c, 1) >= 1
    ensures ParseKey(c).Some? ==>
      var ke := KeyEnd(c, 1);
      var eq := SkipBlanks(c, ke);
      eq < |c| && c[eq] == '=' && ParseKey(c).value == (c[..ke], SkipBlanks(c, eq + 1))
  {
    hide SkipBlanks;
    assert !Blank(c[0]) && !EndsKey(c[0]);
    assert SkipBlanks(c, 0) == 0;
    assert |c| > 6 ==> c[..6][0] == BOM && "export"[0] == 'e';
    var ke := KeyEnd(c, 0);
    assert c[0..ke] == c[..ke];
  }

  /** Without the mark the same line holds the rest of the key, or none at all. */
  lemma KeyWithoutMark(c: string)
    requires Marked(c) && ParseKey(c).Some?
    ensures ParseKey(c).value.0 != "" && ParseKey(c).value.1 >= 1
    ensures var (key, start) := ParseKey(c).value;
      ParseKey(c[1..]).Some? ==> ParseKey(c[1..]).value == (key[1..], start - 1)
  {
    hide SkipBlanks, KeyEnd, ParseKey, KeyStart, ExportAt;
    MarkedParse(c);
    if ParseKey(c[1..]).Some? {
      var d, ke := c[1..], KeyEnd(c, 1);
      var eq := SkipBlanks(c, ke);
      SomeKey(d);
      KeyStartsAtOnce(c, ke, eq);
      KeyEndShift(c, 1);
      SkipBlanksShift(c, ke);
      SkipBlanksShift(c, eq + 1);
      assert d[0..ke - 1] == c[..ke][1..];
    }
  }

  /** If there is a key without the mark, it stands right behind it. */
  lemma KeyStartsAtOnce(c: string, ke: nat, eq: nat)
    requires Marked(c) && ke == KeyEnd(c, 1) && eq == SkipBlanks(c, ke) && eq < |c| && c[eq] == '='
    requires KeyEnd(c[1..], KeyStart(c[1..])) > KeyStart(c[1..])
    ensures KeyStart(c[1..]) == 0
  {
    hide SkipBlanks, KeyEnd, KeyStart, ExportAt;
    var d := c[1..];
    SkipBlanksShift(c, 1);
    SkipBlanksShift(c, ke);
    KeyEndShift(c, 1);
    ExportBefore(d);
    assert d[eq - 1] == '=';
  }

  lemma ExportBefore(d: string)
    ensures ExportAt(d, 0) ==> KeyEnd(d, 0) == 6 && KeyStart(d) == SkipBlanks(d, 6)
    ensures !ExportAt(d, 0) && d != "" && !Blank(d[0]) ==> KeyStart(d) == 0
    ensures d != "" && Blank(d[0]) ==> SkipBlanks(d, 0) == SkipBlanks(d, 1)
    ensures var i := SkipBlanks(d, 0); i < |d| && d[i] == '=' ==> KeyStart(d) == i
  {
    if ExportAt(d, 0) {
      assert forall k | 0 <= k < 6 :: d[k] == d[0..6][k] == "export"[k];
      KeyEndAt(d, 0, 6);
    }
    var i := SkipBlanks(d, 0);
    assert i + 6 < |d| ==> d[i..i + 6][0] == d[i] && "export"[0] == 'e';
  }

  lemma SomeKey(d: string)
    requires ParseKey(d).Some?
    ensures var ks := KeyStart(d);
      var ke := KeyEnd(d, ks);
      var eq := SkipBlanks(d, ke);
      ke > ks && eq < |d| && d[eq] == '=' && ParseKey(d).value == (d[ks..ke], SkipBlanks(d, eq + 1))
  {
    hide SkipBlanks, KeyStart, KeyEnd;
  }

  lemma MarkOfContent(line: string)
    requires Marked(line)
    ensures Marked(Content(line)) && Content(line[1..]) == Content(line)[1..]
  {
    var n := |line|;
    assert n > 1 ==> line[1..][n - 2] == line[n - 1];
    assert n > 2 ==> line[1..][n - 3] == line[n - 2];
  }

  /** With and without its mark a line never assigns the same key. */
  lemma MarkDecides(line: string, key: string)
    requires Marked(line)
    ensures !(Assigns(line, key) && Assigns(line[1..], key))
    ensures Assigns(line, key) ==> key != "" && key[0] == BOM
  {
    hide ParseKey;
    MarkOfContent(line);
    var c := Content(line);
    MarkedParse(c);
    if ParseKey(c).Some? {
      KeyWithoutMark(c);
    }
  }

  // ---- reading a text that begins with a mark -----------------------------------------

  lemma {:induction false} GetCons(line: string, rest: seq<string>, key: string)
    ensures GetLines([line] + rest, key) == (if GetLines(rest, key).Some? then GetLines(rest, key)
                                             else if Assigns(line, key) then Some(ReadLine(line)) else None)
    decreases |rest|
  {
    hide Assigns, ReadLine, GetLines;
    if rest == [] {
      NothingAssigned(key);
      GetAppend([], line, key);
      assert [] + [line] == [line] + rest;
    } else {
      var n := |rest| - 1;
      GetCons(line, rest[..n], key);
      GetAppend(rest[..n], rest[n], key);
      GetAppend([line] + rest[..n], rest[n], key);
      assert rest == rest[..n] + [rest[n]];
      assert [line] + rest == ([line] + rest[..n]) + [rest[n]];
    }
  }

  lemma NothingAssigned(key: string)
    ensures GetLines([], key) == None
  {
  }

  lemma GetSome(lines: seq<string>, key: string)
    ensures GetLines(lines, key).Some? <==> exists i :: 0 <= i < |lines| && Assigns(lines[i], key)
  {
    hide ParseLine, ReadLine;
    var r := LastAssignment(lines, key);
    assert r.None? ==> forall i | 0 <= i < |lines| :: !Assigns(lines[i], key);
  }

  /** What `key` reads depends on whether the mark counts. */
  predicate HangsOnMark(lines: seq<string>, key: string) {
    && lines != [] && Marked(lines[0])
    && (Assigns(lines[0], key) || Assigns(lines[0][1..], key))
    && forall i | 1 <= i < |lines| :: !Assigns(lines[i], key)
  }

  lemma GetUnmarked(lines: seq<string>, key: string)
    requires LinesOk(lines)
    ensures GetLines(Unmarked(lines), key)
         == if !HangsOnMark(lines, key) then GetLines(lines, key)
            else if Assigns(lines[0], key) then None
            else Some(ReadLine(lines[0][1..]))
  {
    hide Assigns, ReadLine, GetLines, LinesOk;
    if lines != [] && Marked(lines[0]) {
      var line, rest := lines[0], lines[1..];
      MarkDecides(line, key);
      assert lines == [line] + rest;
      GetCons(line, rest, key);
      GetCons(line[1..], rest, key);
      GetSome(rest, key);
      assert (exists i :: 0 <= i < |rest| && Assigns(rest[i], key))
          <==> !(forall i | 1 <= i < |lines| :: !Assigns(lines[i], key)) by {
        assert forall i | 1 <= i < |lines| :: lines[i] == rest[i - 1];
      }
      if line == [BOM] {
        BareMark(lines, key);
        assert line[1..] == "" && rest == [];
        NothingAssigned(key);
      }
    }
  }

  lemma BareMark(lines: seq<string>, key: string)
    requires LinesOk(lines) && lines != [] && lines[0] == [BOM]
    ensures lines == [[BOM]] && !Assigns([BOM], key) && !Assigns("", key)
  {
    assert !Terminated([BOM]);
    assert Content([BOM]) == [BOM] && Content("") == "";
    hide SkipBlanks, KeyEnd;
    MarkedParse([BOM]);
  }

  /** What is read from joined lines. */
  lemma JoinedReads(lines: seq<string>, key: string)
    requires LinesOk(lines)
    ensures Get(Concat(lines), key)
         == if !HangsOnMark(lines, key) then GetLines(lines, key)
            else if Assigns(lines[0], key) then None
            else Some(ReadLine(lines[0][1..]))
  {
    hide Lines, Concat, GetLines, Unmarked, HangsOnMark;
    UnmarkedLines(lines);
    GetUnmarked(lines, key);
  }

  // ---- deleting -----------------------------------------------------------------------

  lemma {:induction false} DelFront(lines: seq<string>, keys: seq<string>)
    requires lines != []
    ensures DelLines(lines, keys)
         == (if Removed(lines[0], keys) then [] else [lines[0]]) + DelLines(lines[1..], keys)
    decreases |lines|
  {
    hide Removed;
    var n := |lines| - 1;
    if n > 0 {
      DelFront(lines[..n], keys);
      assert lines[..n][1..] == lines[1..][..n - 1];
      assert lines[1..][n - 1] == lines[n];
    }
  }

  /**
   * The first line that stays begins with a mark, and `key` hangs on it: assigned there, with the
   * mark or without, and on no later line that stays.
   */
  predicate MarkComesFirst(lines: seq<string>, keys: seq<string>, key: string) {
    && lines != []
    && if Removed(lines[0], keys) then MarkComesFirst(lines[1..], keys, key)
       else
         && Marked(lines[0])
         && (Assigns(lines[0], key) || Assigns(lines[0][1..], key))
         && forall i | 1 <= i < |lines| :: Assigns(lines[i], key) ==> Removed(lines[i], keys)
  }

  lemma {:induction false} DelLinesHold(lines: seq<string>, keys: seq<string>, line: string)
    ensures line in DelLines(lines, keys) <==> line in lines && !Removed(line, keys)
  {
    hide Removed;
    if lines != [] {
      DelLinesHold(lines[..|lines| - 1], keys, line);
      assert lines == lines[..|lines| - 1] + [lines[|lines| - 1]];
    }
  }

  lemma {:induction false} MarkAfterDel(lines: seq<string>, keys: seq<string>, key: string)
    ensures HangsOnMark(DelLines(lines, keys), key) <==> MarkComesFirst(lines, keys, key)
    decreases |lines|
  {
    hide Removed, Assigns, DelLines, Marked;
    if lines != [] {
      var rest, left := lines[1..], DelLines(lines[1..], keys);
      DelFront(lines, keys);
      if Removed(lines[0], keys) {
        assert [] + left == left;
        MarkAfterDel(rest, keys, key);
      } else {
        var after := [lines[0]] + left;
        forall line ensures line in left <==> line in rest && !Removed(line, keys) {
          DelLinesHold(rest, keys, line);
        }
        assert forall i | 1 <= i < |lines| :: lines[i] == rest[i - 1] && lines[i] in rest;
        assert forall i | 1 <= i < |after| :: after[i] == left[i - 1] && after[i] in left;
        forall line | line in left ensures exists i :: 1 <= i < |after| && after[i] == line {
          var k :| 0 <= k < |left| && left[k] == line;
          assert after[k + 1] == line;
        }
        forall line | line in rest ensures exists i :: 1 <= i < |lines| && lines[i] == line {
          var k :| 0 <= k < |rest| && rest[k] == line;
          assert lines[k + 1] == line;
        }
      }
    } else {
      NothingDeleted(keys);
    }
  }

  lemma NothingDeleted(keys: seq<string>)
    ensures DelLines([], keys) == []
  {
  }

  /** A mark in the body comes to the front of a text that has none of its own. */
  predicate ExposesMark(original: string, keys: seq<string>, key: string) {
    var (bom, body) := SplitBom(original);
    bom == "" && MarkComesFirst(Lines(body), keys, key)
  }

  /**
   * `del` removes every assignment of its keys and leaves every other key as it read, exactly when
   * no mark on which the key hangs comes to the front.
   */
  lemma DelFrame(original: string, keys: seq<string>, key: string)
    ensures Get(Del(original, keys), key) == (if key in keys then None else Get(original, key))
       <==> !ExposesMark(original, keys, key)
  {
    hide DelLines, Concat, GetLines, HangsOnMark, MarkComesFirst, Assigns, ReadLine, Lines, LinesOk;
    var (bom, body) := SplitBom(original);
    var lines, after := Lines(body), DelLines(Lines(body), keys);
    DelLinesOk(lines, keys);
    DelLinesGet(lines, keys, key);
    if bom == "" {
      assert "" + Concat(after) == Concat(after);
      JoinedReads(after, key);
      MarkAfterDel(lines, keys, key);
      if HangsOnMark(after, key) {
        HangingReads(after, key);
      }
    } else {
      LinesOfConcat(after);
      SplitJoined(bom, Concat(after));
    }
  }

  /** Where the mark counts, the two readings differ. */
  lemma HangingReads(lines: seq<string>, key: string)
    requires HangsOnMark(lines, key)
    ensures GetLines(lines, key) == if Assigns(lines[0], key) then Some(ReadLine(lines[0])) else None
  {
    hide Assigns, ReadLine, GetLines;
    var rest := lines[1..];
    assert lines == [lines[0]] + rest;
    GetCons(lines[0], rest, key);
    GetSome(rest, key);
    assert forall i | 0 <= i < |rest| :: rest[i] == lines[i + 1];
  }

  lemma FirstOfAppended(key: string, raw: string)
    requires key != ""
    ensures AppendedLine(key, raw, "\n") != "" && AppendedLine(key, raw, "\n")[0] == key[0]
  {
  }

  lemma TwoLines(one: string, two: string, key: string)
    requires IsLine(one) && Terminated(one) && IsLine(two)
    ensures Lines(one + two) == [one, two]
    ensures Assigns(two, key) ==> GetLines([one, two], key) == Some(ReadLine(two))
  {
    hide ParseLine;
    assert [one, two][1..] == [two] && [two][1..] == [];
    assert Concat([two]) == two;
    LinesOfConcat([one, two]);
    assert [one] + [two] == [one, two];
    GetAppend([one], two, key);
  }

  lemma FirstIsDeleted(one: string, two: string, key: string)
    requires Assigns(one, key) && !Assigns(two, key)
    ensures DelLines([one, two], [key]) == [two]
  {
    hide ParseLine;
    DelFront([one, two], [key]);
    assert [one, two][1..] == [two];
    DelLinesNone([two], key);
  }

  lemma OneJoined(line: string)
    ensures Concat([line]) == line
  {
    assert [line][1..] == [];
  }

  /** A text of two lines, `a=x` and, behind a mark, `b=y`; and what is left of it without `a`. */
  lemma MarkedSecond(a: string, x: string, b: string, y: string) returns (original: string)
    requires WellFormedKey(a) && WellFormedKey(b) && a[0] != BOM
    ensures original == AppendedLine(a, x, "\n") + AppendedLine([BOM] + b, y, "\n")
    ensures Get(original, [BOM] + b) == Some(y)
    ensures Del(original, [a]) == AppendedLine([BOM] + b, y, "\n")
  {
    hide Assigns, ReadLine, AppendedLine, GetLines, DelLines, Lines, Concat;
    var one, two, key := AppendedLine(a, x, "\n"), AppendedLine([BOM] + b, y, "\n"), [BOM] + b;
    original := one + two;
    AppendedReadsBack(a, x, "\n");
    AppendedReadsBack(key, y, "\n");
    FirstOfAppended(a, x);
    SplitJoined("", original);
    assert "" + original == original;
    TwoLines(one, two, key);
    NotThisKey(key, y, a);
    FirstIsDeleted(one, two, a);
    OneJoined(two);
    assert "" + two == two;
  }

  /** The exposed mark hides the key it belongs to. */
  lemma ExposedMarkIsLost(a: string, x: string, b: string, y: string)
    requires WellFormedKey(a) && WellFormedKey(b) && a[0] != BOM
    ensures var original := AppendedLine(a, x, "\n") + AppendedLine([BOM] + b, y, "\n");
      && Get(original, [BOM] + b) == Some(y)
      && Get(Del(original, [a]), [BOM] + b) == None
  {
    hide Get, Del, AppendedLine;
    var original := MarkedSecond(a, x, b, y);
    AppendedBehindBom(b, y);
    BehindBom(b, y, [BOM] + b);
  }

  /** And a deleted key comes back: behind the mark it was another one. */
  lemma DeletedKeyComesBack(a: string, x: string, y: string)
    requires WellFormedKey(a) && a[0] != BOM
    ensures var original := AppendedLine(a, x, "\n") + AppendedLine([BOM] + a, y, "\n");
      Get(Del(original, [a]), a) == Some(y)
  {
    hide Del, Assigns, ReadLine, AppendedLine, Lines;
    var original := MarkedSecond(a, x, a, y);
    AppendedBehindBom(a, y);
    var line := AppendedLine(a, y, "\n");
    AppendedReadsBack(a, y, "\n");
    SplitJoined([BOM], line);
    OnlyLine(line, a);
  }

  // ---- setting ------------------------------------------------------------------------

  /** The key stands on the first line of what was an empty text, behind a mark. */
  predicate OnMarkedLine(original: string, kvs: seq<KV>, key: string) {
    original == "" && if kvs == [] then Marked(key)
                      else Marked(kvs[0].path) && LastAssignment(LinesBefore(original, kvs), key) == Some(0)
  }

  lemma SetEmptyText(kvs: seq<KV>)
    requires OneLinePaths(kvs)
    ensures LinesOk(LinesBefore("", kvs)) && Set("", kvs) == Concat(LinesBefore("", kvs))
    ensures var lines := LinesBefore("", kvs);
      && (kvs == [] ==> lines == [])
      && (kvs != [] ==> lines != [] && lines[0] != "" && (Marked(lines[0]) <==> Marked(kvs[0].path)))
  {
    hide SetLines, Concat;
    assert Lines("") == [] && NewlineStyle("") == "\n";
    SetLinesKeepsLines([], kvs, "\n");
    SetLinesStarts([], kvs, "\n");
    var lines := LinesBefore("", kvs);
    assert "" + Concat(lines) == Concat(lines);
  }

  lemma LastAfterSet(lines: seq<string>, key: string, raw: string, newline: string)
    requires LinesOk(lines) && newline in ["\n", "\r\n"] && WellFormedKey(key)
    ensures var i := LastAssignment(lines, key);
      LastAssignment(SetKey(lines, key, raw, newline), key)
      == Some(if i.Some? then i.value else |lines|)
  {
    hide ParseLine, LastWhere;
    var p := (line: string) => Assigns(line, key);
    match LastAssignment(lines, key)
    case Some(i) =>
      var line := ReplaceInLine(lines[i], raw);
      ReplacedLine(lines[i], raw);
      ReplaceReadsBack(Content(lines[i]), raw);
      LastWhereIs(lines[i := line], p, i);
    case None =>
      AppendedReadsBack(key, raw, newline);
      LastWhereIs(EnsureTerminated(lines, newline) + [AppendedLine(key, raw, newline)], p, |lines|);
  }

  lemma HangsIsLast(lines: seq<string>, key: string)
    requires LastAssignment(lines, key).Some?
    ensures HangsOnMark(lines, key) <==> Marked(lines[0]) && LastAssignment(lines, key) == Some(0)
  {
    hide ParseLine;
    var r := LastAssignment(lines, key);
    assert Assigns(lines[r.value], key);
    assert forall k | r.value < k < |lines| :: !Assigns(lines[k], key);
  }

  /** The value written last is the value read, exactly when nothing fuses with it and no mark hides it. */
  lemma SetReadsBack(original: string, kvs: seq<KV>, kv: KV)
    requires OneLinePaths(kvs)
    ensures Get(Set(original, kvs + [kv]), kv.path) == Some(RawValue(kv.value))
       <==> && WellFormedKey(kv.path)
            && !FusesIn(LinesBefore(original, kvs), kv.path, RawValue(kv.value))
            && !OnMarkedLine(original, kvs, kv.path)
  {
    hide ParseLine, Get, Set, LinesBefore, FusesIn, HangsOnMark;
    assert kvs != [] ==> (kvs + [kv])[0] == kvs[0];
    if !HidesFirstKey(original, kvs + [kv]) {
      PlainSetReadsBack(original, kvs, kv);
      LastIsMarked(original, kvs, kv.path);
    } else if !WellFormedKey(kv.path) {
      ReadableKeys(Set(original, kvs + [kv]), kv.path);
    } else {
      var key, raw := kv.path, RawValue(kv.value);
      var before, after := LinesBefore(original, kvs), LinesBefore(original, kvs + [kv]);
      LinesAfter(original, kvs, kv);
      SetEmptyText(kvs);
      SetEmptyText(kvs + [kv]);
      EmptyStyle();
      SetKeyReadsBack(before, key, raw, "\n");
      LastAfterSet(before, key, raw, "\n");
      HangsIsLast(after, key);
      JoinedReads(after, key);
      if HangsOnMark(after, key) {
        HangingReads(after, key);
        ReadsLast(after, key);
      }
    }
  }

  lemma EmptyStyle()
    ensures SplitBom("").1 == "" && NewlineStyle("") == "\n"
  {
  }

  lemma ReadsLast(lines: seq<string>, key: string)
    requires LastAssignment(lines, key).Some?
    ensures GetLines(lines, key).Some?
  {
  }

  lemma LastIsMarked(original: string, kvs: seq<KV>, key: string)
    requires !HidesFirstKey(original, kvs + [KV(key, Null)])
    ensures !OnMarkedLine(original, kvs, key)
  {
    assert kvs != [] ==> (kvs + [KV(key, Null)])[0] == kvs[0];
  }

  function WithoutMark(line: string): string {
    if Marked(line) then line[1..] else line
  }

  /** The lines that are found after a call left these; in an empty text a mark gets lost. */
  function Found(original: string, lines: seq<string>): seq<string> {
    if original == "" then Unmarked(lines) else lines
  }

  /** The first line, rewritten for `own`, holds `key` without its mark, and its value becomes another. */
  predicate RewritesFirst(lines: seq<string>, own: string, raw: string, key: string) {
    && LastAssignment(lines, own) == Some(0)
    && HangsOnMark(lines, key) && Assigns(lines[0][1..], key)
    && (FusesIn(lines, own, raw) || GetLines(lines, own) != Some(raw))
  }

  /** What writing one more key changes for another: an added line disturbs it, or a rewritten first line. */
  predicate Disturbed(original: string, lines: seq<string>, own: string, raw: string, key: string) {
    match LastAssignment(lines, own)
    case None =>
      var newline, found := NewlineStyle(SplitBom(original).1), Found(original, lines);
      var line := AppendedLine(own, raw, newline);
      Disturbs(found, if original == "" && lines == [] then WithoutMark(line) else line, newline, key)
    case Some(_) => original == "" && RewritesFirst(lines, own, raw, key)
  }

  lemma {:induction false} SetLinesEnd(kvs: seq<KV>)
    requires OneLinePaths(kvs)
    ensures forall line | line in SetLines([], kvs, "\n") :: Terminated(line)
  {
    hide SetKey, Terminated;
    if kvs != [] {
      var n := |kvs| - 1;
      var before, key, raw := SetLines([], kvs[..n], "\n"), kvs[n].path, RawValue(kvs[n].value);
      SetLinesEnd(kvs[..n]);
      SetLinesKeepsLines([], kvs[..n], "\n");
      SetKeyEnds(before, key, raw);
    }
  }

  lemma SetKeyEnds(lines: seq<string>, key: string, raw: string)
    requires LinesOk(lines) && '\n' !in key && forall line | line in lines :: Terminated(line)
    ensures LastAssignment(lines, key).None? ==>
      SetKey(lines, key, raw, "\n") == lines + [AppendedLine(key, raw, "\n")]
    ensures forall line | line in SetKey(lines, key, raw, "\n") :: Terminated(line)
  {
    hide ParseLine, Terminated, AppendedLine;
    match LastAssignment(lines, key)
    case Some(i) => ReplacedLine(lines[i], raw);
    case None => AppendedIsLine(key, raw, "\n");
  }

  lemma NoCrAtEnd(lines: seq<string>, key: string)
    requires forall line | line in lines :: Terminated(line)
    ensures !LosesCr(Unmarked(lines), "\n", key)
  {
    hide ParseLine;
    var found := Unmarked(lines);
    if found != [] {
      var n := |lines| - 1;
      assert lines[n] in lines && lines[0] in lines && lines[0] != [BOM];
      assert found[|found| - 1] == if |found| == 1 && Marked(lines[0]) then lines[0][1..] else lines[n];
    }
  }

  lemma UnmarkedOne(own: string, raw: string)
    ensures Unmarked([AppendedLine(own, raw, "\n")]) == [WithoutMark(AppendedLine(own, raw, "\n"))]
  {
    hide QuoteEnv;
  }

  lemma DisturbsIs(lines: seq<string>, line: string, key: string)
    requires !LosesCr(lines, "\n", key)
    ensures Disturbs(lines, line, "\n", key) <==> Assigns(line, key) && GetLines(lines, key) != Some(ReadLine(line))
  {
  }

  /** Behind the mark the rewritten line holds the same key as before, if any. */
  lemma RewriteKeepsHidden(line: string, raw: string, key: string)
    requires IsLine(line) && Marked(line) && ParseLine(Content(line)).Some?
    ensures var x := ReplaceInLine(line, raw);
      Marked(x) && (Assigns(x[1..], key) <==> Assigns(line[1..], key))
  {
    hide ParseKey, NewValueText, ValueEnd, SplitLineEnd;
    var c, x := Content(line), ReplaceInLine(line, raw);
    var a := ParseLine(c).value;
    var text := NewValueText(a.quote, raw);
    var d := ReplaceValue(c, a, raw);
    MarkOfContent(line);
    ReplacedLine(line, raw);
    NewValueIsSolid(a.quote, raw);
    ValueStartsSolid(c);
    KeyWithoutMark(c);
    assert d[a.start] == text[0] && SamePrefix(c, d, a.start);
    ParseKeySame(c, d);
    assert Marked(x);
    MarkOfContent(x);
    KeyWithoutMark(d);
    var n := a.start - 1;
    assert SamePrefix(c[1..], d[1..], n) && SamePrefix(d[1..], c[1..], n);
    if ParseKey(c[1..]).Some? {
      ParseKeySame(c[1..], d[1..]);
    } else if ParseKey(d[1..]).Some? {
      ParseKeySame(d[1..], c[1..]);
    }
  }

  // The value of a line is read alike with and without the mark in front of its key.

  lemma {:induction false} DoubleEndShift(c: string, i: nat)
    requires 1 <= i <= |c|
    ensures DoubleEnd(c[1..], i - 1) == DoubleEnd(c, i) - 1
    decreases |c| - i
  {
    if i < |c| && c[i] != '"' {
      DoubleEndShift(c, if c[i] != '\\' then i + 1 else if i + 2 <= |c| then i + 2 else |c|);
    }
  }

  lemma {:induction false} SingleEndShift(c: string, i: nat)
    requires 1 <= i <= |c|
    ensures SingleEnd(c[1..], i - 1) == SingleEnd(c, i) - 1
    decreases |c| - i
  {
    if i < |c| && c[i] != '\'' {
      SingleEndShift(c, i + 1);
    }
  }

  lemma {:induction false} BareStopShift(c: string, start: nat, i: nat)
    requires 1 <= start <= i <= |c|
    ensures BareStop(c[1..], start - 1, i - 1) == BareStop(c, start, i) - 1
    decreases |c| - i
  {
    if i < |c| && !CommentAt(c, start, i) {
      BareStopShift(c, start, i + 1);
    }
  }

  lemma {:induction false} TrimBlanksShift(c: string, lo: nat, hi: nat)
    requires 1 <= lo <= hi <= |c|
    ensures TrimBlanks(c[1..], lo - 1, hi - 1) == TrimBlanks(c, lo, hi) - 1
  {
    if lo < hi && Blank(c[hi - 1]) {
      TrimBlanksShift(c, lo, hi - 1);
    }
  }

  lemma ValueEndShift(c: string, start: nat)
    requires 1 <= start <= |c|
    ensures QuoteAt(c[1..], start - 1) == QuoteAt(c, start)
    ensures ValueEnd(c[1..], start - 1) == ValueEnd(c, start) - 1
  {
    hide DoubleEnd, SingleEnd, BareStop, TrimBlanks;
    match QuoteAt(c, start)
    case Double => DoubleEndShift(c, start + 1);
    case Single => SingleEndShift(c, start + 1);
    case Bare =>
      BareStopShift(c, start, start);
      TrimBlanksShift(c, start, BareStop(c, start, start));
  }

  lemma ReadBehindMark(line: string)
    requires Marked(line) && ParseLine(Content(line)).Some? && ParseLine(Content(line[1..])).Some?
    ensures ReadLine(line[1..]) == ReadLine(line)
  {
    hide ParseKey, ValueEnd, QuoteAt, Content;
    MarkOfContent(line);
    var c := Content(line);
    KeyWithoutMark(c);
    var start := ParseKey(c).value.1;
    ValueEndShift(c, start);
    assert c[1..][start - 1..ValueEnd(c, start) - 1] == c[start..ValueEnd(c, start)];
  }

  /** Exactly when a rewritten line reads as before. */
  lemma RewriteChanges(line: string, raw: string)
    requires IsLine(line) && ParseLine(Content(line)).Some?
    ensures ParseLine(Content(ReplaceInLine(line, raw))).Some?
    ensures ReadLine(ReplaceInLine(line, raw)) == ReadLine(line)
       <==> !Fuses(Content(line), ParseLine(Content(line)).value, raw) && ReadLine(line) == raw
  {
    hide ParseKey, NewValueText, ValueEnd, QuoteAt, NeedsQuotes;
    var c := Content(line);
    ReplacedLine(line, raw);
    ReplaceReadsBack(c, raw);
    if Fuses(c, ParseLine(c).value, raw) {
      FusedReadsMore(c, raw);
    }
  }

  lemma FusedReadsMore(c: string, raw: string)
    requires ParseLine(c).Some? && Fuses(c, ParseLine(c).value, raw)
    ensures var d := ReplaceValue(c, ParseLine(c).value, raw);
      ParseLine(d).Some? && ValueOf(d, ParseLine(d).value) != ValueOf(c, ParseLine(c).value) == ""
  {
    hide ParseKey, ValueEnd, QuoteAt, NeedsQuotes;
    var a := ParseLine(c).value;
    var d := ReplaceValue(c, a, raw);
    ValueStartsSolid(c);
    NewValueIsSolid(a.quote, raw);
    assert d[a.start] == raw[0];
    ParseKeySame(c, d);
    FusedReadsLonger(c, a.start, raw);
    assert d == c[..a.start] + raw + c[a.start..];
  }

  lemma FoundRewrite(lines: seq<string>, i: nat, own: string, raw: string, key: string)
    requires LinesOk(lines) && forall line | line in lines :: Terminated(line)
    requires LastAssignment(lines, own) == Some(i) && key != own
    ensures GetLines(Unmarked(lines[i := ReplaceInLine(lines[i], raw)]), key) == GetLines(Unmarked(lines), key)
       <==> !RewritesFirst(lines, own, raw, key)
  {
    hide ParseLine, ReadLine, Content, ReplaceInLine, LastAssignment, IsLine, LinesOk, GetLines;
    LineOf(lines, i);
    var line, x := lines[i], ReplaceInLine(lines[i], raw);
    RewrittenLine(line, own, raw);
    if i > 0 || !Marked(line) {
      assert lines[0] in lines && lines[0] != [BOM];
      assert Unmarked(lines[i := x]) == Unmarked(lines)[i := x];
      LastOfUnmarked(lines, own, i);
      GetUpdate(Unmarked(lines), i, x, own, key);
    } else {
      var rest := lines[1..];
      RewriteKeepsHidden(line, raw, key);
      assert line in lines && Terminated(line);
      assert line != [BOM] && x != [BOM];
      assert Unmarked(lines) == [line[1..]] + rest && Unmarked(lines[0 := x]) == [x[1..]] + rest;
      GetCons(line[1..], rest, key);
      GetCons(x[1..], rest, key);
      GetSome(rest, key);
      LaterLines(lines, key);
      if Assigns(line[1..], key) {
        ReadBehindMark(line);
        ReadBehindMark(x);
        RewriteChanges(line, raw);
        LastIsRead(lines, own, i);
      }
    }
  }

  lemma LastIsRead(lines: seq<string>, own: string, i: nat)
    requires LastAssignment(lines, own) == Some(i)
    ensures GetLines(lines, own) == Some(ReadLine(lines[i]))
  {
  }

  lemma LineOf(lines: seq<string>, i: nat)
    requires LinesOk(lines) && i < |lines|
    ensures IsLine(lines[i])
  {
  }

  lemma LaterLines(lines: seq<string>, key: string)
    requires lines != []
    ensures (exists i :: 0 <= i < |lines[1..]| && Assigns(lines[1..][i], key))
       <==> !(forall i | 1 <= i < |lines| :: !Assigns(lines[i], key))
  {
    hide Assigns;
    assert forall i | 1 <= i < |lines| :: lines[i] == lines[1..][i - 1];
  }

  lemma RewrittenLine(line: string, own: string, raw: string)
    requires IsLine(line) && Assigns(line, own)
    ensures var x := ReplaceInLine(line, raw);
      Assigns(x, own) && x != "" && x[0] == line[0] && (Terminated(line) ==> Terminated(x))
  {
    hide ParseKey, NewValueText;
    ReplacedLine(line, raw);
    ReplaceReadsBack(Content(line), raw);
    SetOnly(line, own, raw);
  }

  lemma SetOnly(line: string, own: string, raw: string)
    requires IsLine(line) && Assigns(line, own)
    ensures var x := ReplaceInLine(line, raw); x != "" && x[0] == line[0]
  {
    hide ParseLine;
    SetKeyStarts([line], own, raw, "\n");
    LastWhereIs([line], (l: string) => Assigns(l, own), 0);
  }

  lemma LastOfUnmarked(lines: seq<string>, own: string, i: nat)
    requires LastAssignment(lines, own) == Some(i) && (i > 0 || !Marked(lines[0]))
    requires lines[0] != [BOM]
    ensures LastAssignment(Unmarked(lines), own) == Some(i)
  {
    hide ParseLine;
    LastWhereIs(Unmarked(lines), (l: string) => Assigns(l, own), i);
  }

  /** Setting in an empty text, as the next call finds the lines. */
  lemma FoundFrame(lines: seq<string>, own: string, raw: string, key: string)
    requires LinesOk(lines) && '\n' !in own && forall line | line in lines :: Terminated(line)
    requires key != own
    ensures GetLines(Unmarked(SetKey(lines, own, raw, "\n")), key) == GetLines(Unmarked(lines), key)
       <==> !Disturbed("", lines, own, raw, key)
  {
    hide Assigns, Disturbs, AppendedLine, GetLines, Unmarked, SetKey, LinesOk, LastAssignment, RewritesFirst;
    match LastAssignment(lines, own)
    case None => FoundAppend(lines, own, raw, key);
    case Some(i) =>
      FoundRewrite(lines, i, own, raw, key);
      SetRewrites(lines, i, own, raw);
  }

  lemma SetRewrites(lines: seq<string>, i: nat, own: string, raw: string)
    requires LastAssignment(lines, own) == Some(i)
    ensures SetKey(lines, own, raw, "\n") == lines[i := ReplaceInLine(lines[i], raw)]
  {
    hide ParseLine;
  }

  lemma FoundAppend(lines: seq<string>, own: string, raw: string, key: string)
    requires LinesOk(lines) && '\n' !in own && forall line | line in lines :: Terminated(line)
    requires LastAssignment(lines, own).None?
    ensures GetLines(Unmarked(SetKey(lines, own, raw, "\n")), key) == GetLines(Unmarked(lines), key)
       <==> !Disturbed("", lines, own, raw, key)
  {
    hide Assigns, ReadLine, Disturbs, AppendedLine, GetLines, LinesOk, LosesCr, SetKey, Unmarked, Terminated,
         LastAssignment, WithoutMark, NewlineStyle;
    SetKeyEnds(lines, own, raw);
    EmptyStyle();
    NoCrAtEnd(lines, key);
    var line := AppendedLine(own, raw, "\n");
    if lines == [] {
      NothingUnmarked();
      UnmarkedOne(own, raw);
      GetAppend([], WithoutMark(line), key);
      assert [] + [WithoutMark(line)] == [WithoutMark(line)] && lines + [line] == [line];
      DisturbsIs([], WithoutMark(line), key);
    } else {
      UnmarkedAppend(lines, line);
      GetAppend(Unmarked(lines), line, key);
      DisturbsIs(Unmarked(lines), line, key);
    }
  }

  lemma NothingUnmarked()
    ensures Unmarked([]) == []
  {
  }

  lemma UnmarkedAppend(lines: seq<string>, line: string)
    requires lines != [] && forall l | l in lines :: Terminated(l)
    ensures Unmarked(lines + [line]) == Unmarked(lines) + [line]
  {
    assert lines[0] in lines && lines[0] != [BOM];
    assert (lines + [line])[1..] == lines[1..] + [line];
  }

  /** Writing one more key leaves what every other key reads, exactly when nothing disturbs it. */
  lemma SetFrame(original: string, kvs: seq<KV>, kv: KV, key: string)
    requires OneLinePaths(kvs + [kv]) && key != kv.path
    ensures Get(Set(original, kvs + [kv]), key) == Get(Set(original, kvs), key)
       <==> !Disturbed(original, LinesBefore(original, kvs), kv.path, RawValue(kv.value), key)
  {
    hide ParseLine, Get, Set, LinesBefore, Disturbs, RewritesFirst, AppendedLine, Unmarked;
    if original == "" {
      EmptyFrame(kvs, kv, key);
    } else {
      PlainSetFrame(original, kvs, kv, key);
    }
  }

  lemma EmptyFrame(kvs: seq<KV>, kv: KV, key: string)
    requires OneLinePaths(kvs + [kv]) && key != kv.path
    ensures Get(Set("", kvs + [kv]), key) == Get(Set("", kvs), key)
       <==> !Disturbed("", LinesBefore("", kvs), kv.path, RawValue(kv.value), key)
  {
    hide Get, Set, LinesBefore, Disturbed, Unmarked, SetKey, Concat, LinesOk, Terminated, GetLines;
    PathsOf(kvs, kv);
    var before := LinesBefore("", kvs);
    LinesAfter("", kvs, kv);
    SetEmptyText(kvs);
    SetEmptyText(kvs + [kv]);
    EmptyLinesEnd(kvs);
    EmptyStyle();
    FoundFrame(before, kv.path, RawValue(kv.value), key);
    FoundReads(before, key);
    FoundReads(LinesBefore("", kvs + [kv]), key);
  }

  lemma PathsOf(kvs: seq<KV>, kv: KV)
    requires OneLinePaths(kvs + [kv])
    ensures OneLinePaths(kvs) && '\n' !in kv.path
  {
    assert forall i | 0 <= i < |kvs| :: kvs[i] == (kvs + [kv])[i];
    assert (kvs + [kv])[|kvs|] == kv;
  }

  lemma EmptyLinesEnd(kvs: seq<KV>)
    requires OneLinePaths(kvs)
    ensures forall line | line in LinesBefore("", kvs) :: Terminated(line)
  {
    EmptyStyle();
    SetLinesEnd(kvs);
  }

  lemma FoundReads(lines: seq<string>, key: string)
    requires LinesOk(lines)
    ensures Get(Concat(lines), key) == GetLines(Unmarked(lines), key)
  {
    hide Concat, Lines, GetLines;
    UnmarkedLines(lines);
  }

  // ---- undoing ------------------------------------------------------------------------

  lemma NothingToDelete(text: string, key: string)
    requires Get(text, key).None?
    ensures Del(text, [key]) == text
  {
    hide ParseLine, Concat, Lines;
    var (bom, body) := SplitBom(text);
    DelLinesNone(Lines(body), key);
  }

  lemma SetLengthens(original: string, kv: KV)
    requires Get(original, kv.path).None?
    ensures |Set(original, [kv])| > |original|
  {
    hide ParseLine, Lines, Set, QuoteEnv, NewlineStyle;
    SetAppendsLine(original, kv);
  }

  /**
   * Removing a key that `set` just added gives the text back byte for byte, exactly when the key
   * can stand on a line, is not hidden by a mark, and the text ended a line.
   */
  lemma DelUndoesSet(original: string, kv: KV)
    requires Get(original, kv.path).None?
    ensures Del(Set(original, [kv]), [kv.path]) == original
       <==> && WellFormedKey(kv.path)
            && !(original == "" && Marked(kv.path))
            && (SplitBom(original).1 == "" || Terminated(SplitBom(original).1))
  {
    hide Get, Set, Del, Terminated;
    if !WellFormedKey(kv.path) {
      ReadableKeys(Set(original, [kv]), kv.path);
      NothingToDelete(Set(original, [kv]), kv.path);
      SetLengthens(original, kv);
    } else if original == "" && Marked(kv.path) {
      HiddenKey(kv);
      NothingToDelete(Set(original, [kv]), kv.path);
      SetLengthens(original, kv);
    } else {
      PlainDelUndoesSet(original, kv);
    }
  }
}
