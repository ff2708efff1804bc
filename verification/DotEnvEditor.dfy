/** The dotenv editor as it runs: scanning loops, each tied to its specification. */
module DotEnvEditor {
  import opened Text
  import opened DotEnv

  method ScanLine(content: string) returns (r: Option<Assignment>)
    ensures r == ParseLine(content)
  {
    hide ValueEnd, SkipBlanks, KeyEnd;
    var n := |content|;
    var index := ScanBlanks(content, 0);
    if index >= n || content[index] == '#' {
      return None;
    }
    if ExportAt(content, index) {
      index := ScanBlanks(content, index + 6);
    }
    var keyStart := index;
    index := ScanKey(content, keyStart);
    if index == keyStart {
      return None;
    }
    var key := content[keyStart..index];
    index := ScanBlanks(content, index);
    if index >= n || content[index] != '=' {
      return None;
    }
    index := ScanBlanks(content, index + 1);
    var start := index;
    var quote, end := ScanValue(content, start);
    return Some(Assignment(key, start, end, quote));
  }

  method ScanBlanks(content: string, from: nat) returns (index: nat)
    requires from <= |content|
    ensures index == SkipBlanks(content, from)
  {
    index := from;
    while index < |content| && Blank(content[index])
      invariant index <= |content|
      invariant SkipBlanks(content, index) == SkipBlanks(content, from)
    {
      index := index + 1;
    }
  }

  method ScanKey(content: string, from: nat) returns (index: nat)
    requires from <= |content|
    ensures index == KeyEnd(content, from)
  {
    index := from;
    while index < |content| && !EndsKey(content[index])
      invariant index <= |content|
      invariant KeyEnd(content, index) == KeyEnd(content, from)
    {
      index := index + 1;
    }
  }

  method ScanValue(content: string, start: nat) returns (quote: Quote, end: nat)
    requires start <= |content|
    ensures quote == QuoteAt(content, start) && end == ValueEnd(content, start)
  {
    var n := |content|;
    var index := start;
    if index < n && content[index] == '"' {
      index := index + 1;
      var closed := false;
      while index < n && !closed
        invariant index <= n
        invariant DoubleEnd(content, start + 1) == if closed then index else DoubleEnd(content, index)
        decreases n - index, !closed
      {
        if content[index] == '\\' {
          index := if index + 2 <= n then index + 2 else n;
        } else if content[index] == '"' {
          index := index + 1;
          closed := true;
        } else {
          index := index + 1;
        }
      }
      return Double, index;
    } else if index < n && content[index] == '\'' {
      index := index + 1;
      while index < n && content[index] != '\''
        invariant index <= n
        invariant SingleEnd(content, index) == SingleEnd(content, start + 1)
      {
        index := index + 1;
      }
      if index < n {
        index := index + 1;
      }
      return Single, index;
    } else {
      end := index;
      while index < n && !CommentAt(content, start, index)
        invariant start <= index <= n
        invariant BareStop(content, start, index) == BareStop(content, start, start)
        invariant end == TrimBlanks(content, start, index)
      {
        if !Blank(content[index]) {
          end := index + 1;
        }
        index := index + 1;
      }
      return Bare, end;
    }
  }

  lemma EscapeStep(output: string, raw: string, i: nat)
    requires i < |raw|
    ensures output + EscapeDouble(raw[i..]) == output + EscapeChar(raw[i]) + EscapeDouble(raw[i + 1..])
  {
    hide EscapeChar;
    assert raw[i..][1..] == raw[i + 1..];
  }

  lemma EscapeEnd(output: string, raw: string)
    ensures output + EscapeDouble(raw[|raw|..]) == output && output + UnescapeDouble(raw[|raw|..]) == output
  {
  }

  /** One character, or one backslash with what it escapes. */
  lemma UnescapeStep(output: string, raw: string, i: nat)
    requires i < |raw|
    ensures var n := if raw[i] == '\\' && i + 1 < |raw| then 2 else 1;
      && i + n <= |raw|
      && output + UnescapeDouble(raw[i..])
         == output + (if n == 2 then UnescapeChar(raw[i + 1]) else [raw[i]]) + UnescapeDouble(raw[i + n..])
  {
    hide UnescapeChar;
    assert raw[i..][1..] == raw[i + 1..];
    assert i + 2 <= |raw| ==> raw[i..][2..] == raw[i + 2..];
  }

  method Escape(raw: string) returns (output: string)
    ensures output == EscapeDouble(raw)
  {
    hide EscapeDouble, EscapeChar;
    output := "";
    assert raw[0..] == raw;
    for i := 0 to |raw|
      invariant output + EscapeDouble(raw[i..]) == EscapeDouble(raw)
    {
      EscapeStep(output, raw, i);
      output := output + EscapeChar(raw[i]);
    }
    EscapeEnd(output, raw);
  }

  method Unescape(raw: string) returns (output: string)
    ensures output == UnescapeDouble(raw)
  {
    hide UnescapeDouble, UnescapeChar;
    output := "";
    var i := 0;
    assert raw[0..] == raw;
    while i < |raw|
      invariant i <= |raw|
      invariant output + UnescapeDouble(raw[i..]) == UnescapeDouble(raw)
    {
      UnescapeStep(output, raw, i);
      if raw[i] != '\\' {
        output := output + [raw[i]];
        i := i + 1;
      } else if i + 1 < |raw| {
        output := output + UnescapeChar(raw[i + 1]);
        i := i + 2;
      } else {
        output := output + "\\";
        i := i + 1;
      }
    }
    EscapeEnd(output, raw);
  }

  /** One line more, seen from the front. */
  lemma {:induction false} LastStep(lines: seq<string>, i: nat, key: string)
    requires i < |lines|
    ensures LastAssignment(lines[..i + 1], key)
         == if Assigns(lines[i], key) then Some(i) else LastAssignment(lines[..i], key)
  {
    hide Assigns;
    assert lines[..i + 1][..i] == lines[..i];
  }

  lemma NoLines(key: string)
    ensures LastAssignment([], key) == None
  {
  }

  lemma GetStep(lines: seq<string>, i: nat, key: string)
    requires i < |lines|
    ensures GetLines(lines[..i + 1], key)
         == if Assigns(lines[i], key) then Some(ReadLine(lines[i])) else GetLines(lines[..i], key)
  {
    hide LastAssignment, Assigns, ReadLine;
    LastStep(lines, i, key);
    assert lines[..i + 1][i] == lines[i];
    assert forall k | 0 <= k < i :: lines[..i + 1][k] == lines[..i][k];
  }

  lemma NothingRead(lines: seq<string>, key: string)
    ensures GetLines(lines[..0], key) == None
  {
  }

  method ReadKey(original: string, key: string) returns (result: Option<string>)
    ensures result == Get(original, key)
  {
    hide ParseLine, GetLines, ValueOf, Lines;
    var lines := Lines(SplitBom(original).1);
    result := None;
    NothingRead(lines, key);
    for i := 0 to |lines|
      invariant result == GetLines(lines[..i], key)
    {
      GetStep(lines, i, key);
      var content := Content(lines[i]);
      var a := ScanLine(content);
      if a.Some? && a.value.key == key {
        result := Some(ValueOf(content, a.value));
      }
    }
    assert lines[..|lines|] == lines;
  }

  method SetInLines(before: seq<string>, kv: KV, newline: string) returns (lines: seq<string>)
    ensures lines == SetKey(before, kv.path, RawValue(kv.value), newline)
  {
    hide ParseLine, ReplaceValue, SplitLineEnd, LastAssignment, AppendedLine;
    lines := before;
    var raw := RawValue(kv.value);
    var i := |lines|;
    assert lines[..i] == lines;
    NoLines(kv.path);
    while i > 0
      invariant 0 <= i <= |lines| && lines == before
      invariant LastAssignment(lines[..i], kv.path) == LastAssignment(lines, kv.path)
    {
      i := i - 1;
      LastStep(lines, i, kv.path);
      var (content, ending) := SplitLineEnd(lines[i]);
      var a := ScanLine(content);
      if a.Some? && a.value.key == kv.path {
        lines := lines[i := ReplaceValue(content, a.value, raw) + ending];
        return;
      }
    }
    assert lines[..0] == [];
    if lines != [] && !Terminated(lines[|lines| - 1]) {
      lines := lines[|lines| - 1 := lines[|lines| - 1] + newline];
    }
    lines := lines + [AppendedLine(kv.path, raw, newline)];
  }

  method SetKeys(original: string, kvs: seq<KV>) returns (result: string)
    ensures result == Set(original, kvs)
  {
    hide SetKey;
    var (bom, body) := SplitBom(original);
    var newline := NewlineStyle(body);
    var lines := Lines(body);
    assert kvs[..0] == [];
    for i := 0 to |kvs|
      invariant lines == SetLines(Lines(body), kvs[..i], newline)
    {
      assert kvs[..i + 1][..i] == kvs[..i];
      lines := SetInLines(lines, kvs[i], newline);
    }
    assert kvs[..|kvs|] == kvs;
    result := bom + Concat(lines);
  }

  lemma NothingKept(keys: seq<string>)
    ensures Concat(DelLines([], keys)) == ""
  {
  }

  lemma KeepStep(lines: seq<string>, keys: seq<string>, i: nat)
    requires i < |lines|
    ensures Concat(DelLines(lines[..i + 1], keys))
         == Concat(DelLines(lines[..i], keys)) + if Removed(lines[i], keys) then "" else lines[i]
  {
    hide Removed;
    assert lines[..i + 1][..i] == lines[..i];
    ConcatAppend(DelLines(lines[..i], keys), if Removed(lines[i], keys) then [] else [lines[i]]);
    assert [lines[i]][1..] == [] && Concat([lines[i]]) == lines[i] + "" == lines[i];
  }

  method DelKeys(original: string, keys: seq<string>) returns (result: string)
    ensures result == Del(original, keys)
  {
    hide ParseLine, DelLines, Concat, Lines, SplitLineEnd;
    var (bom, body) := SplitBom(original);
    var lines := Lines(body);
    var output := "";
    NothingKept(keys);
    assert lines[..0] == [];
    for i := 0 to |lines|
      invariant output == Concat(DelLines(lines[..i], keys))
    {
      var content := Content(lines[i]);
      var a := ScanLine(content);
      var remove := a.Some? && a.value.key in keys;
      KeepStep(lines, keys, i);
      if !remove {
        output := output + lines[i];
      }
    }
    assert lines[..|lines|] == lines;
    result := bom + output;
  }
}
