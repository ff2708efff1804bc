/** Server-sent events: splitting a stream into blocks, and events into text and back. */
module Sse {
  import opened Text

  datatype Event = Event(name: Option<string>, data: string)

  // ---- trimming ---------------------------------------------------------------------------------

  function TrimStart(s: string): (r: string)
    ensures r == "" || !Whitespace(r[0])
  {
    if s != "" && Whitespace(s[0]) then TrimStart(s[1..]) else s
  }

  function TrimEnd(s: string): (r: string)
    ensures r <= s
    ensures r == "" || !Whitespace(r[|r| - 1])
  {
    if s != "" && Whitespace(s[|s| - 1]) then TrimEnd(s[..|s| - 1]) else s
  }

  function Trim(s: string): string {
    TrimEnd(TrimStart(s))
  }

  function TrimSpaces(s: string): (r: string)
    ensures r == "" || r[0] != ' '
  {
    if s != "" && s[0] == ' ' then TrimSpaces(s[1..]) else s
  }

  // ---- blocks -------------------------------------------------------------------------------------

  predicate GapAt(s: string, p: nat) {
    p + 1 < |s| && s[p] == '\n' && s[p + 1] == '\n'
  }

  /** The first blank line at or after `i`. */
  function FindGap(s: string, i: nat): (r: Option<nat>)
    requires i <= |s|
    ensures r.Some? ==> i <= r.value && r.value + 1 < |s| && GapAt(s, r.value)
    ensures forall p | i <= p < (if r.Some? then r.value else |s|) :: !GapAt(s, p)
    decreases |s| - i
  {
    if i == |s| then None else if GapAt(s, i) then Some(i) else FindGap(s, i + 1)
  }

  /** `split("\n\n")` */
  function Split(s: string): (pieces: seq<string>)
    ensures pieces != []
    decreases |s|
  {
    match FindGap(s, 0)
    case None => [s]
    case Some(p) => [s[..p]] + Split(s[p + 2..])
  }

  /** The pieces trimmed, without those that are empty then. */
  function Blocks(pieces: seq<string>): seq<string> {
    if pieces == [] then []
    else (if Trim(pieces[0]) == "" then [] else [Trim(pieces[0])]) + Blocks(pieces[1..])
  }

  function ReplaceCrLf(s: string): string {
    if s == "" then ""
    else if |s| > 1 && s[0] == '\r' && s[1] == '\n' then "\n" + ReplaceCrLf(s[2..])
    else [s[0]] + ReplaceCrLf(s[1..])
  }

  function ReplaceCr(s: string): string {
    if s == "" then "" else [if s[0] == '\r' then '\n' else s[0]] + ReplaceCr(s[1..])
  }

  function Normalize(s: string): string {
    if '\r' in s then ReplaceCr(ReplaceCrLf(s)) else s
  }

  /** `split_sse_blocks` */
  function SplitBlocks(input: string): seq<string> {
    Blocks(Split(Normalize(input)))
  }

  // ---- the stream ------------------------------------------------------------------------------------

  /** The complete blocks of a buffer, and what stays in it. */
  function Taken(buffer: string): (seq<string>, string) {
    var pieces := Split(buffer);
    (Blocks(pieces[..|pieces| - 1]), pieces[|pieces| - 1])
  }

  /** Chunk after chunk is appended to the buffer and its complete blocks are taken. */
  function Streamed(buffer: string, chunks: seq<string>): (seq<string>, string)
    decreases |chunks|
  {
    if chunks == [] then ([], buffer)
    else
      var (blocks, rest) := Taken(buffer + chunks[0]);
      var (more, left) := Streamed(rest, chunks[1..]);
      (blocks + more, left)
  }

  /** All blocks of a stream; what is left at its end counts if it is not blank. */
  function StreamBlocks(chunks: seq<string>): seq<string> {
    var (blocks, left) := Streamed("", chunks);
    blocks + Blocks([left])
  }

  lemma {:induction false} BlocksAppend(a: seq<string>, b: seq<string>)
    ensures Blocks(a + b) == Blocks(a) + Blocks(b)
  {
    if a == [] {
      assert a + b == b;
    } else {
      assert (a + b)[1..] == a[1..] + b;
      BlocksAppend(a[1..], b);
    }
  }

  lemma GapStays(a: string, b: string)
    requires FindGap(a, 0).Some?
    ensures FindGap(a + b, 0) == FindGap(a, 0)
  {
    var p := FindGap(a, 0).value;
    var s := a + b;
    assert GapAt(s, p);
    var r := FindGap(s, 0);
    assert forall q | 0 <= q < p :: GapAt(s, q) ==> GapAt(a, q);
  }

  /** More text changes only the last piece. */
  lemma {:induction false} SplitAppend(a: string, b: string)
    ensures var pieces := Split(a);
      Split(a + b) == pieces[..|pieces| - 1] + Split(pieces[|pieces| - 1] + b)
    decreases |a|
  {
    hide FindGap, GapAt, Split;
    match FindGap(a, 0)
    case None =>
      SplitStep(a);
      assert [a][..0] + Split(a + b) == Split(a + b);
    case Some(p) =>
      GapStays(a, b);
      var rest := Split(a[p + 2..]);
      SplitAppend(a[p + 2..], b);
      SplitStep(a);
      SplitStep(a + b);
      assert (a + b)[..p] == a[..p] && (a + b)[p + 2..] == a[p + 2..] + b;
      PrependPiece(a[..p], rest, Split(rest[|rest| - 1] + b));
  }

  lemma SplitStep(s: string)
    ensures Split(s) == match FindGap(s, 0)
      case None => [s]
      case Some(p) => [s[..p]] + Split(s[p + 2..])
  {
  }

  lemma PrependPiece(piece: string, rest: seq<string>, more: seq<string>)
    requires rest != []
    ensures var pieces := [piece] + rest;
      && pieces[|pieces| - 1] == rest[|rest| - 1]
      && pieces[..|pieces| - 1] + more == [piece] + (rest[..|rest| - 1] + more)
  {
    var pieces := [piece] + rest;
    assert pieces[..|pieces| - 1] == [piece] + rest[..|rest| - 1];
  }

  /** The leftover of a buffer holds no blank line. */
  lemma {:induction false} LastHasNoGap(s: string)
    ensures var pieces := Split(s); FindGap(pieces[|pieces| - 1], 0).None?
    decreases |s|
  {
    match FindGap(s, 0)
    case None =>
    case Some(p) => LastHasNoGap(s[p + 2..]);
  }

  lemma {:induction false} StreamedIs(buffer: string, chunks: seq<string>)
    requires FindGap(buffer, 0).None?
    ensures var (blocks, left) := Streamed(buffer, chunks);
      blocks + Blocks([left]) == Blocks(Split(buffer + Concat(chunks)))
    decreases |chunks|
  {
    hide FindGap, GapAt, Split, Blocks;
    if chunks == [] {
      assert buffer + "" == buffer;
      SplitStep(buffer);
    } else {
      var s := buffer + chunks[0];
      var pieces := Split(s);
      var n := |pieces| - 1;
      LastHasNoGap(s);
      StreamedIs(pieces[n], chunks[1..]);
      SplitAppend(s, Concat(chunks[1..]));
      assert buffer + Concat(chunks) == s + Concat(chunks[1..]);
      BlocksAppend(pieces[..n], Split(pieces[n] + Concat(chunks[1..])));
    }
  }

  /** However the text is cut into chunks, the stream's blocks are those of the text. */
  lemma ChunkingChangesNothing(chunks: seq<string>)
    ensures StreamBlocks(chunks) == Blocks(Split(Concat(chunks)))
  {
    StreamedIs("", chunks);
    assert "" + Concat(chunks) == Concat(chunks);
  }

  /** With carriage returns they need not: the stream does not see `\r\n\r\n` as a blank line. */
  lemma CarriageReturnsDiffer()
    ensures StreamBlocks(["a\r\n\r\nb"]) == ["a\r\n\r\nb"]
    ensures SplitBlocks("a\r\n\r\nb") == ["a", "b"]
  {
    hide Split, Blocks, Streamed, Trim, Normalize;
    var t, u := "a\r\n\r\nb", "a\n\nb";
    ChunkingChangesNothing([t]);
    assert [t][1..] == [] && Concat([t]) == t + Concat([]) == t;
    assert FindGap(t, 0) == None by { assert forall p: nat :: !GapAt(t, p); }
    SplitStep(t);
    assert Trim(t) == t && Trim("a") == "a" && Trim("b") == "b" by {
      TrimIsSame(t);
      TrimIsSame("a");
      TrimIsSame("b");
    }
    OneBlock(t);
    NormalizedExample();
    assert FindGap(u, 0) == Some(1) by { assert GapAt(u, 1) && !GapAt(u, 0); }
    SplitStep(u);
    assert u[..1] == "a" && u[3..] == "b";
    assert FindGap("b", 0) == None by { assert forall p: nat :: !GapAt("b", p); }
    SplitStep("b");
    BlocksAppend(["a"], ["b"]);
    OneBlock("a");
    OneBlock("b");
  }

  lemma NormalizedExample()
    ensures Normalize("a\r\n\r\nb") == "a\n\nb"
  {
    assert ReplaceCrLf("b") == "b" by { assert "b"[1..] == ""; }
    assert ReplaceCrLf("\r\nb") == "\n" + "b" by { assert "\r\nb"[2..] == "b"; }
    assert ReplaceCrLf("\r\n\r\nb") == "\n" + ("\n" + "b") by { assert "\r\n\r\nb"[2..] == "\r\nb"; }
    var t := "a\r\n\r\nb";
    assert ReplaceCrLf(t) == "a\n\nb" by { assert t[1..] == "\r\n\r\nb"; }
    assert t[1] == '\r';
    NoCrKept("a\n\nb");
  }

  lemma {:induction false} NoCrKept(s: string)
    requires '\r' !in s
    ensures ReplaceCr(s) == s
  {
    if s != "" {
      assert forall c | c in s[1..] :: c in s;
      NoCrKept(s[1..]);
      assert s == [s[0]] + s[1..];
    }
  }

  // ---- events -------------------------------------------------------------------------------------------

  const EVENT := "event:"
  const DATA := "data:"

  predicate HasPrefix(line: string, prefix: string) {
    prefix <= line
  }

  /** The last `event:` line names the event. */
  function NameOf(lines: seq<string>): Option<string> {
    if lines == [] then None
    else
      var line := lines[|lines| - 1];
      if HasPrefix(line, EVENT) then Some(Trim(line[|EVENT|..])) else NameOf(lines[..|lines| - 1])
  }

  function DataOf(lines: seq<string>): seq<string> {
    if lines == [] then []
    else
      var line := lines[|lines| - 1];
      DataOf(lines[..|lines| - 1])
      + if !HasPrefix(line, EVENT) && HasPrefix(line, DATA) then [TrimSpaces(line[|DATA|..])] else []
  }

  function Join(lines: seq<string>): string {
    if lines == [] then "" else if |lines| == 1 then lines[0] else lines[0] + "\n" + Join(lines[1..])
  }

  function Contents(lines: seq<string>): (r: seq<string>)
    ensures |r| == |lines|
    ensures forall i | 0 <= i < |lines| :: r[i] == Content(lines[i])
  {
    seq(|lines|, i requires 0 <= i < |lines| => Content(lines[i]))
  }

  /** `parse_sse_block` */
  function ParseBlock(block: string): Option<Event> {
    var lines := Contents(Lines(block));
    if DataOf(lines) == [] then None else Some(Event(NameOf(lines), Join(DataOf(lines))))
  }

  function ParseAll(blocks: seq<string>): seq<Option<Event>> {
    seq(|blocks|, i requires 0 <= i < |blocks| => ParseBlock(blocks[i]))
  }

  function FormatData(data: string): string {
    "data: " + data + "\n\n"
  }

  function FormatEvent(name: string, data: string): string {
    "event: " + name + "\ndata: " + data + "\n\n"
  }

  function Format(e: Event): string {
    match e.name
    case None => FormatData(e.data)
    case Some(name) => FormatEvent(name, e.data)
  }

  predicate OneLine(s: string) {
    '\n' !in s && '\r' !in s
  }

  /** What survives the way through a stream: single lines that trimming leaves alone. */
  predicate Plain(e: Event) {
    && OneLine(e.data) && (e.data != "" ==> e.data[0] != ' ' && !Whitespace(e.data[|e.data| - 1]))
    && (e.name.Some? ==> OneLine(e.name.value) && Trim(e.name.value) == e.name.value)
  }

  /** The formatted event without its blank line. */
  function Body(e: Event): (b: string)
    ensures Format(e) == b + "\n\n"
  {
    match e.name
    case None => "data: " + e.data
    case Some(name) => "event: " + name + "\ndata: " + e.data
  }

  /** The body as its block: the space behind an empty `data:` goes. */
  function Block(e: Event): string {
    var data := if e.data == "" then "data:" else "data: " + e.data;
    match e.name
    case None => data
    case Some(name) => "event: " + name + "\n" + data
  }

  lemma BodyHasNoGap(e: Event, p: nat)
    requires Plain(e)
    ensures !GapAt(Body(e), p)
    ensures Body(e) != "" && Body(e)[|Body(e)| - 1] != '\n'
    ensures '\r' !in Body(e)
  {
    var b, data := Body(e), "data: " + e.data;
    assert forall c | c in data :: c != '\n' && c != '\r';
    if e.name.Some? {
      var head := "event: " + e.name.value;
      assert forall c | c in head :: c != '\n' && c != '\r';
      assert b == head + "\n" + data;
      assert b[|head|] == '\n' && b[|head| + 1] == 'd';
      assert forall k | 0 <= k < |b| :: b[k] == if k < |head| then head[k] else if k == |head| then '\n' else data[k - |head| - 1];
    } else {
      assert b == data;
    }
  }

  /** A formatted event in front of anything is a piece of its own. */
  lemma {:induction false} SplitFirst(e: Event, rest: string)
    requires Plain(e)
    ensures Split(Format(e) + rest) == [Body(e)] + Split(rest)
  {
    hide Plain, Body, Format, FindGap;
    var b := Body(e);
    var s := Format(e) + rest;
    assert s == b + ("\n\n" + rest);
    forall p: nat | p < |b| ensures !GapAt(s, p) {
      BodyHasNoGap(e, p);
      assert p + 1 < |b| ==> s[p + 1] == b[p + 1];
    }
    assert GapAt(s, |b|);
    SplitStep(s);
    assert s[..|b|] == b && s[|b| + 2..] == rest;
  }

  lemma TrimIsSame(s: string)
    requires s != "" ==> !Whitespace(s[0]) && !Whitespace(s[|s| - 1])
    ensures Trim(s) == s
  {
  }

  lemma BodyStarts(e: Event)
    ensures Body(e) != "" && !Whitespace(Body(e)[0])
  {
  }

  lemma {:induction false} BlockIsTrimmed(e: Event)
    requires Plain(e)
    ensures Trim(Body(e)) == Block(e) && Block(e) != ""
  {
    hide Whitespace;
    var b := Body(e);
    BodyStarts(e);
    if e.data == "" {
      EmptyDataTrims(e);
    } else {
      assert b == Block(e) && b[|b| - 1] == e.data[|e.data| - 1];
      TrimIsSame(b);
    }
  }

  lemma EmptyDataTrims(e: Event)
    requires e.data == ""
    ensures Trim(Body(e)) == Block(e) && Block(e) != ""
  {
    hide Whitespace;
    var b, block := Body(e), Block(e);
    BodyStarts(e);
    assert Whitespace(' ') && !Whitespace(':') by { ColonIsVisible(); }
    assert b == block + " ";
    assert b[..|b| - 1] == block && block[|block| - 1] == ':';
    assert TrimEnd(b) == TrimEnd(block) == block;
  }

  lemma ColonIsVisible()
    ensures Whitespace(' ') && !Whitespace(':')
  {
  }

  lemma DataLineIs(e: Event)
    requires Plain(e)
    ensures var data := if e.data == "" then "data:" else "data: " + e.data;
      && IsLine(data) && '\n' !in data
      && Content(data) == data
      && !HasPrefix(data, EVENT) && HasPrefix(data, DATA) && TrimSpaces(data[|DATA|..]) == e.data
  {
    var data := if e.data == "" then "data:" else "data: " + e.data;
    assert data[0] == 'd' && EVENT[0] == 'e';
    assert data[|DATA|..] == if e.data == "" then "" else " " + e.data;
    if e.data != "" {
      assert (" " + e.data)[1..] == e.data;
    }
  }

  lemma NameLineIs(name: string)
    requires OneLine(name) && Trim(name) == name
    ensures var line := "event: " + name + "\n";
      && IsLine(line) && Terminated(line)
      && Content(line) == "event: " + name
      && HasPrefix(Content(line), EVENT) && Trim(Content(line)[|EVENT|..]) == name
  {
    var head := "event: " + name;
    var line := head + "\n";
    assert line[..|line| - 1] == head && head[|head| - 1] != '\r';
    assert head[|EVENT|..] == " " + name;
    assert (" " + name)[1..] == name;
    assert TrimStart(" " + name) == TrimStart(name);
    TrimTwice(name);
  }

  lemma TrimTwice(name: string)
    requires Trim(name) == name
    ensures TrimStart(name) == name
  {
    StartShrinks(name);
    assert |name| <= |TrimStart(name)|;
  }

  lemma {:induction false} StartShrinks(s: string)
    ensures |TrimStart(s)| <= |s| && (|TrimStart(s)| == |s| ==> TrimStart(s) == s)
  {
    if s != "" && Whitespace(s[0]) {
      StartShrinks(s[1..]);
    }
  }

  lemma OneLineParses(data: string)
    requires IsLine(data) && '\n' !in data && Content(data) == data
    ensures Contents(Lines(data)) == [data]
  {
    assert Concat([data]) == data by { assert [data][1..] == [] && data + "" == data; }
    LinesOfConcat([data]);
    assert Contents([data]) == [data];
  }

  lemma TwoConcat(a: string, b: string)
    ensures Concat([a, b]) == a + b
  {
    assert [a, b][1..] == [b] && [b][1..] == [];
    assert Concat([b]) == b + "" == b;
  }

  lemma TwoLinesParse(first: string, data: string)
    requires IsLine(first) && Terminated(first) && IsLine(data) && '\n' !in data && Content(data) == data
    ensures Contents(Lines(first + data)) == [Content(first), data]
  {
    hide Lines, SplitLineEnd, Content, IsLine, Terminated;
    TwoConcat(first, data);
    LinesOfConcat([first, data]);
    assert Contents([first, data]) == [Content(first), data];
  }

  lemma TwoLinesRead(first: string, data: string)
    requires HasPrefix(first, EVENT) && !HasPrefix(data, EVENT) && HasPrefix(data, DATA)
    ensures NameOf([first, data]) == Some(Trim(first[|EVENT|..]))
    ensures DataOf([first, data]) == [TrimSpaces(data[|DATA|..])]
  {
    assert [first, data][..1] == [first] && [first][..0] == [];
    assert DataOf([first]) == DataOf([]) + [] == [];
  }

  lemma OneLineRead(data: string)
    requires !HasPrefix(data, EVENT) && HasPrefix(data, DATA)
    ensures NameOf([data]) == None
    ensures DataOf([data]) == [TrimSpaces(data[|DATA|..])]
  {
    assert [data][..0] == [];
    assert DataOf([]) == [] && NameOf([]) == None;
  }

  /** A formatted event parses to itself. */
  lemma BlockParses(e: Event)
    requires Plain(e)
    ensures ParseBlock(Block(e)) == Some(e)
  {
    hide Whitespace, Trim, TrimSpaces, SplitLineEnd, Lines, NameOf, DataOf;
    var data := if e.data == "" then "data:" else "data: " + e.data;
    DataLineIs(e);
    match e.name
    case None =>
      OneLineParses(data);
      OneLineRead(data);
    case Some(name) =>
      var first := "event: " + name + "\n";
      NameLineIs(name);
      TwoLinesParse(first, data);
      TwoLinesRead(Content(first), data);
  }

  function FormatAll(events: seq<Event>): string
    decreases |events|
  {
    if events == [] then "" else Format(events[0]) + FormatAll(events[1..])
  }

  function BlocksOf(events: seq<Event>): seq<string> {
    seq(|events|, i requires 0 <= i < |events| => Block(events[i]))
  }

  lemma {:induction false} FormattedBlocks(events: seq<Event>)
    requires forall e | e in events :: Plain(e)
    ensures '\r' !in FormatAll(events)
    ensures Blocks(Split(FormatAll(events))) == BlocksOf(events)
    decreases |events|
  {
    hide Trim, Plain, Body, Block, Format, Split, Blocks;
    if events == [] {
      EmptySplits();
    } else {
      var e, rest := events[0], FormatAll(events[1..]);
      FormattedBlocks(events[1..]);
      SplitFirst(e, rest);
      BlockIsTrimmed(e);
      BodyHasNoGap(e, 0);
      NoCrJoined(Body(e), rest);
      BlocksAppend([Body(e)], Split(rest));
      OneBlock(Body(e));
      assert BlocksOf(events) == [Block(e)] + BlocksOf(events[1..]);
    }
  }

  lemma NoCrJoined(body: string, rest: string)
    requires '\r' !in body && '\r' !in rest
    ensures '\r' !in (body + "\n\n") + rest
  {
  }

  lemma EmptySplits()
    ensures Blocks(Split("")) == []
  {
    assert Split("") == [""];
    OneBlock("");
    EmptyTrims();
  }

  lemma EmptyTrims()
    ensures Trim("") == ""
  {
  }

  /**
   * Formatting events, cutting the text anywhere, taking the blocks and parsing them gives the
   * events back; and so does the batch splitter.
   */
  lemma EventsComeBack(events: seq<Event>, chunks: seq<string>)
    requires forall e | e in events :: Plain(e)
    requires Concat(chunks) == FormatAll(events)
    ensures ParseAll(SplitBlocks(FormatAll(events))) == seq(|events|, i requires 0 <= i < |events| => Some(events[i]))
    ensures StreamBlocks(chunks) == SplitBlocks(FormatAll(events))
  {
    hide StreamBlocks, Plain, Block, ParseBlock, Split, Blocks;
    FormattedBlocks(events);
    ChunkingChangesNothing(chunks);
    forall i | 0 <= i < |events| ensures ParseBlock(Block(events[i])) == Some(events[i]) {
      BlockParses(events[i]);
    }
  }

  // ---- the loops as they run --------------------------------------------------------------------------------

  class Buffer {
    var text: string

    constructor ()
      ensures text == ""
    {
      text := "";
    }

    /** Takes the blocks that are complete out of the buffer. */
    method TakeComplete() returns (blocks: seq<string>)
      modifies this
      ensures (blocks, text) == Taken(old(text))
    {
      hide FindGap, GapAt, Split, Blocks, Trim;
      blocks := [];
      ghost var pieces, n := Split(text), 0;
      assert pieces[n..] == pieces;
      EmptyBlocks(pieces);
      while true
        invariant n < |pieces| && pieces[n..] == Split(text) && pieces == Split(old(text))
        invariant blocks == Blocks(pieces[..n])
        decreases |text|
      {
        var pos := FindGap(text, 0);
        SplitStep(text);
        assert pieces[n..][0] == pieces[n];
        if pos.None? {
          return;
        }
        var block := Trim(text[..pos.value]);
        assert pieces[n..][1..] == pieces[n + 1..];
        assert pieces[..n + 1] == pieces[..n] + [pieces[n]];
        BlocksAppend(pieces[..n], [pieces[n]]);
        OneBlock(pieces[n]);
        text := text[pos.value + 2..];
        if block != "" {
          blocks := blocks + [block];
        }
        n := n + 1;
      }
    }

    /** The streaming loop: every chunk, then what is left. */
    method Drain(chunks: seq<string>) returns (blocks: seq<string>)
      requires text == ""
      modifies this
      ensures blocks == Blocks(Split(Concat(chunks)))
    {
      hide Split, Blocks, Trim;
      blocks := [];
      var n := 0;
      assert chunks[n..] == chunks && blocks + Streamed("", chunks).0 == Streamed("", chunks).0;
      while n < |chunks|
        invariant n <= |chunks|
        invariant Streamed("", chunks) == (blocks + Streamed(text, chunks[n..]).0, Streamed(text, chunks[n..]).1)
      {
        assert chunks[n..][0] == chunks[n] && chunks[n..][1..] == chunks[n + 1..];
        ghost var was := blocks;
        text := text + chunks[n];
        var taken := TakeComplete();
        blocks := blocks + taken;
        assert was + (taken + Streamed(text, chunks[n + 1..]).0) == blocks + Streamed(text, chunks[n + 1..]).0;
        n := n + 1;
      }
      var left := Trim(text);
      assert Blocks([text]) == if left == "" then [] else [left] by { OneBlock(text); }
      if left != "" {
        blocks := blocks + [left];
      }
      ChunkingChangesNothing(chunks);
    }
  }

  lemma EmptyBlocks(pieces: seq<string>)
    ensures Blocks(pieces[..0]) == []
  {
  }

  lemma OneBlock(s: string)
    ensures Blocks([s]) == if Trim(s) == "" then [] else [Trim(s)]
  {
    assert [s][1..] == [] && Blocks([]) == [];
  }

  lemma ReadNone()
    ensures NameOf([]) == None && DataOf([]) == []
  {
  }

  /** What one more line adds. */
  lemma ReadStep(lines: seq<string>, n: nat)
    requires n < |lines|
    ensures var line := lines[n];
      && (HasPrefix(line, EVENT) ==> |EVENT| <= |line|) && (HasPrefix(line, DATA) ==> |DATA| <= |line|)
      && NameOf(lines[..n + 1])
         == (if HasPrefix(line, EVENT) then Some(Trim(line[|EVENT|..])) else NameOf(lines[..n]))
      && DataOf(lines[..n + 1])
         == (if !HasPrefix(line, EVENT) && HasPrefix(line, DATA) then DataOf(lines[..n]) + [TrimSpaces(line[|DATA|..])]
             else DataOf(lines[..n]))
  {
    assert lines[..n + 1][..n] == lines[..n];
  }

  method ParseSseBlock(block: string) returns (r: Option<Event>)
    ensures r == ParseBlock(block)
  {
    hide NameOf, DataOf, Trim, TrimSpaces, Lines, HasPrefix;
    var lines := Contents(Lines(block));
    var name: Option<string>, data: seq<string>, n := None, [], 0;
    ReadNone();
    assert lines[..n] == [];
    while n < |lines|
      invariant n <= |lines| && name == NameOf(lines[..n]) && data == DataOf(lines[..n])
    {
      var line := lines[n];
      ReadStep(lines, n);
      if HasPrefix(line, EVENT) {
        name := Some(Trim(line[|EVENT|..]));
      } else if HasPrefix(line, DATA) {
        data := data + [TrimSpaces(line[|DATA|..])];
      }
      n := n + 1;
    }
    assert lines[..n] == lines;
    return if data == [] then None else Some(Event(name, Join(data)));
  }
}
