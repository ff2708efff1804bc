/** Carriage returns in a stream: exactly when the streaming splitter and the batch splitter agree. */
module SseMargins {
  import opened Text
  import opened Sse

  /** Every carriage return stands in the white space around what lies between two blank lines. */
  ghost predicate CrInMargins(s: string) {
    forall piece | piece in Split(s) :: '\r' !in Trim(piece)
  }

  // ---- trimming ---------------------------------------------------------------------------------------

  lemma {:induction false} StartSplits(s: string) returns (lead: string)
    ensures AllWhitespace(lead) && s == lead + TrimStart(s)
    decreases |s|
  {
    hide Whitespace;
    lead := "";
    if s != "" && Whitespace(s[0]) {
      var more := StartSplits(s[1..]);
      lead := [s[0]] + more;
      var start := TrimStart(s[1..]);
      assert s == [s[0]] + s[1..] && [s[0]] + (more + start) == lead + start;
    }
  }

  lemma {:induction false} EndSplits(s: string) returns (trail: string)
    ensures AllWhitespace(trail) && s == TrimEnd(s) + trail
    decreases |s|
  {
    hide Whitespace;
    trail := "";
    if s != "" && Whitespace(s[|s| - 1]) {
      var more := EndSplits(s[..|s| - 1]);
      trail := more + [s[|s| - 1]];
      var start := TrimEnd(s[..|s| - 1]);
      assert s == s[..|s| - 1] + [s[|s| - 1]] && (start + more) + [s[|s| - 1]] == start + trail;
    }
  }

  /** Visible at both ends. */
  predicate Core(s: string) {
    s != "" && !Whitespace(s[0]) && !Whitespace(s[|s| - 1])
  }

  lemma TrimSplits(s: string) returns (lead: string, trail: string)
    ensures AllWhitespace(lead) && AllWhitespace(trail) && s == lead + Trim(s) + trail
    ensures Trim(s) == "" || Core(Trim(s))
  {
    hide Whitespace;
    lead := StartSplits(s);
    trail := EndSplits(TrimStart(s));
    assert s == lead + (Trim(s) + trail);
    assert Trim(s) != "" ==> Trim(s)[0] == TrimStart(s)[0];
  }

  lemma {:induction false} TrimStartMargin(lead: string, s: string)
    requires AllWhitespace(lead)
    ensures TrimStart(lead + s) == TrimStart(s)
    decreases |lead|
  {
    if lead == "" {
      assert lead + s == s;
    } else {
      assert (lead + s)[1..] == lead[1..] + s;
      TrimStartMargin(lead[1..], s);
    }
  }

  lemma {:induction false} TrimEndMargin(s: string, trail: string)
    requires AllWhitespace(trail)
    ensures TrimEnd(s + trail) == TrimEnd(s)
    decreases |trail|
  {
    if trail == "" {
      assert s + trail == s;
    } else {
      var n := |trail| - 1;
      assert (s + trail)[..|s| + n] == s + trail[..n];
      TrimEndMargin(s, trail[..n]);
    }
  }

  lemma TrimsToCore(core: string, trail: string)
    requires Core(core) && AllWhitespace(trail)
    ensures Trim(core + trail) == core
  {
    assert (core + trail)[0] == core[0];
    TrimEndMargin(core, trail);
  }

  // ---- white space between blocks ---------------------------------------------------------------------

  function BlocksIn(s: string): seq<string> {
    Blocks(Split(s))
  }

  lemma BlocksStep(s: string)
    ensures BlocksIn(s) == match FindGap(s, 0)
      case None => Blocks([s])
      case Some(p) => Blocks([s[..p]]) + BlocksIn(s[p + 2..])
  {
    hide FindGap, Blocks, Trim;
    SplitStep(s);
    if FindGap(s, 0).Some? {
      var p := FindGap(s, 0).value;
      BlocksAppend([s[..p]], Split(s[p + 2..]));
    }
  }

  /** Where the first blank line is. */
  lemma FirstGap(s: string, p: nat)
    requires GapAt(s, p) && forall q | 0 <= q < p :: !GapAt(s, q)
    ensures p + 1 < |s| && FindGap(s, 0) == Some(p)
  {
  }

  lemma NoGap(s: string)
    requires forall q | 0 <= q < |s| :: !GapAt(s, q)
    ensures FindGap(s, 0) == None
  {
  }

  lemma {:induction false} WhiteCharBefore(c: char, s: string)
    requires Whitespace(c)
    ensures BlocksIn([c] + s) == BlocksIn(s)
    decreases |s|
  {
    hide BlocksIn, Split, Blocks, Trim, FindGap, Whitespace;
    var t := [c] + s;
    assert forall q | 0 < q < |t| :: GapAt(t, q) <==> GapAt(s, q - 1);
    BlocksStep(t);
    if GapAt(t, 0) {
      FirstGap(t, 0);
      assert t[..0] == "" && t[2..] == s[1..] && s == [c] + s[1..];
      OneBlock("");
      EmptyTrims();
      WhiteCharBefore(c, s[1..]);
    } else {
      BlocksStep(s);
      if FindGap(s, 0).None? {
        NoGap(t);
        SameBlock(c, s);
      } else {
        var p := FindGap(s, 0).value;
        assert GapAt(t, p + 1);
        FirstGap(t, p + 1);
        assert t[..p + 1] == [c] + s[..p] && t[p + 3..] == s[p + 2..];
        SameBlock(c, s[..p]);
      }
    }
  }

  lemma SameBlock(c: char, piece: string)
    requires Whitespace(c)
    ensures Blocks([[c] + piece]) == Blocks([piece])
  {
    OneBlock([c] + piece);
    OneBlock(piece);
    TrimStartMargin([c], piece);
  }

  /** White space in front, blank lines included, makes no block. */
  lemma {:induction false} WhiteBefore(white: string, s: string)
    requires AllWhitespace(white)
    ensures BlocksIn(white + s) == BlocksIn(s)
    decreases |white|
  {
    hide BlocksIn, Whitespace;
    if white == "" {
      assert white + s == s;
    } else {
      assert white + s == [white[0]] + (white[1..] + s);
      WhiteBefore(white[1..], s);
      WhiteCharBefore(white[0], white[1..] + s);
    }
  }

  lemma WhiteHasNoBlock(white: string)
    requires AllWhitespace(white)
    ensures BlocksIn(white) == []
  {
    WhiteBefore(white, "");
    assert white + "" == white;
    EmptySplits();
  }

  lemma LineEndsAreWhite()
    ensures Whitespace('\n') && Whitespace('\r')
  {
  }

  /** The blank lines are those of the white space. */
  lemma GapBehind(core: string, white: string, s: string, q: nat)
    requires core != "" && core[|core| - 1] != '\n' && (q < |core| ==> !GapAt(core, q))
    requires q + 1 < |core + white| && GapAt(core + white + s, q)
    ensures |core| <= q && GapAt(white, q - |core|)
  {
    var t := core + white + s;
    assert forall k | 0 <= k < |core| :: t[k] == core[k];
    assert forall k | |core| <= k < |core + white| :: t[k] == white[k - |core|];
  }

  /** A visible stretch with white space behind it is one block, if a blank line or the end follows. */
  lemma CoreIsBlock(core: string, white: string, s: string)
    requires Core(core) && AllWhitespace(white) && forall q | 0 <= q < |core| :: !GapAt(core, q)
    requires FindGap(white, 0).Some? || s == ""
    ensures BlocksIn(core + white + s) == [core] + BlocksIn(s)
  {
    hide BlocksIn, Split, Blocks, Trim, FindGap, Whitespace, GapAt;
    LineEndsAreWhite();
    var t, n := core + white + s, |core|;
    BlocksStep(t);
    if FindGap(white, 0).Some? {
      var g := FindGap(white, 0).value;
      GapMoves(core, white, s, g);
      GapInside(white, g);
      forall q | 0 <= q < n + g ensures !GapAt(t, q) {
        if GapAt(t, q) {
          GapBehind(core, white, s, q);
        }
      }
      FirstGap(t, n + g);
      assert t[..n + g] == core + white[..g] && t[n + g + 2..] == white[g + 2..] + s;
      TrimsToCore(core, white[..g]);
      OneBlock(core + white[..g]);
      WhiteBefore(white[g + 2..], s);
    } else {
      assert t == core + white;
      forall q | 0 <= q < |t| ensures !GapAt(t, q) {
        if GapAt(t, q) {
          GapInside(t, q);
          GapBehind(core, white, s, q);
        }
      }
      NoGap(t);
      TrimsToCore(core, white);
      OneBlock(t);
      WhiteHasNoBlock("");
    }
  }

  lemma GapInside(t: string, q: nat)
    requires GapAt(t, q)
    ensures q + 1 < |t|
  {
  }

  lemma GapMoves(core: string, white: string, s: string, g: nat)
    requires GapAt(white, g)
    ensures GapAt(core + white + s, |core| + g)
  {
  }

  // ---- replacing carriage returns ---------------------------------------------------------------------

  /** Both replacements, which leave a text without carriage returns alone. */
  function Replaced(s: string): string {
    ReplaceCr(ReplaceCrLf(s))
  }

  lemma {:induction false} CrLfIsKept(s: string)
    requires '\r' !in s
    ensures ReplaceCrLf(s) == s
    decreases |s|
  {
    if s != "" {
      CrLfIsKept(s[1..]);
      assert s == [s[0]] + s[1..];
    }
  }

  lemma NormalizeIsReplaced(s: string)
    ensures Normalize(s) == Replaced(s)
  {
    if '\r' !in s {
      CrLfIsKept(s);
      NoCrKept(s);
    }
  }

  lemma {:induction false} NoCrLeft(s: string)
    ensures '\r' !in ReplaceCr(s)
  {
    if s != "" {
      NoCrLeft(s[1..]);
    }
  }

  /** No line ending is cut in two. */
  predicate Apart(a: string, b: string) {
    a == "" || b == "" || a[|a| - 1] != '\r' || b[0] != '\n'
  }

  predicate CrLfFirst(s: string) {
    |s| > 1 && s[0] == '\r' && s[1] == '\n'
  }

  lemma CrLfStep(s: string)
    requires s != ""
    ensures ReplaceCrLf(s) == if CrLfFirst(s) then "\n" + ReplaceCrLf(s[2..]) else [s[0]] + ReplaceCrLf(s[1..])
  {
  }

  lemma NoLineEnds()
    ensures ReplaceCrLf("") == ""
  {
  }

  lemma {:induction false} CrLfAppend(a: string, b: string)
    requires Apart(a, b)
    ensures ReplaceCrLf(a + b) == ReplaceCrLf(a) + ReplaceCrLf(b)
    decreases |a|
  {
    hide ReplaceCrLf;
    if a == "" {
      assert a + b == b;
      NoLineEnds();
    } else {
      CrLfStep(a);
      CrLfStep(a + b);
      var n := if CrLfFirst(a) then 2 else 1;
      assert CrLfFirst(a + b) <==> CrLfFirst(a);
      assert (a + b)[n..] == a[n..] + b;
      CrLfAppend(a[n..], b);
    }
  }

  lemma {:induction false} CrAppend(a: string, b: string)
    ensures ReplaceCr(a + b) == ReplaceCr(a) + ReplaceCr(b)
    decreases |a|
  {
    if a == "" {
      assert a + b == b;
    } else {
      assert (a + b)[1..] == a[1..] + b;
      CrAppend(a[1..], b);
    }
  }

  lemma ReplacedAppend(a: string, b: string)
    requires Apart(a, b)
    ensures Replaced(a + b) == Replaced(a) + Replaced(b)
  {
    hide ReplaceCr, ReplaceCrLf;
    CrLfAppend(a, b);
    CrAppend(ReplaceCrLf(a), ReplaceCrLf(b));
  }

  lemma ReplacedSame(s: string)
    requires '\r' !in s
    ensures Replaced(s) == s
  {
    CrLfIsKept(s);
    NoCrKept(s);
  }

  lemma {:induction false} CrLfOfWhite(s: string)
    requires AllWhitespace(s)
    ensures AllWhitespace(ReplaceCrLf(s))
    decreases |s|
  {
    if s != "" {
      CrLfOfWhite(s[1..]);
      if |s| > 1 {
        CrLfOfWhite(s[2..]);
      }
    }
  }

  lemma {:induction false} CrOfWhite(s: string)
    requires AllWhitespace(s)
    ensures AllWhitespace(ReplaceCr(s))
    decreases |s|
  {
    if s != "" {
      CrOfWhite(s[1..]);
    }
  }

  lemma ReplacedWhite(s: string)
    requires AllWhitespace(s)
    ensures AllWhitespace(Replaced(s))
  {
    CrLfOfWhite(s);
    CrOfWhite(ReplaceCrLf(s));
  }

  lemma EndsWithNewline(s: string)
    ensures var r := Replaced(s + "\n"); r != "" && r[|r| - 1] == '\n'
  {
    ReplacedSame("\n");
    var n := |s| - 1;
    if s != "" && s[n] == '\r' {
      assert s + "\n" == s[..n] + "\r\n";
      ReplacedAppend(s[..n], "\r\n");
      assert ReplaceCrLf("\r\n") == "\n" by { assert "\r\n"[2..] == ""; }
    } else {
      ReplacedAppend(s, "\n");
    }
  }

  /** A blank line stays one. */
  lemma BlankLineStays(s: string)
    ensures FindGap(Replaced(s + "\n\n"), 0).Some?
  {
    hide Replaced;
    EndsWithNewline(s);
    assert s + "\n\n" == (s + "\n") + "\n";
    ReplacedAppend(s + "\n", "\n");
    ReplacedSame("\n");
    var r := Replaced(s + "\n\n");
    assert GapAt(r, |r| - 2);
  }

  // ---- piece by piece ---------------------------------------------------------------------------------

  /** A piece whose carriage returns stand in its margins, and what closes it. */
  lemma PieceIsSame(piece: string, close: string, rest: string)
    requires '\r' !in Trim(piece) && forall q | 0 <= q < |piece| :: !GapAt(piece, q)
    requires close == "\n\n" || (close == "" && rest == "")
    ensures BlocksIn(Replaced(piece + close + rest)) == Blocks([piece]) + BlocksIn(Replaced(rest))
  {
    hide BlocksIn, Blocks, Trim, FindGap, Replaced, Whitespace;
    var lead, trail := TrimSplits(piece);
    var core := Trim(piece);
    OneBlock(piece);
    ReplacedAppend(piece + close, rest);
    var more := Replaced(rest);
    CloseIsWhite(close);
    if core == "" {
      assert piece + close == lead + trail + close;
      ReplacedWhite(lead + trail + close);
      WhiteBefore(Replaced(lead + trail + close), more);
    } else {
      LineEndsAreWhite();
      assert piece + close == lead + (core + (trail + close));
      ReplacedAppend(lead, core + (trail + close));
      ReplacedAppend(core, trail + close);
      ReplacedSame(core);
      var front, back := Replaced(lead), Replaced(trail + close);
      ReplacedWhite(lead);
      ReplacedWhite(trail + close);
      assert front + (core + back) + more == front + (core + back + more);
      WhiteBefore(front, core + back + more);
      forall q | 0 <= q < |core| ensures !GapAt(core, q) {
        assert GapAt(core, q) ==> GapAt(piece, |lead| + q);
      }
      if close == "" {
        ReplacedSame("");
      } else {
        BlankLineStays(trail);
      }
      CoreIsBlock(core, back, more);
    }
  }

  lemma CloseIsWhite(close: string)
    requires close == "\n\n" || close == ""
    ensures AllWhitespace(close)
  {
  }

  lemma {:induction false} MarginsDropOut(s: string)
    requires CrInMargins(s)
    ensures BlocksIn(Replaced(s)) == BlocksIn(s)
    decreases |s|
  {
    hide BlocksIn, Blocks, Trim, FindGap, Replaced, Split;
    SplitStep(s);
    BlocksStep(s);
    match FindGap(s, 0)
    case None =>
      assert s in Split(s);
      PieceIsSame(s, "", "");
      assert s + "" + "" == s;
      ReplacedSame("");
      WhiteHasNoBlock("");
    case Some(p) =>
      var rest := s[p + 2..];
      assert s[..p] in Split(s);
      assert forall piece | piece in Split(rest) :: piece in Split(s);
      forall q | 0 <= q < p ensures !GapAt(s[..p], q) {
        assert GapAt(s[..p], q) ==> GapAt(s, q);
      }
      assert GapAt(s, p) && s == s[..p] + "\n\n" + rest;
      PieceIsSame(s[..p], "\n\n", rest);
      MarginsDropOut(rest);
  }

  // ---- and no other way -------------------------------------------------------------------------------

  lemma {:induction false} PiecesHaveNoCr(s: string)
    requires '\r' !in s
    ensures forall piece | piece in Split(s) :: '\r' !in piece
    decreases |s|
  {
    if FindGap(s, 0).Some? {
      PiecesHaveNoCr(s[FindGap(s, 0).value + 2..]);
    }
  }

  /** The blocks are the trimmed pieces that show something. */
  lemma {:induction false} BlocksAre(pieces: seq<string>, b: string)
    ensures b in Blocks(pieces) <==> b != "" && exists piece :: piece in pieces && Trim(piece) == b
  {
    hide Trim;
    if pieces != [] {
      BlocksAre(pieces[1..], b);
      assert forall piece :: piece in pieces <==> piece == pieces[0] || piece in pieces[1..];
    }
  }

  lemma BatchHasNoCr(s: string, b: string)
    requires b in SplitBlocks(s)
    ensures '\r' !in b
  {
    hide Split, Blocks, Trim;
    NormalizeIsReplaced(s);
    NoCrLeft(ReplaceCrLf(s));
    PiecesHaveNoCr(Normalize(s));
    BlocksAre(Split(Normalize(s)), b);
    var piece :| piece in Split(Normalize(s)) && Trim(piece) == b;
    var lead, trail := TrimSplits(piece);
  }

  /**
   * The stream's blocks are the batch splitter's, however the text is cut, exactly when every
   * carriage return stands in a margin; any other one stays in a block of the stream.
   */
  lemma StreamIsBatch(chunks: seq<string>)
    ensures StreamBlocks(chunks) == SplitBlocks(Concat(chunks)) <==> CrInMargins(Concat(chunks))
  {
    hide StreamBlocks, Split, Blocks, Trim, Normalize;
    var s := Concat(chunks);
    ChunkingChangesNothing(chunks);
    if CrInMargins(s) {
      NormalizeIsReplaced(s);
      MarginsDropOut(s);
    } else {
      var piece :| piece in Split(s) && '\r' in Trim(piece);
      BlocksAre(Split(s), Trim(piece));
      if SplitBlocks(s) == Blocks(Split(s)) {
        BatchHasNoCr(s, Trim(piece));
      }
    }
  }
}
