/** `set` of the first member of an object and its removal: what is left of the object's text. */
module JsonEmptied {
  import opened Text
  import opened JsonLexer
  import opened JsonStrict
  import opened JsonParser
  import opened JsonCompose
  import opened JsonEdit
  import opened JsonMember
  import opened JsonInsert
  import opened JsonSet
  import opened JsonDelLaws

  // ---- comments in pieces of text ---------------------------------------------------------------

  lemma CommentsJoin(a: string, b: string)
    requires b == "" || (b[0] != '/' && b[0] != '*')
    ensures HasComment(a + b) <==> HasComment(a) || HasComment(b)
  {
    var s := a + b;
    forall k | 0 <= k < |a| ensures OpensComment(s, k) <==> OpensComment(a, k) {
      assert s[k] == a[k];
      assert k + 1 < |s| ==> s[k + 1] == if k + 1 < |a| then a[k + 1] else b[0];
    }
    forall k | 0 <= k < |b| ensures OpensComment(s, |a| + k) <==> OpensComment(b, k) {
      assert s[|a| + k] == b[k];
      assert k + 1 < |b| ==> s[|a| + k + 1] == b[k + 1];
    }
    if HasComment(b) {
      var k :| 0 <= k < |b| && OpensComment(b, k);
      assert OpensComment(s, |a| + k);
    }
    if HasComment(s) {
      var k :| 0 <= k < |s| && OpensComment(s, k);
      assert k >= |a| ==> OpensComment(b, k - |a|);
    }
  }

  lemma BlankHasNoComment(s: string)
    requires JsonBlank(s)
    ensures !HasComment(s)
    ensures s != "" ==> s[0] != '/' && s[0] != '*'
  {
  }

  /** Between white space the member's comments are all there are. */
  lemma CommentsAround(head: string, lead: string, member: string, trail: string)
    requires JsonBlank(lead) && JsonBlank(trail) && member != "" && member[0] == '"'
    ensures HasComment(head + (lead + (member + trail))) <==> HasComment(head) || HasComment(member)
  {
    hide HasComment, JsonBlank;
    BlankHasNoComment(lead);
    BlankHasNoComment(trail);
    CommentsJoin(member, trail);
    CommentsJoin(lead, member + trail);
    CommentsJoin(head, lead + (member + trail));
  }

  // ---- the lines --------------------------------------------------------------------------------

  lemma LineStartIs(u: string, n: nat, q: nat)
    requires 0 < n <= q <= |u| && u[n - 1] == '\n'
    requires forall k | n <= k < q :: u[k] != '\n'
    ensures LineStart(u, q) == n
  {
    var start := LineStart(u, q);
    assert u[n - 1] == '\n';
  }

  /** The line ending in front of the new member, unless it starts a line. */
  function Break(t: string, at: nat, newline: string): string
    requires at <= |t|
  {
    if at == 0 || t[at - 1] == '\n' then "" else newline
  }

  lemma BreakEndsLine(t: string, at: nat, newline: string)
    requires 0 < at <= |t| && (newline == "\n" || newline == "\r\n")
    ensures var s := t[..at] + Break(t, at, newline); s != "" && s[|s| - 1] == '\n'
  {
  }

  /** What the new member and its line are put between. */
  predicate Framed(t: string, u: string, at: nat, close: nat, pre: string, indent: string, member: string,
                   newline: string, below: string)
  {
    at <= close <= |t| && u == t[..at] + (pre + indent + (member + (newline + below))) + t[close..]
  }

  /** Inserting into an object without members. */
  lemma {:induction false} FirstMember(t: string, node: Node, member: string, newline: string, unit: string)
    requires WellFormed(t, node) && node.kind.Object? && node.kind.members == []
    ensures var (at, close) := InsertSpan(t, node);
      && close == node.end - 1 && at == TrimBack(t, LineStart(t, close), close)
      && Framed(t, InsertMember(t, node, member, newline, unit), at, close, Break(t, at, newline),
                MemberIndent(t, node, unit), member, newline, LineIndent(t, close))
  {
    hide WellFormed, MemberIndent, LineIndent, TrimBack, LineStart;
    NodeBounds(t, node);
    InsertTextParts(t, node, member, newline, unit);
    assert "" + newline + LineIndent(t, node.end - 1) == newline + LineIndent(t, node.end - 1);
  }

  lemma FramedParts(t: string, u: string, at: nat, close: nat, pre: string, indent: string, member: string,
                    newline: string, below: string)
    requires Framed(t, u, at, close, pre, indent, member, newline, below)
    ensures var (line, q) := (at + |pre|, at + |pre| + |indent|);
      var r := q + |member|;
      && |u| == r + |newline| + |below| + |t| - close
      && u[..at] == t[..at] && u[..line] == t[..at] + pre && u[line..q] == indent && u[q..r] == member
      && u[r..r + |newline|] == newline && u[r + |newline|..] == below + t[close..]
      && u[r + |newline| + |below|..] == t[close..]
  {
    var tail := newline + below + t[close..];
    assert u == t[..at] + pre + indent + member + newline + (below + t[close..]);
    assert u == (t[..at] + pre) + (indent + member + tail);
    assert u == (t[..at] + pre + indent) + (member + tail);
    assert u == (t[..at] + pre + indent + member) + tail;
  }

  /** The member's own line, from its indentation ... */
  lemma {:induction false} MemberLine(t: string, u: string, at: nat, close: nat, pre: string, indent: string,
                                      member: string, newline: string, below: string)
    requires Framed(t, u, at, close, pre, indent, member, newline, below)
    requires 0 < at && pre == Break(t, at, newline) && (newline == "\n" || newline == "\r\n") && Blanks(indent)
    ensures var (line, q) := (at + |pre|, at + |pre| + |indent|);
      q <= |u| && LineStart(u, q) == line && AllWhitespace(u[line..q])
  {
    hide LineStart, AllWhitespace, Blanks, Break;
    var line, q := at + |pre|, at + |pre| + |indent|;
    FramedParts(t, u, at, close, pre, indent, member, newline, below);
    BreakEndsLine(t, at, newline);
    var s := t[..at] + pre;
    assert u[..line] == s && |s| == line && u[line - 1] == s[line - 1] == '\n';
    IndentedLine(u, line, q, indent);
  }

  /** ... to its line ending. */
  lemma {:induction false} MemberLineEnd(t: string, u: string, at: nat, close: nat, pre: string, indent: string,
                                         member: string, newline: string, below: string)
    requires Framed(t, u, at, close, pre, indent, member, newline, below)
    requires newline == "\n" || newline == "\r\n"
    ensures var r := at + |pre| + |indent| + |member|;
      r + |newline| <= |u| && ExtendLineEnd(u, MemberTailEnd(u, r)) == r + |newline|
  {
    hide MemberTailEnd, ExtendLineEnd;
    FramedParts(t, u, at, close, pre, indent, member, newline, below);
    BrokenLine(u, at + |pre| + |indent| + |member|, newline);
  }

  lemma IndentedLine(u: string, line: nat, q: nat, indent: string)
    requires 0 < line <= q <= |u| && u[line - 1] == '\n' && u[line..q] == indent && Blanks(indent)
    ensures LineStart(u, q) == line && AllWhitespace(u[line..q])
  {
    hide LineStart;
    forall k | line <= k < q ensures u[k] != '\n' {
      assert u[k] == u[line..q][k - line];
    }
    LineStartIs(u, line, q);
  }

  lemma BrokenLine(u: string, r: nat, newline: string)
    requires r + |newline| <= |u| && u[r..r + |newline|] == newline && (newline == "\n" || newline == "\r\n")
    ensures ExtendLineEnd(u, MemberTailEnd(u, r)) == r + |newline|
  {
    hide MemberTailEnd;
    assert u[r] == u[r..r + |newline|][0];
    assert |newline| == 2 ==> u[r + 1] == u[r..r + |newline|][1];
    TailEndsAtBreak(u, r, "");
  }

  /** A comma at most, then a line break: the member's tail ends before it. */
  lemma TailEndsAtBreak(u: string, r: nat, tc: string)
    requires tc == "" || tc == ","
    requires r + |tc| < |u| && (u[r + |tc|] == '\n' || u[r + |tc|] == '\r') && (tc == "," ==> u[r] == ',')
    ensures MemberTailEnd(u, r) == r + |tc|
  {
    hide CommentEnd;
  }

  // ---- what is left -----------------------------------------------------------------------------

  /** Whether the removal finds a comment in the object, or what looks like one in the member. */
  predicate SeesComment(t: string, node: Node, member: string)
    requires node.start + 1 < node.end <= |t|
  {
    HasComment(t[node.start + 1..node.end - 1]) || HasComment(member)
  }

  function LeftEmpty(t: string, node: Node, member: string, newline: string): string
    requires WellFormed(t, node) && node.kind.Object? && node.kind.members == []
  {
    var (at, close) := InsertSpan(t, node);
    if SeesComment(t, node, member) then Splice(t, at, close, Break(t, at, newline) + LineIndent(t, close))
    else Splice(t, node.start, node.end, "{}")
  }

  lemma InnerComments(t: string, u: string, i: nat, at: nat, close: nat, pre: string, indent: string, member: string,
                      newline: string, below: string)
    requires Framed(t, u, at, close, pre, indent, member, newline, below) && i < at
    requires BlankTo(t, at, close) && JsonBlank(pre + indent) && JsonBlank(newline + below)
    requires member != "" && member[0] == '"'
    ensures var end := close + (|u| - |t|);
      && i + 1 <= end <= |u|
      && (HasComment(u[i + 1..end]) <==> HasComment(t[i + 1..close]) || HasComment(member))
  {
    hide HasComment;
    var end, x := close + (|u| - |t|), pre + indent + (member + (newline + below));
    assert u[i + 1..end] == t[i + 1..at] + x;
    CommentsAround(t[i + 1..at], pre + indent, member, newline + below);
    var gap := t[at..close];
    assert JsonBlank(gap);
    BlankHasNoComment(gap);
    CommentsJoin(t[i + 1..at], gap);
    assert t[i + 1..close] == t[i + 1..at] + gap;
  }

  lemma CutLine(t: string, u: string, at: nat, close: nat, pre: string, indent: string, member: string,
                newline: string, below: string)
    requires Framed(t, u, at, close, pre, indent, member, newline, below)
    ensures var (line, r) := (at + |pre|, at + |pre| + |indent| + |member|);
      line <= r + |newline| <= |u| && Splice(u, line, r + |newline|, "") == Splice(t, at, close, pre + below)
  {
    FramedParts(t, u, at, close, pre, indent, member, newline, below);
    assert t[..at] + pre + "" + (below + t[close..]) == t[..at] + (pre + below) + t[close..];
  }

  lemma CutBraces(t: string, u: string, i: nat, at: nat, close: nat, pre: string, indent: string, member: string,
                  newline: string, below: string)
    requires Framed(t, u, at, close, pre, indent, member, newline, below) && i < at && close < |t|
    ensures var end := close + 1 + (|u| - |t|);
      i <= end <= |u| && Splice(u, i, end, "{}") == Splice(t, i, close + 1, "{}")
  {
    FramedParts(t, u, at, close, pre, indent, member, newline, below);
    var end := close + 1 + (|u| - |t|);
    assert u[..i] == u[..at][..i] == t[..i];
    assert u[end..] == u[end - 1..][1..] == t[close..][1..];
  }

  /** Removing the only member of the object that `set` had put in. */
  lemma {:induction false} FirstMemberRemoved(t: string, i: nat, member: string, newline: string, unit: string, after: Node, m: Member)
    requires Value(t, i).Some? && Value(t, i).value.kind.Object? && WellFormed(t, Value(t, i).value)
    requires Value(t, i).value.kind.members == [] && BlankUnits(newline, unit) && member != "" && member[0] == '"'
    requires var node := Value(t, i).value;
      var u := InsertMember(t, node, member, newline, unit);
      && WellFormed(u, after) && after.kind == Object([m]) && after.start == i && after.end == node.end + (|u| - |t|)
      && m.keyStart == InsertSpan(t, node).0 + |Lead(t, node, newline, unit)|
      && m.value.end == m.keyStart + |member|
    ensures var node := Value(t, i).value;
      RemoveOnly(InsertMember(t, node, member, newline, unit), after) == LeftEmpty(t, node, member, newline)
  {
    hide Value, WellFormed, InsertMember, InsertSpan, MemberIndent, LineIndent, LineStart, TrimBack, RemoveOnly,
      HasComment, Splice, Framed, Break, ExtendLineEnd, MemberTailEnd, AllWhitespace, JsonBlank, BlankTo;
    var node := Value(t, i).value;
    var u := InsertMember(t, node, member, newline, unit);
    var (at, close) := InsertSpan(t, node);
    var pre, indent, below := Break(t, at, newline), MemberIndent(t, node, unit), LineIndent(t, close);
    NodeBounds(t, node);
    SpanIsBlank(t, i);
    FirstMember(t, node, member, newline, unit);
    LeadAndTrail(t, node, newline, unit);
    InnerComments(t, u, i, at, close, pre, indent, member, newline, below);
    MemberLine(t, u, at, close, pre, indent, member, newline, below);
    MemberLineEnd(t, u, at, close, pre, indent, member, newline, below);
    CutLine(t, u, at, close, pre, indent, member, newline, below);
    CutBraces(t, u, i, at, close, pre, indent, member, newline, below);
    RemoveOnlyShape(u, after);
  }

  lemma LeadAndTrail(t: string, node: Node, newline: string, unit: string)
    requires WellFormed(t, node) && node.kind.Object? && node.kind.members == [] && BlankUnits(newline, unit)
    ensures var (at, close) := InsertSpan(t, node);
      var (pre, indent, below) := (Break(t, at, newline), MemberIndent(t, node, unit), LineIndent(t, close));
      && Lead(t, node, newline, unit) == pre + indent && Blanks(indent) && JsonBlank(pre + indent)
      && JsonBlank(newline + below)
  {
    hide WellFormed, MemberIndent, LineIndent, LineStart, TrimBack;
  }

  /** The brace ends a line of blanks. */
  predicate OwnBlankLine(t: string, close: nat)
    requires close <= |t|
  {
    Blanks(t[LineStart(t, close)..close])
  }

  /** When the first member leaves no trace. */
  predicate ClosesEmpty(t: string, node: Node, member: string)
    requires WellFormed(t, node) && node.kind.Object?
  {
    if SeesComment(t, node, member) then OwnBlankLine(t, node.end - 1) else t[node.start..node.end] == "{}"
  }

  lemma WholeBlankRun(t: string, i: nat, end: nat)
    requires i <= end <= |t|
    ensures BlankRun(t, i, end) == end <==> Blanks(t[i..end])
  {
    var s := t[i..end];
    if BlankRun(t, i, end) == end {
      assert forall k | 0 <= k < |s| :: s[k] == t[i + k];
    } else {
      var j := BlankRun(t, i, end);
      assert s[j - i] == t[j];
    }
  }

  lemma {:induction false} WholeTrim(t: string, lo: nat, hi: nat)
    requires lo <= hi <= |t| && Blanks(t[lo..hi])
    ensures TrimBack(t, lo, hi) == lo
  {
    if lo < hi {
      assert t[hi - 1] == t[lo..hi][hi - 1 - lo];
      assert t[lo..hi - 1] == t[lo..hi][..hi - 1 - lo];
      WholeTrim(t, lo, hi - 1);
    }
  }

  /** What stood before the brace is what is put there, just if it was its line's blanks. */
  lemma {:induction false} SameBelow(t: string, at: nat, close: nat, newline: string)
    requires 0 < at <= close <= |t| && at == TrimBack(t, LineStart(t, close), close)
    requires LineStart(t, close) > 0 || !Blanks(t[..close])
    requires newline == "\n" || newline == "\r\n"
    ensures t[at..close] == Break(t, at, newline) + LineIndent(t, close) <==> OwnBlankLine(t, close)
  {
    hide BlankRun, TrimBack, LineStart;
    var line, s := LineStart(t, close), t[at..close];
    var below := LineIndent(t, close);
    WholeBlankRun(t, line, close);
    if Blanks(t[line..close]) {
      WholeTrim(t, line, close);
      assert t[..close] == t[line..close] || line > 0;
      assert "" + below == below == s;
    } else if t[at - 1] == '\n' {
      assert line == at && "" + below == below;
    } else {
      var head := Break(t, at, newline) + below;
      assert head[|newline| - 1] == '\n';
      assert forall k | 0 <= k < |s| :: s[k] == t[at + k];
    }
  }

  lemma LeftEmptyIsSame(t: string, node: Node, member: string, newline: string)
    requires WellFormed(t, node) && node.kind.Object? && node.kind.members == []
    requires node.start < InsertSpan(t, node).0 && (newline == "\n" || newline == "\r\n")
    ensures LeftEmpty(t, node, member, newline) == t <==> ClosesEmpty(t, node, member)
  {
    hide WellFormed, HasComment, LineIndent, LineStart, TrimBack, Splice, Break, OwnBlankLine, Blanks;
    NodeBounds(t, node);
    var (at, close) := InsertSpan(t, node);
    if SeesComment(t, node, member) {
      SpliceIsSame(t, at, close, Break(t, at, newline) + LineIndent(t, close));
      NotBlankBefore(t, node);
      SameBelow(t, at, close, newline);
    } else {
      SpliceIsSame(t, node.start, node.end, "{}");
    }
  }

  lemma NotBlankBefore(t: string, node: Node)
    requires WellFormed(t, node) && node.kind.Object?
    ensures !Blanks(t[..node.end - 1])
  {
    hide Laid;
    assert t[..node.end - 1][node.start] == '{';
  }

  lemma SpliceIsSame(t: string, i: nat, j: nat, x: string)
    requires i <= j <= |t|
    ensures Splice(t, i, j, x) == t <==> t[i..j] == x
  {
    var u := Splice(t, i, j, x);
    assert u[i..i + |x|] == x;
    assert t == t[..i] + t[i..j] + t[j..];
  }
}
