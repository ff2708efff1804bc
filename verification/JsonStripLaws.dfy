/** What stripping keeps, and why the guard on the copy is a guard on the original. */
module JsonStripLaws {
  import opened JsonLexer
  import opened JsonLocality
  import opened JsonReader

  /** Both passes are outside strings and comments at `i`. */
  ghost predicate Synced(t: string, u: string, s: string, i: nat) {
    && |u| == |s| == |t| && i <= |t|
    && u[i..] == StripComments(t, i)
    && s[i..] == StripCommas(u, i)
  }

  lemma SyncedAtStart(t: string)
    ensures Synced(t, StripComments(t, 0), StripJsonc(t), 0)
  {
  }

  lemma SyncedBounds(t: string, u: string, s: string, i: nat)
    requires Synced(t, u, s, i)
    ensures |u| == |s| == |t| && i <= |t|
  {
  }

  lemma SplitTail(x: string, i: nat, e: nat, head: string, rest: string)
    requires i <= e <= |x| && x[i..] == head + rest && |head| == e - i
    ensures x[i..e] == head && x[e..] == rest
  {
    assert x[i..e] == x[i..][..e - i];
    assert x[e..] == x[i..][e - i..];
  }

  lemma CommasPlain(u: string, s: string, i: nat)
    requires |s| == |u| && i < |u| && s[i..] == StripCommas(u, i) && u[i] != '"'
    ensures s[i] == if TrailingComma(u, i) then ' ' else u[i]
    ensures s[i + 1..] == StripCommas(u, i + 1)
  {
    SplitTail(s, i, i + 1, [if TrailingComma(u, i) then ' ' else u[i]], StripCommas(u, i + 1));
    assert s[i] == s[i..i + 1][0];
  }

  lemma {:induction false} CommasBlanks(u: string, s: string, i: nat, e: nat)
    requires |s| == |u| && i <= e <= |u| && s[i..] == StripCommas(u, i)
    requires forall k | i <= k < e :: JsonWs(u[k])
    ensures s[i..e] == u[i..e]
    ensures s[e..] == StripCommas(u, e)
    decreases e - i
  {
    hide NextToken;
    if i < e {
      CommasPlain(u, s, i);
      CommasBlanks(u, s, i + 1, e);
      assert s[i..e] == [s[i]] + s[i + 1..e];
      assert u[i..e] == [u[i]] + u[i + 1..e];
    }
  }

  lemma SyncComment(t: string, u: string, s: string, i: nat)
    requires Synced(t, u, s, i) && OpensComment(t, i)
    ensures Synced(t, u, s, CommentStop(t, i))
    ensures forall k | i <= k < CommentStop(t, i) :: JsonWs(u[k]) && s[k] == u[k]
  {
    hide CommentEnd, StripCommas;
    var e := CommentStop(t, i);
    SplitTail(u, i, e, Blanked(t, i, e), StripComments(t, e));
    forall k | i <= k < e ensures JsonWs(u[k]) {
      assert u[k] == u[i..e][k - i];
    }
    CommasBlanks(u, s, i, e);
    forall k | i <= k < e ensures s[k] == u[k] {
      assert s[k] == s[i..e][k - i] && u[k] == u[i..e][k - i];
    }
  }

  lemma SyncPlain(t: string, u: string, s: string, i: nat)
    requires Synced(t, u, s, i) && i < |t| && t[i] != '"' && !OpensComment(t, i)
    ensures Synced(t, u, s, i + 1)
    ensures u[i] == t[i]
    ensures s[i] == if TrailingComma(u, i) then ' ' else t[i]
  {
    hide StripCommas;
    SplitTail(u, i, i + 1, [t[i]], StripComments(t, i + 1));
    assert u[i] == u[i..i + 1][0];
    CommasPlain(u, s, i);
  }

  lemma SyncString(t: string, u: string, s: string, i: nat)
    requires Synced(t, u, s, i) && i < |t| && t[i] == '"'
    ensures Synced(t, u, s, StringStop(t, i))
    ensures forall k | i <= k < StringStop(t, i) :: u[k] == t[k] && s[k] == t[k]
    ensures StringEnd(s, i + 1) == StringEnd(t, i + 1)
  {
    hide StringEnd;
    var e := StringStop(t, i);
    SplitTail(u, i, e, t[i..e], StripComments(t, e));
    assert forall k | i <= k < e :: u[k] == u[i..e][k - i] == t[k];
    StringEndSame(t, u, i + 1, e);
    SplitTail(s, i, e, u[i..e], StripCommas(u, e));
    assert forall k | i <= k < e :: s[k] == s[i..e][k - i] == u[k];
    StringEndSame(t, s, i + 1, e);
  }

  lemma StringEndSame(t: string, u: string, i: nat, e: nat)
    requires |u| == |t| && i <= e <= |t|
    requires e == match StringEnd(t, i) case Some(x) => x case None => |t|
    requires forall k | i <= k < e :: u[k] == t[k]
    ensures StringEnd(u, i) == StringEnd(t, i)
  {
    if StringEnd(t, i).Some? {
      StringEndLocal(t, u, i, 0);
    } else if StringEnd(u, i).Some? {
      StringEndLocal(u, t, i, 0);
    }
  }

  // ---- what the copy keeps ------------------------------------------------------------

  datatype Region = InString | InComment | InCode

  /** Which kind of text the scanner, in code at `i`, takes the character at `k` for. */
  function RegionAt(t: string, i: nat, k: nat): Region
    requires i <= k < |t|
    decreases |t| - i
  {
    if t[i] == '"' then
      var e := StringStop(t, i);
      if k < e then InString else RegionAt(t, e, k)
    else if OpensComment(t, i) then
      var e := CommentStop(t, i);
      if k < e then InComment else RegionAt(t, e, k)
    else if k == i then InCode
    else RegionAt(t, i + 1, k)
  }

  lemma {:induction false} StripFrom(t: string, u: string, s: string, i: nat, k: nat)
    requires Synced(t, u, s, i) && i <= k < |t|
    ensures match RegionAt(t, i, k) {
      case InString => s[k] == t[k]
      case InComment => s[k] == if LineBreak(t[k]) then t[k] else ' '
      case InCode => s[k] == t[k] || (t[k] == ',' && s[k] == ' ')
    }
    decreases |t| - i
  {
    hide Synced, NextToken;
    if t[i] == '"' {
      SyncString(t, u, s, i);
      if StringStop(t, i) <= k {
        StripFrom(t, u, s, StringStop(t, i), k);
      }
    } else if OpensComment(t, i) {
      SyncComment(t, u, s, i);
      if k < CommentStop(t, i) {
        BlankedInPlace(t, u, s, i, k);
      } else {
        StripFrom(t, u, s, CommentStop(t, i), k);
      }
    } else {
      SyncPlain(t, u, s, i);
      if i < k {
        StripFrom(t, u, s, i + 1, k);
      }
    }
  }

  lemma BlankedInPlace(t: string, u: string, s: string, i: nat, k: nat)
    requires Synced(t, u, s, i) && OpensComment(t, i) && i <= k < CommentStop(t, i)
    ensures s[k] == if LineBreak(t[k]) then t[k] else ' '
  {
    hide CommentEnd, StripCommas;
    var e := CommentStop(t, i);
    SyncComment(t, u, s, i);
    SplitTail(u, i, e, Blanked(t, i, e), StripComments(t, e));
    assert u[k] == u[i..e][k - i];
  }

  /**
   * Offsets in the copy are offsets in the original: strings are untouched, comments
   * are blank but for their line breaks, and code loses nothing but commas.
   */
  lemma StripKeepsPlace(t: string, k: nat)
    requires k < |t|
    ensures var s := StripJsonc(t);
      && (RegionAt(t, 0, k) == InString ==> s[k] == t[k])
      && (RegionAt(t, 0, k) == InComment ==> s[k] == if LineBreak(t[k]) then t[k] else ' ')
      && (RegionAt(t, 0, k) == InCode ==> s[k] == t[k] || (t[k] == ',' && s[k] == ' '))
      && (LineBreak(t[k]) ==> s[k] == t[k])
      && (LineBreak(s[k]) ==> s[k] == t[k])
  {
    hide Synced;
    SyncedAtStart(t);
    StripFrom(t, StripComments(t, 0), StripJsonc(t), 0, k);
  }

  /** Scanning from `i` in code meets no comment outside strings. */
  predicate Commentless(t: string, i: nat)
    requires i <= |t|
    decreases |t| - i
  {
    if i == |t| then true
    else if t[i] == '"' then Commentless(t, StringStop(t, i))
    else !OpensComment(t, i) && Commentless(t, i + 1)
  }

  lemma {:induction false} StripLeavesNoCommentFrom(t: string, u: string, s: string, i: nat)
    requires Synced(t, u, s, i)
    ensures Commentless(s, i)
    decreases |t| - i
  {
    hide Synced, NextToken;
    SyncedBounds(t, u, s, i);
    if i < |t| {
      if t[i] == '"' {
        SyncString(t, u, s, i);
        StripLeavesNoCommentFrom(t, u, s, StringStop(t, i));
      } else if OpensComment(t, i) {
        var e := CommentStop(t, i);
        SyncComment(t, u, s, i);
        StripLeavesNoCommentFrom(t, u, s, e);
        CommentlessBefore(s, i, e);
      } else {
        SyncPlain(t, u, s, i);
        StripLeavesNoCommentFrom(t, u, s, i + 1);
        if i + 1 < |t| {
          StripFrom(t, u, s, i + 1, i + 1);
        }
      }
    }
  }

  lemma {:induction false} CommentlessBefore(s: string, i: nat, e: nat)
    requires i <= e <= |s| && Commentless(s, e)
    requires forall k | i <= k < e :: JsonWs(s[k])
    ensures Commentless(s, i)
    decreases e - i
  {
    if i < e {
      CommentlessBefore(s, i + 1, e);
    }
  }

  /** The stripped copy holds no comment outside its strings. */
  lemma StripLeavesNoComment(t: string)
    ensures Commentless(StripJsonc(t), 0)
  {
    SyncedAtStart(t);
    StripLeavesNoCommentFrom(t, StripComments(t, 0), StripJsonc(t), 0);
  }
}
