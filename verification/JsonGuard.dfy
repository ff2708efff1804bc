/** The guard decides exactly the strict grammar: a simulation of one parser by the other. */
module JsonGuard {
  import opened Text
  import opened JsonLexer
  import opened JsonStrict
  import opened JsonLocality
  import opened JsonReader
  import opened JsonStripLaws

  /** No key, value or closing bracket of the expected kind starts with this. */
  predicate Dead(c: char) {
    c == ',' || c == '}' || c == ']' || c == '\U{C}'
  }

  lemma DeadScalar(t: string, i: nat)
    requires i < |t| && (Dead(t[i]) || t[i] == ',')
    ensures ScalarEnd(t, i).None? && Value(t, i).None? && ReadValue(t, i).None?
    ensures MemberAt(t, i).None? && ReadMember(t, i).None?
  {
    assert t[i..i] == "" && !IsLiteral("");
  }

  lemma {:induction false} ReadSkipOver(s: string, i: nat, e: nat)
    requires i <= e <= |s|
    requires forall k | i <= k < e :: JsonWs(s[k])
    ensures ReadSkip(s, i) == ReadSkip(s, e)
    decreases e - i
  {
    if i < e {
      ReadSkipOver(s, i + 1, e);
    }
  }

  /** Trivia of the original is white space of the copy. */
  lemma {:induction false} SyncSkip(t: string, u: string, s: string, i: nat)
    requires Synced(t, u, s, i)
    ensures Synced(t, u, s, Skip(t, i))
    ensures forall k | i <= k < Skip(t, i) :: JsonWs(u[k]) && s[k] == u[k]
    decreases |t| - i
  {
    hide Synced, NextToken, CommentEnd;
    if i < |t| {
      if JsonWs(t[i]) {
        SyncPlain(t, u, s, i);
        SyncSkip(t, u, s, i + 1);
      } else if OpensComment(t, i) {
        SyncComment(t, u, s, i);
        SyncSkip(t, u, s, CommentStop(t, i));
        SkipIsStop(t, i);
      }
    }
  }

  lemma SkipIsStop(t: string, i: nat)
    requires OpensComment(t, i)
    ensures Skip(t, i) == Skip(t, CommentStop(t, i))
  {
  }

  lemma {:induction false} NextTokenOver(u: string, i: nat, e: nat)
    requires i <= e <= |u|
    requires forall k | i <= k < e :: JsonWs(u[k])
    ensures NextToken(u, i) == NextToken(u, e)
    decreases e - i
  {
    if i < e {
      NextTokenOver(u, i + 1, e);
    }
  }

  /** Whether the comma at `j` is dropped depends on the next token of the original. */
  lemma CommaAhead(t: string, u: string, s: string, j: nat)
    requires Synced(t, u, s, j) && j < |t| && t[j] == ','
    ensures Synced(t, u, s, j + 1)
    ensures s[j] == if TrailingComma(u, j) then ' ' else ','
    ensures var r := Skip(t, j + 1);
      && Synced(t, u, s, r)
      && (forall k | j < k < r :: JsonWs(s[k]))
      && (r < |t| ==> u[r] == t[r] && (t[r] != ',' ==> s[r] == t[r]))
      && (r == |t| ==> !TrailingComma(u, j))
      && (r < |t| && !AsciiWhitespace(t[r]) ==>
            (TrailingComma(u, j) <==> t[r] == '}' || t[r] == ']'))
  {
    hide Synced, StripCommas, StripComments;
    SyncPlain(t, u, s, j);
    SyncSkip(t, u, s, j + 1);
    var r := Skip(t, j + 1);
    SyncedBounds(t, u, s, r);
    NextTokenOver(u, j + 1, r);
    if r < |t| {
      if t[r] == '"' {
        SyncString(t, u, s, r);
      } else {
        SyncPlain(t, u, s, r);
      }
    }
  }

  /** From trivia both sides reach the same token, or both a place where nothing can start. */
  lemma AfterTrivia(t: string, u: string, s: string, p: nat)
    requires Synced(t, u, s, p)
    ensures p <= |t| == |s| == |u|
    ensures var (j, x) := (Skip(t, p), ReadSkip(s, p));
      && Synced(t, u, s, j)
      && (j == |t| ==> x == j)
      && (j < |t| && t[j] != ',' ==> x == j && s[j] == t[j])
      && (j < |t| && t[j] == ',' ==> x < |s| && Dead(s[x]))
  {
    hide Synced, Skip, TrailingComma;
    SyncedBounds(t, u, s, p);
    var j := Skip(t, p);
    SyncSkip(t, u, s, p);
    ReadSkipOver(s, p, j);
    if j < |t| {
      if t[j] == ',' {
        CommaAhead(t, u, s, j);
        DroppedComma(t, u, s, j);
      } else if t[j] == '"' {
        SyncString(t, u, s, j);
      } else {
        SyncPlain(t, u, s, j);
        NotAComma(u, j);
      }
    }
  }

  lemma NotAComma(u: string, j: nat)
    requires j < |u| && u[j] != ','
    ensures !TrailingComma(u, j)
  {
  }

  lemma DroppedComma(t: string, u: string, s: string, j: nat)
    requires Synced(t, u, s, j) && j < |t| && t[j] == ','
    ensures j <= ReadSkip(s, j) < |s| && Dead(s[ReadSkip(s, j)])
  {
    hide Synced;
    CommaAhead(t, u, s, j);
    var r := Skip(t, j + 1);
    SyncedBounds(t, u, s, j);
    if TrailingComma(u, j) {
      ReadSkipOver(s, j, r);
    }
  }

  // ---- separators -----------------------------------------------------------------------

  /** Separators agree, or both sides stand where neither key nor value can start. */
  lemma SyncSeparator(t: string, u: string, s: string, p: nat, first: bool, close: char)
    requires Synced(t, u, s, p) && (close == '}' || close == ']')
    ensures p <= |t| == |s|
    ensures var (a, b) := (Separator(t, p, first, close), ReadSeparator(s, p, first, close));
      || (a == b && (a.Some? ==> Synced(t, u, s, a.value) && s[a.value] == t[a.value]))
      || ((a.None? || (t[a.value] != close && Dead(t[a.value])))
          && (b.None? || (s[b.value] != close && Dead(s[b.value]))))
  {
    hide Synced, Skip, TrailingComma;
    AfterTrivia(t, u, s, p);
    var j := Skip(t, p);
    if j < |t| && t[j] == ',' {
      SyncComma(t, u, s, p, first, close);
    }
  }

  lemma SyncComma(t: string, u: string, s: string, p: nat, first: bool, close: char)
    requires Synced(t, u, s, p) && (close == '}' || close == ']')
    requires p <= |t| && Skip(t, p) < |t| && t[Skip(t, p)] == ','
    ensures |s| == |t|
    ensures var (a, b) := (Separator(t, p, first, close), ReadSeparator(s, p, first, close));
      || (a == b && (a.Some? ==> Synced(t, u, s, a.value) && s[a.value] == t[a.value]))
      || ((a.None? || (t[a.value] != close && Dead(t[a.value])))
          && (b.None? || (s[b.value] != close && Dead(s[b.value]))))
  {
    hide Synced, Skip, TrailingComma;
    SyncedBounds(t, u, s, p);
    var j := Skip(t, p);
    SyncSkip(t, u, s, p);
    ReadSkipOver(s, p, j);
    CommaAhead(t, u, s, j);
    var r := Skip(t, j + 1);
    AfterTrivia(t, u, s, j + 1);
    if TrailingComma(u, j) {
      ReadSkipOver(s, j, r);
      if r < |t| && AsciiWhitespace(t[r]) {
        assert t[r] == '\U{C}';
      }
    } else {
      assert ReadSkip(s, p) == j;
    }
  }

  // ---- values -----------------------------------------------------------------------------

  /** Up to a quote, a bare run is copied as it stands. */
  lemma {:induction false} SyncRun(t: string, u: string, s: string, i: nat, k: nat)
    requires Synced(t, u, s, i) && i <= k <= BareEnd(t, i)
    requires forall x | i <= x < k :: t[x] != '"'
    ensures Synced(t, u, s, k)
    ensures forall x | i <= x < k :: s[x] == t[x]
    decreases k - i
  {
    hide Synced, TrailingComma;
    SyncedBounds(t, u, s, i);
    if i < k {
      SyncPlain(t, u, s, i);
      NotAComma(u, i);
      SyncRun(t, u, s, i + 1, k);
    }
  }

  lemma RunStops(t: string, u: string, s: string, e: nat)
    requires Synced(t, u, s, e) && (e < |t| ==> EndsBare(t[e]))
    ensures |s| == |t| && Delimited(s, e)
  {
    hide Synced, TrailingComma;
    SyncedBounds(t, u, s, e);
    if e < |t| {
      if OpensComment(t, e) {
        SyncComment(t, u, s, e);
      } else {
        SyncPlain(t, u, s, e);
      }
    }
  }

  lemma {:induction false} BareEndPast(s: string, i: nat, k: nat)
    requires i <= k < |s| && forall x | i <= x <= k :: !EndsBare(s[x])
    ensures BareEnd(s, i) > k
    decreases k - i
  {
    if i < k {
      BareEndPast(s, i + 1, k);
    }
  }

  function FirstQuote(t: string, i: nat, e: nat): (k: nat)
    requires i <= e <= |t|
    ensures i <= k <= e
    ensures k < e ==> t[k] == '"'
    ensures forall x | i <= x < k :: t[x] != '"'
    decreases e - i
  {
    if i < e && t[i] != '"' then FirstQuote(t, i + 1, e) else i
  }

  lemma NoQuoteInLiteral(x: string, k: nat)
    requires k < |x| && x[k] == '"'
    ensures !IsLiteral(x)
  {
    if IsLiteral(x) {
      LiteralChars(x);
    }
  }

  lemma SyncBare(t: string, u: string, s: string, i: nat)
    requires Synced(t, u, s, i) && i < |t| && s[i] == t[i] != '"'
    ensures ScalarEnd(s, i) == ScalarEnd(t, i)
    ensures ScalarEnd(t, i).Some? ==> Synced(t, u, s, ScalarEnd(t, i).value)
  {
    hide Synced, IsLiteral;
    var e := BareEnd(t, i);
    var k := FirstQuote(t, i, e);
    SyncedBounds(t, u, s, i);
    SyncRun(t, u, s, i, k);
    if k < e {
      SyncString(t, u, s, k);
      BareEndPast(s, i, k);
      NoQuoteInLiteral(t[i..e], k - i);
      NoQuoteInLiteral(s[i..BareEnd(s, i)], k - i);
    } else {
      RunStops(t, u, s, e);
      BareEndLocal(t, s, i, 0);
      assert s[i..e] == t[i..e];
    }
  }

  lemma SyncScalar(t: string, u: string, s: string, i: nat)
    requires Synced(t, u, s, i) && i < |t| && s[i] == t[i]
    ensures ScalarEnd(s, i) == ScalarEnd(t, i)
    ensures ScalarEnd(t, i).Some? ==> Synced(t, u, s, ScalarEnd(t, i).value)
  {
    hide Synced, IsLiteral, Decode, StringEnd;
    if t[i] == '"' {
      SyncString(t, u, s, i);
      SyncedBounds(t, u, s, i);
      var e := StringEnd(t, i + 1);
      if e.Some? {
        assert s[i + 1..e.value - 1] == t[i + 1..e.value - 1];
      }
    } else {
      SyncBare(t, u, s, i);
    }
  }

  /** A value is read from the copy exactly when it is one in the original, to the same end. */
  lemma {:induction false} SyncValue(t: string, u: string, s: string, i: nat)
    requires Synced(t, u, s, i) && i < |t| && s[i] == t[i]
    ensures ReadValue(s, i) == match Value(t, i) case Some(n) => Some(n.end) case None => None
    ensures Value(t, i).Some? ==> Synced(t, u, s, Value(t, i).value.end)
    decreases |t| - i, 0
  {
    hide Synced, ScalarEnd;
    SyncedBounds(t, u, s, i);
    if t[i] == '{' {
      SyncBracket(t, u, s, i);
      SyncMembers(t, u, s, i + 1, true);
    } else if t[i] == '[' {
      SyncBracket(t, u, s, i);
      SyncElements(t, u, s, i + 1, true);
    } else {
      SyncScalar(t, u, s, i);
    }
  }

  lemma SyncBracket(t: string, u: string, s: string, i: nat)
    requires Synced(t, u, s, i) && i < |t|
    requires t[i] == '{' || t[i] == '[' || t[i] == '}' || t[i] == ']' || t[i] == ':'
    ensures Synced(t, u, s, i + 1)
  {
    SyncPlain(t, u, s, i);
  }

  lemma DeadIsNoColon(c: char)
    requires Dead(c)
    ensures c != ':'
  {
  }

  lemma {:induction false} SyncMember(t: string, u: string, s: string, q: nat)
    requires Synced(t, u, s, q) && q < |t| && s[q] == t[q]
    ensures ReadMember(s, q)
         == match MemberAt(t, q) case Some(m) => Some(m.value.end) case None => None
    ensures MemberAt(t, q).Some? ==> Synced(t, u, s, MemberAt(t, q).value.value.end)
    decreases |t| - q, 1
  {
    hide Synced, Decode, StringEnd, Skip, ReadSkip, Value, ReadValue, Dead;
    SyncedBounds(t, u, s, q);
    if t[q] == '"' {
      SyncString(t, u, s, q);
    }
    if t[q] == '"' && StringEnd(t, q + 1).Some? {
      var e := StringEnd(t, q + 1).value;
      assert s[q + 1..e - 1] == t[q + 1..e - 1];
      AfterTrivia(t, u, s, e);
      var colon := Skip(t, e);
      if colon < |t| && t[colon] == ',' {
        DeadIsNoColon(s[ReadSkip(s, e)]);
      }
      if colon < |t| && t[colon] == ':' {
        SyncAfterColon(t, u, s, colon);
      }
    }
  }

  /** Behind the colon both readers find the same value, or none. */
  lemma SyncAfterColon(t: string, u: string, s: string, colon: nat)
    requires Synced(t, u, s, colon) && colon < |t| && t[colon] == ':'
    ensures |s| == |t|
    ensures var start := Skip(t, colon + 1);
      && ReadValue(s, ReadSkip(s, colon + 1)) == (match Value(t, start) case Some(v) => Some(v.end) case None => None)
      && (Value(t, start).Some? ==> Synced(t, u, s, Value(t, start).value.end))
    decreases |t| - colon, 0
  {
    hide Synced, Skip, ReadSkip, Value, ReadValue, Dead;
    SyncedBounds(t, u, s, colon);
    SyncBracket(t, u, s, colon);
    AfterTrivia(t, u, s, colon + 1);
    var start, x := Skip(t, colon + 1), ReadSkip(s, colon + 1);
    if start == |t| {
      NothingAtEnd(t);
      NothingAtEnd(s);
    } else if t[start] == ',' {
      DeadScalar(t, start);
      DeadScalar(s, x);
    } else {
      SyncValue(t, u, s, start);
    }
  }

  lemma {:induction false} SyncMembers(t: string, u: string, s: string, p: nat, first: bool)
    requires Synced(t, u, s, p)
    ensures |s| == |t| && p <= |t|
    ensures ReadMembers(s, p, first)
         == match Members(t, p, first) case Some(r) => Some(r.1) case None => None
    ensures Members(t, p, first).Some? ==> Synced(t, u, s, Members(t, p, first).value.1)
    decreases |t| - p, 2
  {
    hide Synced, Separator, ReadSeparator, MemberAt, ReadMember, Dead;
    SyncedBounds(t, u, s, p);
    SyncSeparator(t, u, s, p, first, '}');
    var a, b := Separator(t, p, first, '}'), ReadSeparator(s, p, first, '}');
    if a == b && a.Some? && s[a.value] == t[a.value] && Synced(t, u, s, a.value) {
      if t[a.value] == '}' {
        SyncBracket(t, u, s, a.value);
      } else {
        SyncMember(t, u, s, a.value);
        var m := MemberAt(t, a.value);
        if m.Some? {
          SyncMembers(t, u, s, m.value.value.end, false);
        }
      }
    } else {
      if a.Some? {
        DeadScalar(t, a.value);
      }
      if b.Some? {
        DeadScalar(s, b.value);
      }
    }
  }

  lemma {:induction false} SyncElements(t: string, u: string, s: string, p: nat, first: bool)
    requires Synced(t, u, s, p)
    ensures |s| == |t| && p <= |t|
    ensures ReadElements(s, p, first) == Elements(t, p, first)
    ensures Elements(t, p, first).Some? ==> Synced(t, u, s, Elements(t, p, first).value)
    decreases |t| - p, 1
  {
    hide Synced, Separator, ReadSeparator, Value, ReadValue, Dead;
    SyncedBounds(t, u, s, p);
    SyncSeparator(t, u, s, p, first, ']');
    var a, b := Separator(t, p, first, ']'), ReadSeparator(s, p, first, ']');
    if a == b && a.Some? && s[a.value] == t[a.value] && Synced(t, u, s, a.value) {
      if t[a.value] == ']' {
        SyncBracket(t, u, s, a.value);
      } else {
        SyncValue(t, u, s, a.value);
        var v := Value(t, a.value);
        if v.Some? {
          SyncElements(t, u, s, v.value.end, false);
        }
      }
    } else {
      if a.Some? {
        DeadScalar(t, a.value);
      }
      if b.Some? {
        DeadScalar(s, b.value);
      }
    }
  }

  /** The stripped copy is JSON exactly when the text is a strict JSONC document. */
  lemma GuardIsStrict(t: string)
    ensures IsJson(StripJsonc(t)) <==> Document(t).Some?
  {
    hide Synced, Value, ReadValue, Skip, ReadSkip, StripJsonc, StripComments;
    var u, s := StripComments(t, 0), StripJsonc(t);
    SyncedAtStart(t);
    AfterTrivia(t, u, s, 0);
    var i, x := Skip(t, 0), ReadSkip(s, 0);
    if i < |t| {
      if t[i] == ',' {
        DeadScalar(t, i);
        DeadScalar(s, x);
      } else {
        SyncValue(t, u, s, i);
        if Value(t, i).Some? {
          AfterTrivia(t, u, s, Value(t, i).value.end);
        }
      }
    } else {
      NothingAtEnd(t);
      NothingAtEnd(s);
    }
  }

  lemma NothingAtEnd(t: string)
    ensures Value(t, |t|).None? && ReadValue(t, |t|).None?
  {
  }
}
