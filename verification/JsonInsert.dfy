/** Adding a member's line to an object: what the object parses to afterwards. */
module JsonInsert {
  import opened Text
  import opened JsonLexer
  import opened JsonStrict
  import opened JsonLocality
  import opened JsonMember

  // ---- the zone between the last member and the closing brace --------------------------

  /**
   * Skipping trivia passes through every place from which only blanks of one line
   * remain, so a text that goes on differently there is skipped from there.
   */
  lemma {:induction false} SkipReach(t: string, u: string, p: nat, x: nat, close: nat, d: int)
    requires p <= x <= close < |t| && Skip(t, p) == close
    requires forall k | x <= k < close :: JsonWs(t[k]) && t[k] != '\n'
    requires Agree(t, u, p, x, d)
    ensures 0 <= p + d <= x + d <= |u| && Skip(u, p + d) == Skip(u, x + d)
    decreases x - p
  {
    hide Agree, CommentEnd;
    AgreeBounds(t, u, p, x, d);
    if p < x {
      Within(t, u, p, x, d, p, x);
      if JsonWs(t[p]) {
        Within(t, u, p, x, d, p + 1, x);
        SkipReach(t, u, p + 1, x, close, d);
      } else {
        var e := CommentEnd(t, p).value;
        CommentSkipped(t, p);
        CommentBefore(t, p, x, close);
        CommentEndLocal(t, u, p, x, d);
        Within(t, u, p, x, d, e, x);
        SkipReach(t, u, e, x, close, d);
      }
    }
  }

  /** ... such as blanks and a token. */
  lemma SkipThrough(t: string, u: string, p: nat, x: nat, close: nat, d: int, q: nat)
    requires p <= x <= close < |t| && Skip(t, p) == close
    requires forall k | x <= k < close :: JsonWs(t[k]) && t[k] != '\n'
    requires Agree(t, u, p, x, d)
    requires x + d <= q < |u| && Solid(u, q)
    requires forall k | x + d <= k < q :: JsonWs(u[k])
    ensures 0 <= p + d && Skip(u, p + d) == q
  {
    hide Agree;
    SkipReach(t, u, p, x, close, d);
    SkipRun(u, x + d, q);
  }

  lemma CommentBefore(t: string, p: nat, x: nat, close: nat)
    requires OpensComment(t, p) && CommentEnd(t, p).Some?
    requires p < x <= close < |t| && CommentEnd(t, p).value <= close
    requires t[p + 1] == '/' ==> CommentEnd(t, p).value < close
    requires forall k | x <= k < close :: JsonWs(t[k]) && t[k] != '\n'
    ensures CommentEnd(t, p).value <= x
    ensures t[p + 1] == '/' ==> CommentEnd(t, p).value < x
  {
    var e := CommentEnd(t, p).value;
    if t[p + 1] == '/' {
      assert e < |t| ==> t[e] == '\n';
    } else {
      assert t[e - 1] == '/';
    }
  }

  /** In a zone of trivia, blank by `trim`'s standards means JSON white space. */
  lemma {:induction false} BlankZone(t: string, p: nat, x: nat, close: nat)
    requires p <= x <= close < |t| && Skip(t, p) == close
    requires forall k | x <= k < close :: Whitespace(t[k]) && t[k] != '\n'
    ensures forall k | x <= k < close :: JsonWs(t[k])
    decreases close - p
  {
    hide CommentEnd;
    if p < close {
      if JsonWs(t[p]) {
        BlankZone(t, p + 1, if p < x then x else p + 1, close);
      } else {
        var e := CommentEnd(t, p).value;
        CommentSkipped(t, p);
        assert !Whitespace('/');
        if p < x {
          CommentBeforeBlank(t, p, x, close);
          BlankZone(t, e, x, close);
        }
      }
    }
  }

  lemma CommentBeforeBlank(t: string, p: nat, x: nat, close: nat)
    requires OpensComment(t, p) && CommentEnd(t, p).Some?
    requires p < x <= close < |t| && CommentEnd(t, p).value <= close
    requires t[p + 1] == '/' ==> CommentEnd(t, p).value < close
    requires forall k | x <= k < close :: Whitespace(t[k]) && t[k] != '\n'
    ensures CommentEnd(t, p).value <= x
  {
    var e := CommentEnd(t, p).value;
    if t[p + 1] == '/' {
      assert e < |t| ==> t[e] == '\n';
    } else {
      assert t[e - 1] == '/';
    }
  }

  // ---- the inserted text ------------------------------------------------------------------

  /** `u` is `t` with `comma` put in at `e` and a member's line put in place of `t[at..resume]`. */
  ghost predicate Inserted(t: string, u: string, e: nat, comma: string, at: nat, lead: string,
                           member: string, trail: string, resume: nat) {
    && e <= at <= resume < |t|
    && |u| - |t| == |comma| + |lead| + |member| + |trail| - (resume - at)
    && Agree(t, u, 0, e, 0)
    && Stands(u, e, comma)
    && Agree(t, u, e, at, |comma|)
    && Stands(u, at + |comma|, lead)
    && Stands(u, at + |comma| + |lead|, member)
    && Stands(u, at + |comma| + |lead| + |member|, trail)
    && Agree(t, u, resume, |t|, |u| - |t|)
  }

  lemma {:induction false} SpliceAgree(t: string, u: string, at: nat, resume: nat, x: string)
    requires at <= resume <= |t| && u == t[..at] + x + t[resume..]
    ensures Spliced(t, u, at, resume, x)
  {
    assert forall k | 0 <= k < at :: u[k] == t[k];
    assert forall k | 0 <= k < |x| :: u[at + k] == x[k];
    forall k | resume <= k < |t| ensures u[k + (|u| - |t|)] == t[k] {
      assert u[at + |x| + (k - resume)] == t[resume..][k - resume];
    }
  }

  lemma AgreeCompose(t: string, w: string, u: string, i: nat, j: nat, d: int, f: int)
    requires Agree(t, w, i, j, d) && 0 <= i + d && Agree(w, u, i + d, j + d, f)
    ensures Agree(t, u, i, j, d + f)
  {
    forall k | i <= k < j ensures u[k + (d + f)] == t[k] {
      assert w[k + d] == t[k];
      assert u[(k + d) + f] == w[k + d];
    }
  }

  lemma StandsMoved(w: string, u: string, q: nat, s: string, lo: nat, hi: nat, f: int)
    requires Stands(w, q, s) && lo <= q && q + |s| <= hi && Agree(w, u, lo, hi, f)
    ensures q + f >= 0 && Stands(u, q + f, s)
  {
    forall k | 0 <= k < |s| ensures u[q + f + k] == s[k] {
      assert w[q + k] == s[k];
      assert u[(q + k) + f] == w[q + k];
    }
  }

  /** `u` is `t` with `x` in place of `t[at..resume]`. */
  ghost predicate Spliced(t: string, u: string, at: nat, resume: nat, x: string) {
    && at <= resume <= |t| && |u| == |t| + |x| - (resume - at)
    && Agree(t, u, 0, at, 0) && Stands(u, at, x) && Agree(t, u, resume, |t|, |u| - |t|)
  }

  /** The two splices of an insertion, taken together. */
  lemma TwoSplices(t: string, w: string, u: string, e: nat, comma: string, at: nat, lead: string,
                   member: string, trail: string, resume: nat)
    requires e <= at <= resume < |t|
    requires Spliced(t, w, at, resume, lead + (member + trail))
    requires Spliced(w, u, e, e, comma)
    ensures Inserted(t, u, e, comma, at, lead, member, trail, resume)
  {
    hide Agree, Stands;
    var line := lead + (member + trail);
    var d := |w| - |t|;
    Within(t, w, 0, at, 0, 0, e);
    Within(t, w, 0, at, 0, e, at);
    AgreeCompose(t, w, u, 0, e, 0, 0);
    Within(w, u, e, |w|, |comma|, e, at);
    AgreeCompose(t, w, u, e, at, 0, |comma|);
    Within(w, u, e, |w|, |comma|, resume + d, |w|);
    AgreeCompose(t, w, u, resume, |t|, d, |comma|);
    StandsMoved(w, u, at, line, e, |w|, |comma|);
    StandsPart(u, at + |comma|, lead, member + trail);
    StandsPart(u, at + |comma| + |lead|, member, trail);
  }

  // ---- parsing what was inserted ----------------------------------------------------------

  /** Only blanks of one line between `at` and the closing brace. */
  predicate BlankTo(t: string, at: nat, close: nat)
    requires at <= close <= |t|
  {
    forall k | at <= k < close :: JsonWs(t[k]) && t[k] != '\n'
  }

  /** After the new member: white space, then the old closing brace. */
  lemma BlankTail(t: string, u: string, from: nat, resume: nat, close: nat, d: int)
    requires resume <= close < |t| && t[close] == '}' && BlankTo(t, resume, close)
    requires Agree(t, u, resume, |t|, d) && from <= resume + d
    requires forall k | from <= k < resume + d :: JsonWs(u[k])
    ensures 0 <= close + d < |u| && u[close + d] == '}'
    ensures Skip(u, from) == close + d
  {
    assert u[close + d] == t[close];
    forall k | from <= k < close + d ensures JsonWs(u[k]) {
      if k >= resume + d {
        assert u[(k - d) + d] == t[k - d];
      }
    }
    SkipRun(u, from, close + d);
  }

  lemma TailMembers(u: string, from: nat, comma: bool, close: nat)
    requires from < close < |u| && u[close] == '}'
    requires if comma then u[from] == ',' && Skip(u, from + 1) == close else Skip(u, from) == close
    ensures Members(u, from, false) == Some(([], close + 1))
  {
    if comma {
      assert Skip(u, from) == from;
    }
  }

  lemma StandsBlank(u: string, q: nat, s: string)
    requires Stands(u, q, s) && JsonBlank(s)
    ensures forall k | q <= k < q + |s| :: JsonWs(u[k])
  {
    forall k | q <= k < q + |s| ensures JsonWs(u[k]) {
      assert u[q + (k - q)] == s[k - q];
    }
  }

  /** The list behind the new member is empty and ends at the old brace. */
  lemma AfterInserted(t: string, u: string, e: nat, comma: string, at: nat, lead: string,
                      member: string, trail: string, resume: nat, close: nat)
    requires Inserted(t, u, e, comma, at, lead, member, trail, resume)
    requires resume <= close < |t| && t[close] == '}' && BlankTo(t, resume, close)
    requires trail != "" && JsonBlank(trail[1..]) && (JsonWs(trail[0]) || trail[0] == ',')
    ensures var q := at + |comma| + |lead| + |member|;
      && Delimited(u, q)
      && Members(u, q, false) == Some(([], close + (|u| - |t|) + 1))
  {
    hide Skip, Members;
    var q, d := at + |comma| + |lead| + |member|, |u| - |t|;
    assert trail == [trail[0]] + trail[1..];
    StandsPart(u, q, [trail[0]], trail[1..]);
    StandsAt(u, q, [trail[0]], 0);
    StandsBlank(u, q + 1, trail[1..]);
    assert q + |trail| == resume + d;
    BlankTail(t, u, if trail[0] == ',' then q + 1 else q, resume, close, d);
    TailMembers(u, q, trail[0] == ',', close + d);
  }

  /** Where an inserted member is found: after the comma that separates it. */
  lemma InsertedSeparator(t: string, u: string, e: nat, comma: string, at: nat, lead: string,
                          member: string, trail: string, resume: nat, close: nat, first: bool)
    requires Inserted(t, u, e, comma, at, lead, member, trail, resume)
    requires at <= close < |t| && t[close] == '}' && BlankTo(t, at, close)
    requires Separator(t, e, first, '}') == Some(close)
    requires comma == if !first && Skip(t, e) == close then "," else ""
    requires JsonBlank(lead) && member != "" && member[0] == '"'
    ensures var q := at + |comma| + |lead|;
      && u[q] == '"'
      && Separator(u, e, first, '}') == if first && Skip(t, e) < close then None else Some(q)
  {
    hide Skip, Agree, Stands, JsonBlank, BlankTo;
    var q := at + |comma| + |lead|;
    StandsAt(u, q, member, 0);
    StandsBlank(u, at + |comma|, lead);
    SolidLocal(member, u, 0, q);
    BlankLine(t, at, close);
    if Skip(t, e) == close {
      SkipThrough(t, u, e, at, close, |comma|, q);
      if comma == "," {
        StandsAt(u, e, ",", 0);
        SkipRun(u, e, e);
      }
    } else {
      PastOldComma(t, u, e, at, close, q);
    }
  }

  lemma BlankLine(t: string, at: nat, close: nat)
    requires at <= close <= |t| && BlankTo(t, at, close)
    ensures forall k | at <= k < close :: JsonWs(t[k]) && t[k] != '\n'
  {
  }

  /** Through the comma that stood there and on to the token at `q`. */
  lemma PastOldComma(t: string, u: string, e: nat, at: nat, close: nat, q: nat)
    requires e <= at <= close < |t| && BlankTo(t, at, close) && Agree(t, u, e, at, 0)
    requires Skip(t, e) < close && t[Skip(t, e)] == ',' && Skip(t, Skip(t, e) + 1) == close
    requires at <= q < |u| && Solid(u, q) && forall k | at <= k < q :: JsonWs(u[k])
    ensures var c := Skip(t, e);
      e <= |u| && Skip(u, e) == c && c + 1 <= |u| && u[c] == ',' && Skip(u, c + 1) == q
  {
    hide Skip, Agree;
    var c := Skip(t, e);
    AgreeBounds(t, u, e, at, 0);
    CommaBefore(t, e, at, close);
    Within(t, u, e, at, 0, e, c);
    Within(t, u, e, at, 0, c, c + 1);
    CommaSame(t, u, c);
    Within(t, u, e, at, 0, c + 1, at);
    SolidLocal(t, u, c, 0);
    SkipLocal(t, u, e, 0);
    SkipThrough(t, u, c + 1, at, close, 0, q);
  }

  lemma CommaSame(t: string, u: string, c: nat)
    requires Agree(t, u, c, c + 1, 0)
    ensures c < |u| && u[c] == t[c]
  {
    assert u[c + 0] == t[c];
  }

  lemma CommaBefore(t: string, e: nat, at: nat, close: nat)
    requires e <= at <= close < |t| && Skip(t, e) < close && t[Skip(t, e)] == ','
    requires BlankTo(t, at, close)
    ensures Skip(t, e) < at
  {
    assert forall k | at <= k < close :: t[k] != ',';
  }
}
