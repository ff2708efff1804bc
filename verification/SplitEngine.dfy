/** The split and the split table as they run. */
module SplitEngine {
  import opened Text
  import opened Totals
  import opened Folds
  import opened Split
  import C = Catalog

  // ---- which values are kept -----------------------------------------------------------------------

  /** Heavier first; of equal weight, the smaller name. */
  predicate Outranks(weights: map<string, nat>, v: string, w: string)
    requires v in weights && w in weights
  {
    weights[v] > weights[w] || (weights[v] == weights[w] && C.CompareText(v, w) < 0)
  }

  lemma RanksChain(weights: map<string, nat>, u: string, v: string, w: string)
    requires u in weights && v in weights && w in weights
    ensures Outranks(weights, u, v) && Outranks(weights, v, w) ==> Outranks(weights, u, w)
    ensures u != v ==> Outranks(weights, u, v) || Outranks(weights, v, u)
  {
    C.TextOrder(u, v, w);
    C.TextOrder(v, u, w);
  }

  /** At most `SERIES_KEEP` values, all there are if they are fewer, each outranking every other value. */
  predicate IsKept(weights: map<string, nat>, kept: set<string>) {
    && kept <= weights.Keys
    && |kept| <= SERIES_KEEP && (|kept| == SERIES_KEEP || kept == weights.Keys)
    && forall v, w | v in kept && w in weights && w !in kept :: Outranks(weights, v, w)
  }

  method Busiest(weights: map<string, nat>, rest: set<string>) returns (best: string)
    requires rest != {} && rest <= weights.Keys
    ensures best in rest && forall w | w in rest && w != best :: Outranks(weights, best, w)
  {
    hide Outranks;
    best :| best in rest;
    var left := rest - {best};
    while left != {}
      invariant left <= rest && best in rest && best !in left
      invariant forall w | w in rest && w !in left && w != best :: Outranks(weights, best, w)
      decreases |left|
    {
      var v :| v in left;
      RanksChain(weights, best, v, v);
      left := left - {v};
      if Outranks(weights, v, best) {
        forall w | w in rest && w !in left && w != v ensures Outranks(weights, v, w) {
          RanksChain(weights, v, best, w);
        }
        best := v;
      }
    }
  }

  /** No value left out is heavier than a kept one, and of equal weight it comes later in the alphabet. */
  lemma KeptAreBusiest(weights: map<string, nat>, kept: set<string>, v: string, w: string)
    requires IsKept(weights, kept) && v in kept && w in weights && w !in kept
    ensures |kept| == 24 && weights[w] <= weights[v] && (weights[w] == weights[v] ==> C.Precedes(v, w))
  {
    hide C.CompareText, C.Precedes;
    assert Outranks(weights, v, w);
    C.TextPrecedes(v, w);
  }

  method KeepBusiest(weights: map<string, nat>) returns (kept: set<string>)
    ensures IsKept(weights, kept)
  {
    hide Outranks;
    kept := {};
    var rest := weights.Keys;
    while |kept| < SERIES_KEEP && rest != {}
      invariant |kept| <= SERIES_KEEP && kept !! rest && kept + rest == weights.Keys
      invariant forall v, w | v in kept && w in rest :: Outranks(weights, v, w)
      decreases |rest|
    {
      var best := Busiest(weights, rest);
      kept := kept + {best};
      rest := rest - {best};
    }
  }

  /** One pass over the rows, then the ranking, then the retain. */
  method SeriesSplit(rows: seq<Row>, d: Dim) returns (split: Option<map<string, Inner>>)
    ensures exists kept ::
              && IsKept(Weights(rows, d), kept)
              && split == if kept == {} then None else Some(Retained(SplitAll(rows, d), kept))
  {
    hide SplitRow, Weigh, IsKept;
    var all: map<string, Inner>, weights: map<string, nat>, n := map[], map[], 0;
    assert rows[..n] == [];
    while n < |rows|
      invariant n <= |rows| && all == SplitAll(rows[..n], d) && weights == Weights(rows[..n], d)
    {
      assert rows[..n + 1][..n] == rows[..n];
      all, weights := AddRow(all, weights, rows[n], d);
      n := n + 1;
    }
    assert rows[..n] == rows;
    var kept := KeepBusiest(weights);
    split := if kept == {} then None else Some(Retained(all, kept));
    assert IsKept(Weights(rows, d), kept);
  }

  method AddRow(all: map<string, Inner>, weights: map<string, nat>, r: Row, d: Dim)
    returns (all': map<string, Inner>, weights': map<string, nat>)
    ensures all' == SplitRow(all, r, d) && weights' == Weigh(weights, r, d)
  {
    hide AddTo;
    all', weights' := all, weights;
    var value := KeyOf(r, d);
    if value == "" {
      return;
    }
    weights' := weights[value := (if value in weights then weights[value] else 0) + r.totals.input + r.totals.output];
    all' := all[r.bucket := AddTo(At(all, r.bucket), value, NoDecode(r.totals))];
  }

  // ---- the split table ---------------------------------------------------------------------------------

  lemma MergeStep(start: Inner, parts: Inner, left: set<string>, k: string)
    requires left <= parts.Keys && k in left
    ensures var so := Merge(start, parts - left);
      Merge(start, parts - (left - {k})) == so[k := Accumulate(Entry(so, k), parts[k])]
  {
    hide Accumulate;
    var so := Merge(start, parts - left);
    assert Entry(so, k) == Entry(start, k);
    assert (parts - (left - {k})).Keys == (parts - left).Keys + {k};
  }

  lemma KeptStep(parts: Inner, left: set<string>, k: string, kept: Totals, c: Counter)
    requires left <= parts.Keys && k in left && Get(kept, c) == Cap(Sum(parts - left, c))
    ensures Get(Accumulate(kept, parts[k]), c) == Cap(Sum(parts - (left - {k}), c))
  {
    hide Get, Accumulate;
    var next := parts - (left - {k});
    SumWithout(next, k, c);
    assert next - {k} == parts - left;
    AccumulatedGet(kept, parts[k], c);
  }

  /** One point: its values into the table, and their sum. */
  method AddPoint(values: Inner, parts: Inner) returns (values': Inner, kept: Totals)
    ensures values' == Merge(values, parts)
    ensures forall c :: Get(kept, c) == Cap(Sum(parts, c))
  {
    hide Get, Accumulate, Merge, Sum;
    values', kept := values, ZERO;
    var left := parts.Keys;
    NothingMerged(values, parts);
    while left != {}
      invariant left <= parts.Keys
      invariant values' == Merge(values, parts - left)
      invariant forall c :: Get(kept, c) == Cap(Sum(parts - left, c))
      decreases |left|
    {
      var k :| k in left;
      MergeStep(values, parts, left, k);
      forall c ensures Get(Accumulate(kept, parts[k]), c) == Cap(Sum(parts - (left - {k}), c)) {
        KeptStep(parts, left, k, kept, c);
      }
      values' := values'[k := Accumulate(Entry(values', k), parts[k])];
      kept := Accumulate(kept, parts[k]);
      left := left - {k};
    }
    assert parts - left == parts;
  }

  lemma NothingMerged(values: Inner, parts: Inner)
    ensures Merge(values, parts - parts.Keys) == values
    ensures forall c :: Get(ZERO, c) == Cap(Sum(parts - parts.Keys, c))
  {
    assert parts - parts.Keys == map[];
  }

  /** The table: one row for each value, and what the points hold besides. */
  method SplitRows(points: seq<Point>) returns (values: Inner, other: Totals)
    ensures values == ValuesOf(points)
    ensures forall c :: Get(other, c) == OtherOf(points, c)
  {
    hide Get, Accumulate, Subtract, Merge, Sum;
    values, other := map[], ZERO;
    var n := 0;
    assert points[..n] == [];
    forall c ensures Get(ZERO, c) == 0 {
      ZeroIsZero(c);
    }
    while n < |points|
      invariant n <= |points| && values == ValuesOf(points[..n])
      invariant forall c :: Get(other, c) == OtherOf(points[..n], c)
    {
      ghost var before := other;
      assert points[..n + 1][..n] == points[..n];
      var kept;
      values, kept := AddPoint(values, ByOf(points[n]));
      var rest := Subtract(points[n].totals, kept);
      other := Accumulate(other, rest);
      forall c ensures Get(other, c) == OtherOf(points[..n + 1], c) {
        AccumulatedGet(points[n].totals, kept, c);
        AccumulatedGet(before, rest, c);
      }
      n := n + 1;
    }
    assert points[..n] == points;
  }
}
