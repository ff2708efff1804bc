/** The series told apart by one dimension, and the split table with its `other` row. */
module Split {
  import opened Text
  import opened Totals
  import opened Folds

  // ---- series_split --------------------------------------------------------------------------------

  const SERIES_KEEP := 24

  type Inner = map<string, Totals>

  /** The split query carries no decode columns. */
  function NoDecode(t: Totals): Totals {
    t.(decodeMs := 0, decodeOut := 0, decodeN := 0)
  }

  function At(split: map<string, Inner>, bucket: string): Inner {
    if bucket in split then split[bucket] else map[]
  }

  /** A value with no name stays in the point totals only. */
  function SplitRow(split: map<string, Inner>, r: Row, d: Dim): map<string, Inner> {
    if KeyOf(r, d) == "" then split
    else split[r.bucket := AddTo(At(split, r.bucket), KeyOf(r, d), NoDecode(r.totals))]
  }

  function SplitAll(rows: seq<Row>, d: Dim): map<string, Inner> {
    if rows == [] then map[] else SplitRow(SplitAll(rows[..|rows| - 1], d), rows[|rows| - 1], d)
  }

  function Weigh(weights: map<string, nat>, r: Row, d: Dim): map<string, nat> {
    var v := KeyOf(r, d);
    if v == "" then weights
    else weights[v := (if v in weights then weights[v] else 0) + r.totals.input + r.totals.output]
  }

  function Weights(rows: seq<Row>, d: Dim): map<string, nat> {
    if rows == [] then map[] else Weigh(Weights(rows[..|rows| - 1], d), rows[|rows| - 1], d)
  }

  function Only(values: Inner, kept: set<string>): Inner {
    map v | v in values && v in kept :: values[v]
  }

  /** The kept values of every bucket; buckets without one go. */
  function Retained(split: map<string, Inner>, kept: set<string>): map<string, Inner> {
    map b | b in split && Only(split[b], kept) != map[] :: Only(split[b], kept)
  }

  // ---- sums over parts of an index --------------------------------------------------------------------

  lemma {:induction false} PartIsAtMost(m: Inner, kept: set<string>, c: Counter)
    ensures Sum(Only(m, kept), c) <= Sum(m, c)
    decreases |m|
  {
    hide Get;
    if m == map[] {
      assert Only(m, kept) == map[];
    } else {
      var k := Pick(m);
      Smaller(m, k);
      PartIsAtMost(m - {k}, kept, c);
      SumWithout(m, k, c);
      if k in kept {
        SumWithout(Only(m, kept), k, c);
        assert Only(m, kept) - {k} == Only(m - {k}, kept);
      } else {
        assert Only(m, kept) == Only(m - {k}, kept);
      }
    }
  }

  lemma NoDecodeAtMost(t: Totals, c: Counter)
    ensures Get(NoDecode(t), c) <= Get(t, c)
  {
  }

  /** What a bucket's values hold together is part of what its rows hold. */
  lemma {:induction false} SplitIsPart(rows: seq<Row>, d: Dim, bucket: string, c: Counter)
    ensures Sum(At(SplitAll(rows, d), bucket), c) <= RowSum(rows, Bucket, Some(bucket), c)
  {
    hide Get, Add, AddTo, NoDecode;
    if rows == [] {
      EmptySum(c);
    } else {
      var before, r := rows[..|rows| - 1], rows[|rows| - 1];
      SplitIsPart(before, d, bucket, c);
      InnerAdded(At(SplitAll(before, d), bucket), KeyOf(r, d), NoDecode(r.totals), c);
      NoDecodeAtMost(r.totals, c);
    }
  }

  lemma InnerAdded(m: Inner, k: string, t: Totals, c: Counter)
    ensures Sum(AddTo(m, k, t), c) == Sum(m, c) + Get(t, c)
  {
    SumAdded(m, k, t, c);
  }

  /** Whatever values are kept, in every bucket they add up to no more than the bucket. */
  lemma KeptFitsBucket(rows: seq<Row>, d: Dim, kept: set<string>, bucket: string, c: Counter)
    ensures Sum(At(Retained(SplitAll(rows, d), kept), bucket), c) <= Get(Entry(Fold(rows).series, bucket), c)
  {
    hide Get, SplitAll, Fold, RowSum, Sum;
    var split := SplitAll(rows, d);
    EmptySum(c);
    PartIsAtMost(At(split, bucket), kept, c);
    SplitIsPart(rows, d, bucket, c);
    EntriesAreRowSums(rows, Bucket, bucket, c);
    SeriesIs(rows);
    assert bucket in split && Only(split[bucket], kept) != map[] ==>
      At(Retained(split, kept), bucket) == Only(split[bucket], kept);
    assert bucket !in split || Only(split[bucket], kept) == map[] ==> At(Retained(split, kept), bucket) == map[];
  }

  lemma SeriesIs(rows: seq<Row>)
    ensures Index(Fold(rows), Bucket) == Fold(rows).series
  {
    hide Fold;
  }

  // ---- what the split holds ----------------------------------------------------------------------------

  /** The value a row has in the dimension the series is told apart by. */
  function ValueOf(r: Row, d: Dim): string {
    if d == Provider then r.provider else if d == Model then r.model else if d == Agent then r.agent else r.bucket
  }

  /** Decode columns are not asked for. */
  predicate Asked(c: Counter) {
    c !in [DecodeMs, DecodeOut, DecodeN]
  }

  /** Each value of each bucket holds the sum of exactly its rows, and is there if and only if it has a name and a row. */
  lemma {:induction false} SplitHoldsRows(rows: seq<Row>, d: Dim, bucket: string, v: string, c: Counter)
    requires v != ""
    ensures v in At(SplitAll(rows, d), bucket) <==> HasRow(rows, d, bucket, v)
    ensures Get(Entry(At(SplitAll(rows, d), bucket), v), c)
         == if Asked(c) then SumWhere(rows, (r: Row) => r.bucket == bucket && ValueOf(r, d) == v, c) else 0
    ensures "" !in At(SplitAll(rows, d), bucket)
  {
    hide Get, SplitRow, ValueOf, HasRow, Entry;
    if rows == [] {
      EmptyEntry(v, c);
      NoRow(d, bucket, v);
    } else {
      var before, r := rows[..|rows| - 1], rows[|rows| - 1];
      SplitHoldsRows(before, d, bucket, v, c);
      RowSplit(SplitAll(before, d), r, d, bucket, v, c);
      RowAtEnd(rows, d, bucket, v);
    }
  }

  predicate HasRow(rows: seq<Row>, d: Dim, bucket: string, v: string) {
    exists i | 0 <= i < |rows| :: rows[i].bucket == bucket && ValueOf(rows[i], d) == v
  }

  lemma NoRow(d: Dim, bucket: string, v: string)
    ensures !HasRow([], d, bucket, v)
  {
  }

  lemma RowAtEnd(rows: seq<Row>, d: Dim, bucket: string, v: string)
    requires rows != []
    ensures HasRow(rows, d, bucket, v)
       <==> HasRow(rows[..|rows| - 1], d, bucket, v)
            || (rows[|rows| - 1].bucket == bucket && ValueOf(rows[|rows| - 1], d) == v)
  {
    hide ValueOf;
    var before := rows[..|rows| - 1];
    assert forall i | 0 <= i < |before| :: before[i] == rows[i];
    if HasRow(before, d, bucket, v) {
      var i :| 0 <= i < |before| && before[i].bucket == bucket && ValueOf(before[i], d) == v;
      assert rows[i].bucket == bucket && ValueOf(rows[i], d) == v;
    }
  }

  lemma RowSplit(split: map<string, Inner>, r: Row, d: Dim, bucket: string, v: string, c: Counter)
    requires v != ""
    ensures var (m, n) := (At(split, bucket), At(SplitRow(split, r, d), bucket));
      var own := r.bucket == bucket && ValueOf(r, d) == v;
      && (v in n <==> v in m || own)
      && Get(Entry(n, v), c) == Get(Entry(m, v), c) + (if own && Asked(c) then Get(r.totals, c) else 0)
      && ("" in n <==> "" in m)
  {
    hide Get, Add, NoDecode;
    EntryAdded(At(split, r.bucket), KeyOf(r, d), NoDecode(r.totals), v, c);
    AskedIsKept(r.totals, c);
  }

  lemma AskedIsKept(t: Totals, c: Counter)
    ensures Get(NoDecode(t), c) == if Asked(c) then Get(t, c) else 0
  {
  }

  /** After the retain: the kept values of a bucket hold what they held, the others are gone, and so are empty buckets. */
  lemma RetainedHoldsRows(rows: seq<Row>, d: Dim, kept: set<string>, bucket: string, v: string, c: Counter)
    requires v != ""
    ensures var split := Retained(SplitAll(rows, d), kept);
      && (v in At(split, bucket) <==> v in kept && HasRow(rows, d, bucket, v))
      && Get(Entry(At(split, bucket), v), c)
         == (if v in kept && Asked(c) then SumWhere(rows, (r: Row) => r.bucket == bucket && ValueOf(r, d) == v, c) else 0)
      && (bucket in split ==> split[bucket] != map[])
  {
    hide SplitAll, ValueOf, HasRow, SumWhere;
    SplitHoldsRows(rows, d, bucket, v, c);
    EmptyEntry(v, c);
    var all := SplitAll(rows, d);
    if bucket in all && v in all[bucket] && v in kept {
      assert v in Only(all[bucket], kept);
    }
  }

  /** What decides which values are kept: their input and output over all the rows. */
  lemma {:induction false} WeightsAreTokens(rows: seq<Row>, d: Dim, v: string)
    ensures v in Weights(rows, d) <==> v != "" && exists i | 0 <= i < |rows| :: ValueOf(rows[i], d) == v
    ensures v in Weights(rows, d) ==>
      Weights(rows, d)[v] == SumWhere(rows, (r: Row) => ValueOf(r, d) == v, Input)
                             + SumWhere(rows, (r: Row) => ValueOf(r, d) == v, Output)
    ensures v !in Weights(rows, d) && v != "" ==>
      SumWhere(rows, (r: Row) => ValueOf(r, d) == v, Input) + SumWhere(rows, (r: Row) => ValueOf(r, d) == v, Output) == 0
  {
    hide ValueOf;
    if rows != [] {
      var before, r := rows[..|rows| - 1], rows[|rows| - 1];
      WeightsAreTokens(before, d, v);
      ValueIsKey(r, d);
      assert forall i | 0 <= i < |before| :: before[i] == rows[i];
      if exists i | 0 <= i < |before| :: ValueOf(before[i], d) == v {
        var i :| 0 <= i < |before| && ValueOf(before[i], d) == v;
        assert ValueOf(rows[i], d) == v;
      }
    }
  }

  lemma ValueIsKey(r: Row, d: Dim)
    ensures ValueOf(r, d) == KeyOf(r, d)
  {
  }

  // ---- split_rows ------------------------------------------------------------------------------------------

  /** `u64::MAX`: the table's sums stop there. */
  const MAX: nat := 0xFFFF_FFFF_FFFF_FFFF

  function Cap(n: nat): nat {
    if n < MAX then n else MAX
  }

  function Monus(a: nat, b: nat): nat {
    if a < b then 0 else a - b
  }

  function Accumulate(a: Totals, b: Totals): (r: Totals)
    ensures r.latencyMax == Max(a.latencyMax, b.latencyMax)
  {
    Totals(
      Cap(a.calls + b.calls), Cap(a.errors + b.errors), Cap(a.input + b.input), Cap(a.output + b.output),
      Cap(a.cacheRead + b.cacheRead), Cap(a.cacheWrite + b.cacheWrite), Cap(a.cacheWrite1h + b.cacheWrite1h),
      Cap(a.cacheUnknown + b.cacheUnknown), Cap(a.reasoning + b.reasoning), Cap(a.latencySum + b.latencySum),
      Max(a.latencyMax, b.latencyMax), Cap(a.ttftSum + b.ttftSum), Cap(a.ttftCalls + b.ttftCalls),
      Cap(a.unpriced + b.unpriced), Cap(a.retried + b.retried), Cap(a.loops + b.loops),
      Cap(a.decodeMs + b.decodeMs), Cap(a.decodeOut + b.decodeOut), Cap(a.decodeN + b.decodeN))
  }

  /** Clamped at zero; the maximum is left as it is. */
  function Subtract(a: Totals, b: Totals): (r: Totals)
    ensures r.latencyMax == a.latencyMax
  {
    Totals(
      Monus(a.calls, b.calls), Monus(a.errors, b.errors), Monus(a.input, b.input), Monus(a.output, b.output),
      Monus(a.cacheRead, b.cacheRead), Monus(a.cacheWrite, b.cacheWrite), Monus(a.cacheWrite1h, b.cacheWrite1h),
      Monus(a.cacheUnknown, b.cacheUnknown), Monus(a.reasoning, b.reasoning), Monus(a.latencySum, b.latencySum),
      a.latencyMax, Monus(a.ttftSum, b.ttftSum), Monus(a.ttftCalls, b.ttftCalls),
      Monus(a.unpriced, b.unpriced), Monus(a.retried, b.retried), Monus(a.loops, b.loops),
      Monus(a.decodeMs, b.decodeMs), Monus(a.decodeOut, b.decodeOut), Monus(a.decodeN, b.decodeN))
  }

  /** One point of the series, told apart or not. */
  datatype Point = Point(timestamp: string, totals: Totals, parts: Option<Inner>)

  function ByOf(p: Point): Inner {
    if p.parts.Some? then p.parts.value else map[]
  }

  function Merge(values: Inner, parts: Inner): Inner {
    map v | v in values.Keys + parts.Keys :: if v in parts then Accumulate(Entry(values, v), parts[v]) else values[v]
  }

  /** The rows of the table, by value. */
  function ValuesOf(points: seq<Point>): Inner {
    if points == [] then map[] else Merge(ValuesOf(points[..|points| - 1]), ByOf(points[|points| - 1]))
  }

  /** One counter of the `other` row. */
  ghost function OtherOf(points: seq<Point>, c: Counter): nat {
    if points == [] then 0
    else
      var p := points[|points| - 1];
      Cap(OtherOf(points[..|points| - 1], c) + Monus(Get(p.totals, c), Cap(Sum(ByOf(p), c))))
  }

  function SeriesSum(points: seq<Point>, c: Counter): nat {
    if points == [] then 0
    else SeriesSum(points[..|points| - 1], c) + Get(points[|points| - 1].totals, c)
  }

  /** What the table would hold without clamping at zero getting in the way: the larger of each pair. */
  ghost function LargerSum(points: seq<Point>, c: Counter): nat {
    if points == [] then 0
    else
      var p := points[|points| - 1];
      LargerSum(points[..|points| - 1], c) + Max(Get(p.totals, c), Sum(ByOf(p), c))
  }

  lemma {:induction false} MergeSum(values: Inner, parts: Inner, c: Counter)
    requires Sum(values, c) + Sum(parts, c) <= MAX
    ensures Sum(Merge(values, parts), c) == Sum(values, c) + Sum(parts, c)
    decreases |parts|
  {
    hide Get, Accumulate;
    if parts == map[] {
      EmptySum(c);
      assert Merge(values, parts) == values;
    } else {
      var k := Pick(parts);
      Smaller(parts, k);
      SumWithout(parts, k, c);
      MergeSum(values, parts - {k}, c);
      MergeOne(values, parts, k, c);
    }
  }

  lemma MergeOne(values: Inner, parts: Inner, k: string, c: Counter)
    requires k in parts && Sum(Merge(values, parts - {k}), c) + Get(parts[k], c) <= MAX
    ensures Sum(Merge(values, parts), c) == Sum(Merge(values, parts - {k}), c) + Get(parts[k], c)
  {
    hide Get, Accumulate;
    var m, before := Merge(values, parts), Merge(values, parts - {k});
    assert k in m;
    SumWithout(m, k, c);
    AccumulatedGet(Entry(values, k), parts[k], c);
    if k in values {
      SumWithout(before, k, c);
      assert before[k] == values[k];
    } else {
      ZeroIsZero(c);
    }
    assert m - {k} == before - {k};
    assert k !in values ==> before - {k} == before;
  }

  /** Every counter but the maximum is added, up to the cap, or taken off, down to zero. */
  lemma AccumulatedGet(a: Totals, b: Totals, c: Counter)
    ensures Get(Accumulate(a, b), c) == Cap(Get(a, c) + Get(b, c))
    ensures Get(Subtract(a, b), c) == Monus(Get(a, c), Get(b, c))
  {
  }

  /** The table holds, for every counter, the larger of each point and its kept values. */
  lemma {:induction false} TableSum(points: seq<Point>, c: Counter)
    requires LargerSum(points, c) <= MAX
    ensures Sum(ValuesOf(points), c) + OtherOf(points, c) == LargerSum(points, c)
  {
    hide Get, Merge;
    if points == [] {
      EmptySum(c);
    } else {
      var before, p := points[..|points| - 1], points[|points| - 1];
      TableSum(before, c);
      MergeSum(ValuesOf(before), ByOf(p), c);
    }
  }

  /** No point's kept values exceed the point. */
  ghost predicate FitsAll(points: seq<Point>, c: Counter) {
    forall i | 0 <= i < |points| :: Sum(ByOf(points[i]), c) <= Get(points[i].totals, c)
  }

  lemma {:induction false} LargerIsSeries(points: seq<Point>, c: Counter)
    ensures LargerSum(points, c) >= SeriesSum(points, c)
    ensures LargerSum(points, c) == SeriesSum(points, c) <==> FitsAll(points, c)
  {
    hide Get, Sum, ByOf;
    if points != [] {
      var before, p := points[..|points| - 1], points[|points| - 1];
      LargerIsSeries(before, c);
      assert points == before + [p];
      assert forall i | 0 <= i < |before| :: before[i] == points[i];
      FitsSplit(points, c);
    }
  }

  lemma FitsSplit(points: seq<Point>, c: Counter)
    requires points != []
    ensures var (before, p) := (points[..|points| - 1], points[|points| - 1]);
      FitsAll(points, c) <==> FitsAll(before, c) && Sum(ByOf(p), c) <= Get(p.totals, c)
  {
    hide Get, Sum, ByOf;
    var before := points[..|points| - 1];
    assert forall i | 0 <= i < |before| :: before[i] == points[i];
  }

  /** The rows and `other` add up to the series if and only if no point's kept values exceed the point. */
  lemma TableAddsUp(points: seq<Point>, c: Counter)
    requires LargerSum(points, c) <= MAX
    ensures Sum(ValuesOf(points), c) + OtherOf(points, c) == SeriesSum(points, c) <==> FitsAll(points, c)
  {
    hide ValuesOf, OtherOf, SeriesSum, LargerSum, FitsAll, Sum;
    TableSum(points, c);
    LargerIsSeries(points, c);
  }

  /** One counter of one value over all points. */
  function PointsSum(points: seq<Point>, v: string, c: Counter): nat {
    if points == [] then 0
    else PointsSum(points[..|points| - 1], v, c) + Get(Entry(ByOf(points[|points| - 1]), v), c)
  }

  /** Each row of the table is its value's sum over the points, up to the cap. */
  lemma {:induction false} TableRow(points: seq<Point>, v: string, c: Counter)
    requires forall i, w | 0 <= i < |points| && w in ByOf(points[i]) :: Get(ByOf(points[i])[w], c) <= MAX
    ensures v in ValuesOf(points) <==> exists i | 0 <= i < |points| :: v in ByOf(points[i])
    ensures Get(Entry(ValuesOf(points), v), c) == Cap(PointsSum(points, v, c))
  {
    hide Get, ByOf, Accumulate;
    if points == [] {
      ZeroIsZero(c);
    } else {
      var before, p := points[..|points| - 1], points[|points| - 1];
      assert forall i | 0 <= i < |before| :: before[i] == points[i];
      TableRow(before, v, c);
      ZeroIsZero(c);
      if v in ByOf(p) {
        AccumulatedGet(Entry(ValuesOf(before), v), ByOf(p)[v], c);
      }
      if exists i | 0 <= i < |before| :: v in ByOf(before[i]) {
        var i :| 0 <= i < |before| && v in ByOf(before[i]);
        assert v in ByOf(points[i]);
      }
    }
  }

  // ---- from the rows to the table ---------------------------------------------------------------------------

  /** The parts of a bucket's point: none at all without a split. */
  function PartsAt(split: Option<map<string, Inner>>, bucket: string): Option<Inner> {
    if split.Some? then Some(At(split.value, bucket)) else None
  }

  /** The series of a summary, one point for each bucket, told apart by the kept values if there is a split. */
  predicate IsSeries(points: seq<Point>, series: Inner, split: Option<map<string, Inner>>) {
    && (forall i | 0 <= i < |points| ::
          points[i].timestamp in series && points[i].totals == series[points[i].timestamp]
          && points[i].parts == PartsAt(split, points[i].timestamp))
    && (forall k | k in series :: exists i | 0 <= i < |points| :: points[i].timestamp == k)
    && (forall i, j | 0 <= i < j < |points| :: points[i].timestamp != points[j].timestamp)
  }

  lemma NoSeries(series: Inner, split: Option<map<string, Inner>>)
    requires IsSeries([], series, split)
    ensures series == map[]
  {
    assert forall k :: k !in series;
  }

  lemma SeriesShorter(points: seq<Point>, series: Inner, split: Option<map<string, Inner>>)
    requires IsSeries(points, series, split) && points != []
    ensures var (before, p) := (points[..|points| - 1], points[|points| - 1]);
      && p.timestamp in series && p.totals == series[p.timestamp]
      && IsSeries(before, series - {p.timestamp}, split)
  {
    hide PartsAt;
    var before, p := points[..|points| - 1], points[|points| - 1];
    assert forall i | 0 <= i < |before| :: before[i] == points[i];
    forall k | k in series && k != p.timestamp ensures exists i | 0 <= i < |before| :: before[i].timestamp == k {
      var i :| 0 <= i < |points| && points[i].timestamp == k;
      assert before[i].timestamp == k;
    }
  }

  lemma {:induction false} SeriesSums(points: seq<Point>, series: Inner, split: Option<map<string, Inner>>, c: Counter)
    requires IsSeries(points, series, split)
    ensures SeriesSum(points, c) == Sum(series, c)
  {
    hide Get, Sum, IsSeries;
    if points == [] {
      NoSeries(series, split);
      EmptySum(c);
    } else {
      var before, p := points[..|points| - 1], points[|points| - 1];
      var rest := series - {p.timestamp};
      SeriesShorter(points, series, split);
      SumWithout(series, p.timestamp, c);
      SeriesSums(before, rest, split, c);
    }
  }

  /**
   * From any rows, split by provider, model or agent, whichever values are kept, or not split at
   * all: the rows of the table and `other` together are exactly the grand total, counter by counter.
   */
  lemma SplitTableIsTotal(rows: seq<Row>, d: Dim, kept: set<string>, split: Option<map<string, Inner>>,
                          points: seq<Point>, c: Counter)
    requires d != Bucket && (split == None || split == Some(Retained(SplitAll(rows, d), kept)))
    requires IsSeries(points, Fold(rows).series, split)
    requires Get(Fold(rows).totals, c) <= MAX
    ensures Sum(ValuesOf(points), c) + OtherOf(points, c) == Get(Fold(rows).totals, c)
  {
    hide Get, ValuesOf, OtherOf, Fold, SplitAll, Retained, Sum, LargerSum, SeriesSum, RowSum, At;
    SeriesSums(points, Fold(rows).series, split, c);
    IndexesAgree(rows, Bucket, c);
    SeriesIs(rows);
    EmptySum(c);
    forall i | 0 <= i < |points| ensures Sum(ByOf(points[i]), c) <= Get(points[i].totals, c) {
      KeptFitsBucket(rows, d, kept, points[i].timestamp, c);
    }
    LargerIsSeries(points, c);
    TableAddsUp(points, c);
  }
}
