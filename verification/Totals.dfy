/** Totals of calls, their counters, and sums of counters over rows and over maps. */
module Totals {

  /** Every additive counter of a total; `latencyMax` is a maximum, not a sum. */
  datatype Totals = Totals(
    calls: nat, errors: nat, input: nat, output: nat, cacheRead: nat, cacheWrite: nat, cacheWrite1h: nat,
    cacheUnknown: nat, reasoning: nat, latencySum: nat, latencyMax: nat, ttftSum: nat, ttftCalls: nat,
    unpriced: nat, retried: nat, loops: nat, decodeMs: nat, decodeOut: nat, decodeN: nat)

  datatype Counter =
    | Calls | Errors | Input | Output | CacheRead | CacheWrite | CacheWrite1h | CacheUnknown | Reasoning
    | LatencySum | TtftSum | TtftCalls | Unpriced | Retried | Loops | DecodeMs | DecodeOut | DecodeN

  const ZERO := Totals(0, 0, 0, 0, 0, 0, 0, 0, 0, 0, 0, 0, 0, 0, 0, 0, 0, 0, 0)

  function Get(t: Totals, c: Counter): nat {
    match c
    case Calls => t.calls
    case Errors => t.errors
    case Input => t.input
    case Output => t.output
    case CacheRead => t.cacheRead
    case CacheWrite => t.cacheWrite
    case CacheWrite1h => t.cacheWrite1h
    case CacheUnknown => t.cacheUnknown
    case Reasoning => t.reasoning
    case LatencySum => t.latencySum
    case TtftSum => t.ttftSum
    case TtftCalls => t.ttftCalls
    case Unpriced => t.unpriced
    case Retried => t.retried
    case Loops => t.loops
    case DecodeMs => t.decodeMs
    case DecodeOut => t.decodeOut
    case DecodeN => t.decodeN
  }

  function Max(a: nat, b: nat): nat {
    if a < b then b else a
  }

  /** `add_totals`, on sums that fit their width. */
  function Add(a: Totals, b: Totals): (r: Totals)
    ensures forall c :: Get(r, c) == Get(a, c) + Get(b, c)
    ensures r.latencyMax == Max(a.latencyMax, b.latencyMax)
  {
    Totals(
      a.calls + b.calls, a.errors + b.errors, a.input + b.input, a.output + b.output,
      a.cacheRead + b.cacheRead, a.cacheWrite + b.cacheWrite, a.cacheWrite1h + b.cacheWrite1h,
      a.cacheUnknown + b.cacheUnknown, a.reasoning + b.reasoning, a.latencySum + b.latencySum,
      Max(a.latencyMax, b.latencyMax), a.ttftSum + b.ttftSum, a.ttftCalls + b.ttftCalls,
      a.unpriced + b.unpriced, a.retried + b.retried, a.loops + b.loops,
      a.decodeMs + b.decodeMs, a.decodeOut + b.decodeOut, a.decodeN + b.decodeN)
  }

  lemma ZeroIsZero(c: Counter)
    ensures Get(ZERO, c) == 0
  {
  }

  // ---- sums over maps --------------------------------------------------------------------------

  ghost function Pick<V>(m: map<string, V>): (k: string)
    requires m != map[]
    ensures k in m
  {
    assert m.Keys == {} ==> m == map[];
    var k :| k in m.Keys;
    k
  }

  /** One counter over all entries of an index. */
  ghost function Sum(m: map<string, Totals>, c: Counter): nat
    decreases |m|
  {
    if m == map[] then 0
    else
      var k := Pick(m);
      Smaller(m, k);
      Get(m[k], c) + Sum(m - {k}, c)
  }

  lemma Smaller<V>(m: map<string, V>, k: string)
    requires k in m
    ensures |m - {k}| < |m|
  {
    var rest := m - {k};
    assert rest.Keys == m.Keys - {k};
    assert |rest| == |rest.Keys| && |m| == |m.Keys|;
  }

  /** The order in which the entries are counted does not matter. */
  lemma {:induction false} SumWithout(m: map<string, Totals>, k: string, c: Counter)
    requires k in m
    ensures Sum(m, c) == Get(m[k], c) + Sum(m - {k}, c)
    decreases |m|
  {
    hide Get;
    var first := Pick(m);
    Smaller(m, first);
    if first != k {
      SumWithout(m - {first}, k, c);
      Smaller(m, k);
      SumWithout(m - {k}, first, c);
      assert m - {first} - {k} == m - {k} - {first};
    }
  }

  function Entry(m: map<string, Totals>, k: string): Totals {
    if k in m then m[k] else ZERO
  }

  /** Adding to one entry adds that much to the sum. */
  lemma SumAdded(m: map<string, Totals>, k: string, t: Totals, c: Counter)
    ensures Sum(m[k := Add(Entry(m, k), t)], c) == Sum(m, c) + Get(t, c)
  {
    hide Get, Add;
    var n := m[k := Add(Entry(m, k), t)];
    SumWithout(n, k, c);
    AddedGet(Entry(m, k), t, c);
    if k in m {
      SumWithout(m, k, c);
      assert n - {k} == m - {k};
    } else {
      ZeroIsZero(c);
      assert n - {k} == m;
    }
  }

  lemma AddedGet(a: Totals, b: Totals, c: Counter)
    ensures Get(Add(a, b), c) == Get(a, c) + Get(b, c)
  {
  }

  lemma EmptySum(c: Counter)
    ensures Sum(map[], c) == 0
  {
  }
}
