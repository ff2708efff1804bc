/** Folding grouped rows into a summary: one grand total and four indexes that agree with it. */
module Folds {
  import opened Text
  import opened Totals

  /** One grouped row of the rollup. */
  datatype Row = Row(bucket: string, provider: string, model: string, agent: string, totals: Totals)

  datatype Dim = Bucket | Provider | Model | Agent

  function KeyOf(r: Row, d: Dim): string {
    match d
    case Bucket => r.bucket
    case Provider => r.provider
    case Model => r.model
    case Agent => r.agent
  }

  /** The running state: totals by each key, and for each model the provider it names, if any. */
  datatype Summary = Summary(
    totals: Totals, series: map<string, Totals>, providers: map<string, Totals>,
    models: map<string, Totals>, named: map<string, Option<string>>, agents: map<string, Totals>)

  const EMPTY := Summary(ZERO, map[], map[], map[], map[], map[])

  function Index(s: Summary, d: Dim): map<string, Totals> {
    match d
    case Bucket => s.series
    case Provider => s.providers
    case Model => s.models
    case Agent => s.agents
  }

  function AddTo(m: map<string, Totals>, k: string, t: Totals): map<string, Totals> {
    m[k := Add(Entry(m, k), t)]
  }

  /** A model keeps its provider's name only as long as every row agrees. */
  function Name(named: map<string, Option<string>>, r: Row): map<string, Option<string>> {
    if r.model !in named then named[r.model := Some(r.provider)]
    else if named[r.model] != Some(r.provider) then named[r.model := None]
    else named
  }

  function FoldRow(s: Summary, r: Row): Summary {
    Summary(Add(s.totals, r.totals), AddTo(s.series, r.bucket, r.totals), AddTo(s.providers, r.provider, r.totals),
            AddTo(s.models, r.model, r.totals), Name(s.named, r), AddTo(s.agents, r.agent, r.totals))
  }

  function Fold(rows: seq<Row>): Summary {
    if rows == [] then EMPTY else FoldRow(Fold(rows[..|rows| - 1]), rows[|rows| - 1])
  }

  /** One counter over the rows that have key `k`; all rows if None. */
  function RowSum(rows: seq<Row>, d: Dim, k: Option<string>, c: Counter): nat {
    if rows == [] then 0
    else
      var r := rows[|rows| - 1];
      RowSum(rows[..|rows| - 1], d, k, c) + if k == None || k == Some(KeyOf(r, d)) then Get(r.totals, c) else 0
  }

  lemma FoldStep(rows: seq<Row>)
    ensures Fold(rows) == if rows == [] then EMPTY else FoldRow(Fold(rows[..|rows| - 1]), rows[|rows| - 1])
  {
    hide FoldRow;
  }

  lemma SumStep(rows: seq<Row>, d: Dim, k: Option<string>, c: Counter)
    ensures RowSum(rows, d, k, c) == if rows == [] then 0
      else RowSum(rows[..|rows| - 1], d, k, c)
           + if k == None || k == Some(KeyOf(rows[|rows| - 1], d)) then Get(rows[|rows| - 1].totals, c) else 0
  {
    hide Get, KeyOf;
  }

  lemma IndexStep(s: Summary, r: Row, d: Dim)
    ensures Index(FoldRow(s, r), d) == AddTo(Index(s, d), KeyOf(r, d), r.totals)
  {
  }

  /** For any rows in any order, every index sums to the grand total, which is the sum of the rows. */
  lemma {:induction false} IndexesAgree(rows: seq<Row>, d: Dim, c: Counter)
    ensures Sum(Index(Fold(rows), d), c) == Get(Fold(rows).totals, c) == RowSum(rows, d, None, c)
  {
    hide Get, Add, FoldRow, Sum, Index;
    if rows == [] {
      EmptySum(c);
      ZeroIsZero(c);
      EmptyIndex(d);
    } else {
      var s, r := Fold(rows[..|rows| - 1]), rows[|rows| - 1];
      IndexesAgree(rows[..|rows| - 1], d, c);
      IndexStep(s, r, d);
      SumAdded(Index(s, d), KeyOf(r, d), r.totals, c);
      TotalsStep(s, r);
      AddedGet(s.totals, r.totals, c);
    }
  }

  lemma EmptyIndex(d: Dim)
    ensures Index(EMPTY, d) == map[]
  {
  }

  lemma TotalsStep(s: Summary, r: Row)
    ensures FoldRow(s, r).totals == Add(s.totals, r.totals) && FoldRow(s, r).named == Name(s.named, r)
  {
  }

  predicate HasKey(rows: seq<Row>, d: Dim, k: string) {
    exists i | 0 <= i < |rows| :: KeyOf(rows[i], d) == k
  }

  lemma KeyAtEnd(rows: seq<Row>, d: Dim, k: string)
    requires rows != []
    ensures HasKey(rows, d, k) <==> HasKey(rows[..|rows| - 1], d, k) || KeyOf(rows[|rows| - 1], d) == k
  {
    hide KeyOf;
    var before := rows[..|rows| - 1];
    assert forall i | 0 <= i < |before| :: before[i] == rows[i];
    if HasKey(before, d, k) {
      var i :| 0 <= i < |before| && KeyOf(before[i], d) == k;
      assert KeyOf(rows[i], d) == k;
    }
  }

  /** Each entry of each index is the sum of exactly the rows with its key, and there is one for each key. */
  lemma {:induction false} EntriesAreRowSums(rows: seq<Row>, d: Dim, k: string, c: Counter)
    ensures k in Index(Fold(rows), d) <==> HasKey(rows, d, k)
    ensures Get(Entry(Index(Fold(rows), d), k), c) == RowSum(rows, d, Some(k), c)
  {
    hide Get, Add, AddTo, Entry, FoldRow, Fold, RowSum, Index, KeyOf, HasKey;
    FoldStep(rows);
    SumStep(rows, d, Some(k), c);
    if rows == [] {
      EmptyIndex(d);
      EmptyEntry(k, c);
      NoKeys(d, k);
    } else {
      var before, r := rows[..|rows| - 1], rows[|rows| - 1];
      EntriesAreRowSums(before, d, k, c);
      KeyAtEnd(rows, d, k);
      IndexStep(Fold(before), r, d);
      EntryAdded(Index(Fold(before), d), KeyOf(r, d), r.totals, k, c);
    }
  }

  lemma EntryAdded(m: map<string, Totals>, at: string, t: Totals, k: string, c: Counter)
    ensures k in AddTo(m, at, t) <==> k in m || k == at
    ensures Get(Entry(AddTo(m, at, t), k), c) == Get(Entry(m, k), c) + if k == at then Get(t, c) else 0
  {
    hide Get, Add;
    AddedGet(Entry(m, k), t, c);
  }

  lemma EmptyEntry(k: string, c: Counter)
    ensures Get(Entry(map[], k), c) == 0
  {
  }

  lemma NoKeys(d: Dim, k: string)
    ensures !HasKey([], d, k)
  {
  }

  /** One counter over the rows that satisfy a condition. */
  function SumWhere(rows: seq<Row>, p: Row -> bool, c: Counter): nat {
    if rows == [] then 0
    else SumWhere(rows[..|rows| - 1], p, c) + if p(rows[|rows| - 1]) then Get(rows[|rows| - 1].totals, c) else 0
  }

  lemma {:induction false} SumsAgree(rows: seq<Row>, d: Dim, k: string, p: Row -> bool, c: Counter)
    requires forall r :: p(r) <==> KeyOf(r, d) == k
    ensures RowSum(rows, d, Some(k), c) == SumWhere(rows, p, c)
  {
    hide Get, KeyOf;
    if rows != [] {
      SumsAgree(rows[..|rows| - 1], d, k, p, c);
    }
  }

  lemma {:induction false} AllSummed(rows: seq<Row>, d: Dim, p: Row -> bool, c: Counter)
    requires forall r :: p(r)
    ensures RowSum(rows, d, None, c) == SumWhere(rows, p, c)
  {
    hide Get, KeyOf;
    if rows != [] {
      AllSummed(rows[..|rows| - 1], d, p, c);
    }
  }

  /** The same by field: time, provider, model and agent each have their own index, over the same rows. */
  lemma FieldsAreSummed(rows: seq<Row>, k: string, c: Counter)
    ensures var s := Fold(rows);
      && Get(s.totals, c) == SumWhere(rows, r => true, c)
      && Get(Entry(s.series, k), c) == SumWhere(rows, (r: Row) => r.bucket == k, c)
      && Get(Entry(s.providers, k), c) == SumWhere(rows, (r: Row) => r.provider == k, c)
      && Get(Entry(s.models, k), c) == SumWhere(rows, (r: Row) => r.model == k, c)
      && Get(Entry(s.agents, k), c) == SumWhere(rows, (r: Row) => r.agent == k, c)
  {
    hide Get, Fold, RowSum, SumWhere, Entry, Sum;
    IndexesAgree(rows, Bucket, c);
    AllSummed(rows, Bucket, r => true, c);
    EntriesAreRowSums(rows, Bucket, k, c);
    SumsAgree(rows, Bucket, k, (r: Row) => r.bucket == k, c);
    EntriesAreRowSums(rows, Provider, k, c);
    SumsAgree(rows, Provider, k, (r: Row) => r.provider == k, c);
    EntriesAreRowSums(rows, Model, k, c);
    SumsAgree(rows, Model, k, (r: Row) => r.model == k, c);
    EntriesAreRowSums(rows, Agent, k, c);
    SumsAgree(rows, Agent, k, (r: Row) => r.agent == k, c);
  }

  /** All rows of the model come from the provider. */
  predicate SoleProvider(rows: seq<Row>, model: string, provider: string) {
    forall i | 0 <= i < |rows| :: rows[i].model == model ==> rows[i].provider == provider
  }

  predicate HasModel(rows: seq<Row>, model: string) {
    exists i | 0 <= i < |rows| :: rows[i].model == model
  }

  lemma SplitOff(rows: seq<Row>, model: string, provider: string)
    requires rows != []
    ensures var (before, r) := (rows[..|rows| - 1], rows[|rows| - 1]);
      && (SoleProvider(rows, model, provider) <==>
            SoleProvider(before, model, provider) && (r.model == model ==> r.provider == provider))
      && (HasModel(rows, model) <==> HasModel(before, model) || r.model == model)
  {
    var before, r := rows[..|rows| - 1], rows[|rows| - 1];
    assert rows == before + [r];
    assert forall i | 0 <= i < |before| :: before[i] == rows[i];
    if HasModel(before, model) {
      var i :| 0 <= i < |before| && before[i].model == model;
      assert rows[i].model == model;
    }
  }

  /** A model names a provider if and only if all its rows have that provider. */
  lemma {:induction false} ModelNamesItsProvider(rows: seq<Row>, model: string, provider: string)
    ensures model in Fold(rows).named <==> HasModel(rows, model)
    ensures HasModel(rows, model) ==>
      (Fold(rows).named[model] == Some(provider) <==> SoleProvider(rows, model, provider))
  {
    hide Add, AddTo, SoleProvider, HasModel, FoldRow;
    if rows == [] {
      NoRows(model);
    } else {
      var before, r := rows[..|rows| - 1], rows[|rows| - 1];
      ModelNamesItsProvider(before, model, provider);
      ModelNamesItsProvider(before, model, r.provider);
      SplitOff(rows, model, provider);
      SplitOff(rows, model, r.provider);
      TotalsStep(Fold(before), r);
      if r.model == model && !HasModel(before, model) {
        NoneBefore(before, model, provider);
      }
      if r.model == model && HasModel(before, model) && provider != r.provider {
        NamesOne(before, model, provider, r.provider);
      }
    }
  }

  lemma NoRows(model: string)
    ensures !HasModel([], model)
  {
  }

  lemma NoneBefore(rows: seq<Row>, model: string, provider: string)
    requires !HasModel(rows, model)
    ensures SoleProvider(rows, model, provider)
  {
  }

  lemma NamesOne(rows: seq<Row>, model: string, p: string, q: string)
    requires HasModel(rows, model) && p != q
    ensures !(SoleProvider(rows, model, p) && SoleProvider(rows, model, q))
  {
  }

  /** The largest latency of the rows. */
  lemma {:induction false} LatencyIsMaximum(rows: seq<Row>)
    ensures forall r | r in rows :: r.totals.latencyMax <= Fold(rows).totals.latencyMax
    ensures rows != [] ==> exists r | r in rows :: r.totals.latencyMax == Fold(rows).totals.latencyMax
  {
    hide Get, AddTo, Name;
    if rows != [] {
      var before, r := rows[..|rows| - 1], rows[|rows| - 1];
      LatencyIsMaximum(before);
      assert rows == before + [r];
      assert r in rows;
      assert forall q | q in before :: q in rows;
    }
  }

  // ---- the fold as it runs ----------------------------------------------------------------------------

  class Tally {
    var totals: Totals
    var series: map<string, Totals>
    var providers: map<string, Totals>
    var models: map<string, Totals>
    var named: map<string, Option<string>>
    var agents: map<string, Totals>

    function Value(): Summary
      reads this
    {
      Summary(totals, series, providers, models, named, agents)
    }

    constructor ()
      ensures Value() == EMPTY
    {
      totals, series, providers, models, named, agents := ZERO, map[], map[], map[], map[], map[];
    }

    method FoldSummaryRow(r: Row)
      modifies this
      ensures Value() == FoldRow(old(Value()), r)
    {
      hide Add;
      totals := Add(totals, r.totals);
      series := AddTo(series, r.bucket, r.totals);
      providers := AddTo(providers, r.provider, r.totals);
      if r.model in named {
        if named[r.model] != Some(r.provider) {
          named := named[r.model := None];
        }
      } else {
        named := named[r.model := Some(r.provider)];
      }
      models := AddTo(models, r.model, r.totals);
      agents := AddTo(agents, r.agent, r.totals);
    }

    method FoldAll(rows: seq<Row>)
      requires Value() == EMPTY
      modifies this
      ensures Value() == Fold(rows)
    {
      hide FoldRow;
      var n := 0;
      assert rows[..0] == [];
      while n < |rows|
        invariant n <= |rows| && Value() == Fold(rows[..n])
      {
        assert rows[..n + 1][..n] == rows[..n];
        FoldSummaryRow(rows[n]);
        n := n + 1;
      }
      assert rows[..n] == rows;
    }
  }
}
