/** The model catalog's stable text: the same for every order, different for every content. */
module Catalog {
  import opened Text

  datatype Model = Model(id: string, name: string, reasoning: bool, context: Option<nat>)

  const NUL: char := '\0'

  // ---- the order of the rows --------------------------------------------------------------------

  function CompareText(a: string, b: string): (c: int)
    ensures c in [-1, 0, 1]
    decreases |a|
  {
    if a == [] then if b == [] then 0 else -1
    else if b == [] then 1
    else if a[0] < b[0] then -1
    else if a[0] > b[0] then 1
    else CompareText(a[1..], b[1..])
  }

  function CompareNat(a: nat, b: nat): (c: int)
    ensures c in [-1, 0, 1]
  {
    if a < b then -1 else if a > b then 1 else 0
  }

  function CompareContext(a: Option<nat>, b: Option<nat>): (c: int)
    ensures c in [-1, 0, 1]
  {
    match (a, b)
    case (None, None) => 0
    case (None, Some(_)) => -1
    case (Some(_), None) => 1
    case (Some(x), Some(y)) => CompareNat(x, y)
  }

  function FirstNonZero(c: int, d: int): int {
    if c != 0 then c else d
  }

  /** By id, then name, then reasoning, then context. */
  function Compare(a: Model, b: Model): int {
    FirstNonZero(CompareText(a.id, b.id),
      FirstNonZero(CompareText(a.name, b.name),
        FirstNonZero(CompareNat(if a.reasoning then 1 else 0, if b.reasoning then 1 else 0),
          CompareContext(a.context, b.context))))
  }

  predicate AtMost(a: Model, b: Model) {
    Compare(a, b) <= 0
  }

  lemma {:induction false} TextOrder(a: string, b: string, c: string)
    ensures CompareText(a, b) == 0 <==> a == b
    ensures CompareText(b, a) == -CompareText(a, b)
    ensures CompareText(a, b) <= 0 && CompareText(b, c) <= 0 ==> CompareText(a, c) <= 0
    ensures CompareText(a, b) <= 0 && CompareText(b, c) <= 0 && CompareText(a, c) == 0 ==> a == b && b == c
    decreases |a| + |b| + |c|
  {
    if a != [] && b != [] {
      TextOrder(a[1..], b[1..], if c == [] then [] else c[1..]);
      assert a == [a[0]] + a[1..] && b == [b[0]] + b[1..];
      if c != [] {
        assert c == [c[0]] + c[1..];
      }
    } else if b != [] && c != [] {
      TextOrder([], b[1..], c[1..]);
      assert b == [b[0]] + b[1..] && c == [c[0]] + c[1..];
    }
  }

  lemma ModelOrder(a: Model, b: Model, c: Model)
    ensures AtMost(a, b) || AtMost(b, a)
    ensures AtMost(a, b) && AtMost(b, a) ==> a == b
    ensures AtMost(a, b) && AtMost(b, c) ==> AtMost(a, c)
  {
    hide CompareText;
    TextOrder(a.id, b.id, c.id);
    TextOrder(a.name, b.name, c.name);
    TextOrder(b.id, c.id, a.id);
    TextOrder(b.name, c.name, a.name);
    TextOrder(a.id, c.id, b.id);
    TextOrder(a.name, c.name, b.name);
  }

  /** The first place at which they differ has the smaller character, or one is the start of the other. */
  ghost predicate Precedes(a: string, b: string) {
    || (|a| < |b| && a == b[..|a|])
    || exists k | 0 <= k < |a| && k < |b| :: a[..k] == b[..k] && a[k] < b[k]
  }

  lemma {:induction false} TextPrecedes(a: string, b: string)
    ensures CompareText(a, b) < 0 <==> Precedes(a, b)
    decreases |a|
  {
    if a != [] && b != [] {
      assert a == [a[0]] + a[1..] && b == [b[0]] + b[1..];
      if a[0] == b[0] {
        TextPrecedes(a[1..], b[1..]);
        PrecedesBehind(a, b);
      } else {
        assert a[..0] == b[..0];
        PrecedesAtFirst(a, b);
      }
    }
  }

  lemma PrecedesAtFirst(a: string, b: string)
    requires a != "" && b != "" && a[0] != b[0]
    ensures Precedes(a, b) <==> a[0] < b[0]
  {
    assert a[..0] == b[..0];
    assert |a| < |b| ==> b[..|a|][0] == b[0];
    forall k | 0 < k <= |a| && k <= |b| ensures a[..k] != b[..k] {
      assert a[..k][0] != b[..k][0];
    }
  }

  lemma PrecedesBehind(a: string, b: string)
    requires a != "" && b != "" && a[0] == b[0]
    ensures Precedes(a, b) <==> Precedes(a[1..], b[1..])
  {
    var (x, y) := (a[1..], b[1..]);
    assert a == [a[0]] + x && b == [b[0]] + y;
    forall k | 0 <= k < |x| && k < |y| ensures x[..k] == y[..k] <==> a[..k + 1] == b[..k + 1] {
      assert a[..k + 1] == [a[0]] + x[..k] && b[..k + 1] == [b[0]] + y[..k];
    }
    if Precedes(x, y) {
      if |x| < |y| && x == y[..|x|] {
        assert b[..|a|] == [b[0]] + y[..|x|];
      } else {
        var k :| 0 <= k < |x| && k < |y| && x[..k] == y[..k] && x[k] < y[k];
        assert a[k + 1] < b[k + 1];
      }
    }
    if Precedes(a, b) {
      if |a| < |b| && a == b[..|a|] {
        assert b[..|a|] == [b[0]] + y[..|x|];
      } else {
        var k :| 0 <= k < |a| && k < |b| && a[..k] == b[..k] && a[k] < b[k];
        assert x[..k - 1] == y[..k - 1] && x[k - 1] < y[k - 1];
      }
    }
  }

  /** Rows stand by id, for equal ids by name, then those without reasoning first, then by context, none first. */
  lemma RowsByField(a: Model, b: Model)
    ensures AtMost(a, b) <==>
      || Precedes(a.id, b.id)
      || (a.id == b.id && Precedes(a.name, b.name))
      || (a.id == b.id && a.name == b.name && !a.reasoning && b.reasoning)
      || (a.id == b.id && a.name == b.name && a.reasoning == b.reasoning
          && (a.context.None? || (b.context.Some? && a.context.value <= b.context.value)))
  {
    hide CompareText, Precedes;
    TextPrecedes(a.id, b.id);
    TextPrecedes(a.name, b.name);
    TextPrecedes(b.id, a.id);
    TextOrder(a.id, b.id, a.id);
    TextOrder(a.name, b.name, a.name);
  }

  predicate Sorted(rows: seq<Model>) {
    forall i, j | 0 <= i < j < |rows| :: AtMost(rows[i], rows[j])
  }

  function Insert(row: Model, rows: seq<Model>): seq<Model> {
    if rows == [] || AtMost(row, rows[0]) then [row] + rows else [rows[0]] + Insert(row, rows[1..])
  }

  function Sort(rows: seq<Model>): seq<Model> {
    if rows == [] then [] else Insert(rows[0], Sort(rows[1..]))
  }

  lemma {:induction false} InsertSorts(row: Model, rows: seq<Model>)
    requires Sorted(rows)
    ensures Sorted(Insert(row, rows))
    ensures multiset(Insert(row, rows)) == multiset{row} + multiset(rows)
  {
    hide Compare, AtMost;
    if rows != [] {
      assert rows == [rows[0]] + rows[1..];
      if AtMost(row, rows[0]) {
        forall j | 0 <= j < |rows| ensures AtMost(row, rows[j]) {
          ModelOrder(row, rows[0], rows[j]);
        }
      } else {
        InsertSorts(row, rows[1..]);
        var rest := Insert(row, rows[1..]);
        forall j | 0 <= j < |rest| ensures AtMost(rows[0], rest[j]) {
          assert rest[j] in multiset(rest);
          ModelOrder(row, rows[0], row);
          assert rest[j] == row || rest[j] in rows[1..];
        }
      }
    }
  }

  lemma {:induction false} SortSorts(rows: seq<Model>)
    ensures Sorted(Sort(rows)) && multiset(Sort(rows)) == multiset(rows)
  {
    hide Compare, AtMost;
    if rows != [] {
      SortSorts(rows[1..]);
      InsertSorts(rows[0], Sort(rows[1..]));
      assert rows == [rows[0]] + rows[1..];
    }
  }

  lemma LeastFirst(rows: seq<Model>, row: Model)
    requires Sorted(rows) && row in rows
    ensures AtMost(rows[0], row)
  {
    hide Compare, AtMost;
    var i :| 0 <= i < |rows| && rows[i] == row;
    ModelOrder(row, row, row);
  }

  lemma SameFirst(a: seq<Model>, b: seq<Model>)
    requires Sorted(a) && Sorted(b) && multiset(a) == multiset(b) && a != [] && b != []
    ensures a[0] == b[0]
  {
    hide Compare, AtMost, Sorted;
    assert a[0] in multiset(b) && b[0] in multiset(a);
    LeastFirst(a, b[0]);
    LeastFirst(b, a[0]);
    ModelOrder(a[0], b[0], a[0]);
  }

  lemma SortedRest(a: seq<Model>)
    requires Sorted(a) && a != []
    ensures Sorted(a[1..])
  {
    hide AtMost;
  }

  lemma RestOf(a: seq<Model>)
    requires a != []
    ensures a == [a[0]] + a[1..] && multiset(a[1..]) == multiset(a) - multiset{a[0]}
  {
    assert a == [a[0]] + a[1..];
  }

  /** There is only one sorted order of the same rows. */
  lemma {:induction false} SortedIsUnique(a: seq<Model>, b: seq<Model>)
    requires Sorted(a) && Sorted(b) && multiset(a) == multiset(b)
    ensures a == b
    decreases |a|
  {
    hide Compare, AtMost, Sorted;
    assert |multiset(a)| == |a| && |multiset(b)| == |b|;
    if a != [] {
      SameFirst(a, b);
      SortedRest(a);
      SortedRest(b);
      RestOf(a);
      RestOf(b);
      SortedIsUnique(a[1..], b[1..]);
    }
  }

  // ---- the text of a row ------------------------------------------------------------------------------

  function DigitChar(d: nat): (c: char)
    requires d < 10
    ensures c != NUL && c != '\n' && c != '-'
  {
    "0123456789"[d]
  }

  function Decimal(n: nat): (s: string)
    ensures s != ""
    ensures NUL !in s && '\n' !in s && '-' !in s
  {
    if n < 10 then [DigitChar(n)] else Decimal(n / 10) + [DigitChar(n % 10)]
  }

  /** The number a text of digits denotes. */
  function NumberOf(s: string): int {
    if s == "" then 0 else NumberOf(s[..|s| - 1]) * 10 + (s[|s| - 1] as int - '0' as int)
  }

  lemma {:induction false} DecimalDenotes(n: nat)
    ensures NumberOf(Decimal(n)) == n
    ensures forall c | c in Decimal(n) :: '0' <= c <= '9'
    ensures Decimal(n)[0] == '0' ==> n == 0
  {
    DigitIs(n % 10);
    var s := Decimal(n);
    if n < 10 {
      assert s[..|s| - 1] == "" && NumberOf("") == 0;
    } else {
      DecimalDenotes(n / 10);
      assert s[..|s| - 1] == Decimal(n / 10);
    }
  }

  lemma DigitIs(d: nat)
    requires d < 10
    ensures '0' <= DigitChar(d) <= '9' && DigitChar(d) as int - '0' as int == d
  {
  }

  function ContextText(c: Option<nat>): string {
    if c.Some? then Decimal(c.value) else "-"
  }

  function BoolText(b: bool): string {
    if b then "true" else "false"
  }

  function RowText(m: Model): string {
    m.id + [NUL] + m.name + [NUL] + BoolText(m.reasoning) + [NUL] + ContextText(m.context) + "\n"
  }

  function RowsText(rows: seq<Model>): string {
    if rows == [] then "" else RowText(rows[0]) + RowsText(rows[1..])
  }

  /** What is hashed. */
  function StableText(models: seq<Model>): string {
    RowsText(Sort(models))
  }

  /** Names that hold no separator. */
  predicate Separable(m: Model) {
    NUL !in m.id && NUL !in m.name
  }

  lemma RowParts(m: Model, x: string)
    ensures RowText(m) + x
         == m.id + [NUL] + (m.name + [NUL] + (BoolText(m.reasoning) + [NUL] + (ContextText(m.context) + ['\n'] + x)))
  {
    hide Decimal;
  }

  // ---- the text read back -----------------------------------------------------------------------------

  /** What stands before the first `c`, and what stands behind it. */
  function Field(s: string, c: char): (r: Option<(string, string)>)
    ensures r.Some? ==> |r.value.1| < |s|
  {
    if s == "" then None
    else if s[0] == c then Some(("", s[1..]))
    else
      match Field(s[1..], c)
      case Some(r) => Some(([s[0]] + r.0, r.1))
      case None => None
  }

  lemma {:induction false} FieldIs(a: string, c: char, x: string)
    requires c !in a
    ensures Field(a + [c] + x, c) == Some((a, x))
  {
    var s := a + [c] + x;
    if a == "" {
      assert s[0] == c && s[1..] == x;
    } else {
      FieldIs(a[1..], c, x);
      assert s[0] == a[0] && s[1..] == a[1..] + [c] + x && a == [a[0]] + a[1..];
    }
  }

  /** Four fields: the name of the model, its display name, a truth value, and a number or a dash. */
  function ReadRow(s: string): (r: Option<(Model, string)>)
    ensures r.Some? ==> |r.value.1| < |s|
  {
    var id :- Field(s, NUL);
    var name :- Field(id.1, NUL);
    var reasoning :- Field(name.1, NUL);
    var context :- Field(reasoning.1, '\n');
    if reasoning.0 !in ["true", "false"] || (context.0 != "-" && NumberOf(context.0) < 0) then None
    else
      var window := if context.0 == "-" then None else Some(NumberOf(context.0));
      Some((Model(id.0, name.0, reasoning.0 == "true", window), context.1))
  }

  function ReadRows(s: string): Option<seq<Model>>
    decreases |s|
  {
    if s == "" then Some([])
    else
      var row :- ReadRow(s);
      var rows :- ReadRows(row.1);
      Some([row.0] + rows)
  }

  lemma RowIsRead(m: Model, x: string)
    requires Separable(m)
    ensures ReadRow(RowText(m) + x) == Some((m, x))
  {
    hide RowText, Decimal, Field, NumberOf;
    RowParts(m, x);
    var c := ContextText(m.context) + ['\n'] + x;
    var r := BoolText(m.reasoning) + [NUL] + c;
    FieldIs(m.id, NUL, m.name + [NUL] + r);
    FieldIs(m.name, NUL, r);
    assert NUL !in BoolText(m.reasoning) && "true"[0] == 't' && "false"[0] == 'f';
    FieldIs(BoolText(m.reasoning), NUL, c);
    FieldIs(ContextText(m.context), '\n', x);
    if m.context.Some? {
      DecimalDenotes(m.context.value);
      assert '-' !in Decimal(m.context.value);
    }
  }

  /** The rows' text holds the rows: cutting it at its separators gives them back. */
  lemma {:induction false} RowsAreRead(rows: seq<Model>)
    requires forall m | m in rows :: Separable(m)
    ensures ReadRows(RowsText(rows)) == Some(rows)
  {
    hide RowText, ReadRow;
    if rows != [] {
      assert rows[0] in rows && forall m | m in rows[1..] :: m in rows;
      RowsAreRead(rows[1..]);
      RowIsRead(rows[0], RowsText(rows[1..]));
      RowIsNotEmpty(rows[0], RowsText(rows[1..]));
      assert rows == [rows[0]] + rows[1..];
    }
  }

  lemma RowIsNotEmpty(m: Model, x: string)
    ensures RowText(m) + x != ""
  {
  }

  lemma RowsAreInjective(a: seq<Model>, b: seq<Model>)
    requires (forall m | m in a :: Separable(m)) && (forall m | m in b :: Separable(m))
    requires RowsText(a) == RowsText(b)
    ensures a == b
  {
    hide RowsText;
    RowsAreRead(a);
    RowsAreRead(b);
  }

  /** Two catalogs have the same stable text if and only if one is a reordering of the other. */
  lemma SameTextIffReordered(a: seq<Model>, b: seq<Model>)
    requires (forall m | m in a :: Separable(m)) && (forall m | m in b :: Separable(m))
    ensures StableText(a) == StableText(b) <==> multiset(a) == multiset(b)
  {
    hide Sort, RowsText, Separable, AtMost;
    SortSorts(a);
    SortSorts(b);
    if multiset(a) == multiset(b) {
      SortedIsUnique(Sort(a), Sort(b));
    }
    if StableText(a) == StableText(b) {
      SameMembers(a, Sort(a));
      SameMembers(b, Sort(b));
      RowsAreInjective(Sort(a), Sort(b));
    }
  }

  lemma SameMembers<T>(a: seq<T>, b: seq<T>)
    requires multiset(a) == multiset(b)
    ensures forall m | m in b :: m in a
  {
    forall m | m in b ensures m in a {
      assert m in multiset(b);
    }
  }

  // ---- separators inside names --------------------------------------------------------------------

  /** Without its separator inside a name a row is told apart from every row, whatever that one holds. */
  lemma SeparableIsUnique(m: Model, n: Model)
    requires Separable(m) && RowText(m) == RowText(n)
    ensures m == n
  {
    hide Decimal, RowText;
    RowSeparators(m);
    RowSeparators(n);
    assert RowText(m) + "" == RowText(n) + "";
    RowIsRead(m, "");
    RowIsRead(n, "");
  }

  lemma RowSeparators(m: Model)
    ensures multiset(RowText(m))[NUL] == 3 + multiset(m.id)[NUL] + multiset(m.name)[NUL]
  {
    hide Decimal, BoolText, ContextText;
    var rest := BoolText(m.reasoning) + [NUL] + ContextText(m.context) + "\n";
    EndSeparators(m);
    assert RowText(m) == m.id + [NUL] + m.name + [NUL] + rest;
  }

  lemma EndSeparators(m: Model)
    ensures multiset(BoolText(m.reasoning) + [NUL] + ContextText(m.context) + "\n")[NUL] == 1
  {
    hide Decimal;
    assert NUL !in BoolText(m.reasoning) && NUL !in ContextText(m.context) && NUL !in "\n";
  }

  /** The row with the first of its names ending at an earlier or a later separator. */
  function Shifted(m: Model): Model
    requires !Separable(m)
  {
    if NUL in m.id then
      var i := IndexOf(m.id, NUL);
      m.(id := m.id[..i], name := m.id[i + 1..] + [NUL] + m.name)
    else
      var i := IndexOf(m.name, NUL);
      m.(id := m.id + [NUL] + m.name[..i], name := m.name[i + 1..])
  }

  function IndexOf(s: string, c: char): (i: nat)
    requires c in s
    ensures i < |s| && s[i] == c
  {
    if s[0] == c then 0 else 1 + IndexOf(s[1..], c)
  }

  lemma ShiftedCollides(m: Model)
    requires !Separable(m)
    ensures Shifted(m) != m && RowText(Shifted(m)) == RowText(m)
  {
    var n := Shifted(m);
    if NUL in m.id {
      var i := IndexOf(m.id, NUL);
      assert m.id == m.id[..i] + [NUL] + m.id[i + 1..];
    } else {
      var i := IndexOf(m.name, NUL);
      assert m.name == m.name[..i] + [NUL] + m.name[i + 1..];
    }
    assert m.id + [NUL] + m.name == n.id + [NUL] + n.name;
  }

  /** Exactly when a row's text stands for another row as well: its id or its name holds a separator. */
  lemma RowCollidesIff(m: Model)
    ensures (exists n :: n != m && RowText(n) == RowText(m)) <==> (NUL in m.id || NUL in m.name)
  {
    hide RowText;
    if Separable(m) {
      forall n | RowText(n) == RowText(m) ensures n == m {
        SeparableIsUnique(m, n);
      }
    } else {
      ShiftedCollides(m);
    }
  }

  /** One row whose id has swallowed all the rows before the last. */
  function Swallowed(rows: seq<Model>): Model
    requires rows != []
  {
    var last := rows[|rows| - 1];
    last.(id := RowsText(rows[..|rows| - 1]) + last.id)
  }

  lemma {:induction false} RowsTextAppend(rows: seq<Model>, m: Model)
    ensures RowsText(rows + [m]) == RowsText(rows) + RowText(m)
  {
    hide RowText;
    if rows == [] {
      assert [] + [m] == [m] && [m][1..] == [];
    } else {
      RowsTextAppend(rows[1..], m);
      assert (rows + [m])[1..] == rows[1..] + [m];
    }
  }

  lemma OneRow(m: Model)
    ensures Sort([m]) == [m] && RowsText([m]) == RowText(m) && StableText([m]) == RowText(m)
  {
    hide RowText;
    assert [m][1..] == [] && Sort([]) == [];
  }

  lemma SwallowedCollides(rows: seq<Model>)
    requires rows != []
    ensures RowText(Swallowed(rows)) == RowsText(rows)
  {
    hide RowText;
    var (most, last) := (rows[..|rows| - 1], rows[|rows| - 1]);
    RowsTextAppend(most, last);
    assert rows == most + [last];
    LongerId(RowsText(most), last);
  }

  lemma LongerId(x: string, m: Model)
    ensures RowText(m.(id := x + m.id)) == x + RowText(m)
  {
    hide Decimal, ContextText, BoolText;
    var rest := [NUL] + m.name + [NUL] + BoolText(m.reasoning) + [NUL] + ContextText(m.context) + "\n";
    assert RowText(m) == m.id + rest;
    assert RowText(m.(id := x + m.id)) == (x + m.id) + rest;
  }

  lemma SortKeepsLength(rows: seq<Model>)
    ensures |Sort(rows)| == |rows|
  {
    hide Sort;
    SortSorts(rows);
    assert |multiset(Sort(rows))| == |multiset(rows)|;
  }

  /**
   * Exactly when another catalog, any text allowed in its names, has the same text before hashing:
   * the catalog has several rows, or its only row holds a separator.
   */
  lemma CatalogCollidesIff(a: seq<Model>)
    ensures (exists b :: multiset(b) != multiset(a) && StableText(b) == StableText(a))
       <==> (|a| >= 2 || (|a| == 1 && !Separable(a[0])))
  {
    if |a| >= 2 {
      ManyCollide(a);
    } else if a == [] {
      forall b | StableText(b) == StableText(a) ensures b == a {
        NoRowsAlone(b);
      }
    } else {
      assert a == [a[0]];
      if Separable(a[0]) {
        forall b | StableText(b) == StableText([a[0]]) ensures b == a {
          SeparableAlone(a[0], b);
        }
      } else {
        OneCollides(a[0]);
      }
    }
  }

  lemma ManyCollide(a: seq<Model>)
    requires |a| >= 2
    ensures exists b :: multiset(b) != multiset(a) && StableText(b) == StableText(a)
  {
    hide RowText, Sort, RowsText;
    SortKeepsLength(a);
    var m := Swallowed(Sort(a));
    SwallowedCollides(Sort(a));
    OneRow(m);
    assert |multiset([m])| == 1 && |multiset(a)| == |a|;
  }

  lemma OneCollides(m: Model)
    requires !Separable(m)
    ensures exists b :: multiset(b) != multiset([m]) && StableText(b) == StableText([m])
  {
    hide RowText, Sort, RowsText, Shifted, StableText;
    ShiftedCollides(m);
    OneRow(m);
    OneRow(Shifted(m));
    assert m in multiset([m]) && m !in multiset([Shifted(m)]);
  }

  lemma NoRowsAlone(b: seq<Model>)
    requires StableText(b) == StableText([])
    ensures b == []
  {
    hide RowText;
    assert Sort([]) == [] && RowsText([]) == "";
    SortKeepsLength(b);
    if b != [] {
      RowIsNotEmpty(Sort(b)[0], RowsText(Sort(b)[1..]));
    }
  }

  lemma SeparableAlone(m: Model, b: seq<Model>)
    requires Separable(m) && StableText(b) == StableText([m])
    ensures b == [m]
  {
    hide RowText, RowsText, Sort, Separable;
    OneRow(m);
    SortKeepsLength(b);
    var rows := Sort(b);
    RowIsNotEmpty(m, "");
    assert RowText(m) + "" == RowText(m);
    if rows == [] {
      assert RowsText([]) == "" by {
        NothingText();
      }
    } else {
      SwallowedCollides(rows);
      SeparableIsUnique(m, Swallowed(rows));
      NothingSwallowed(m, rows);
      assert b == [b[0]];
      OneRow(b[0]);
    }
  }

  lemma NothingText()
    ensures RowsText([]) == ""
  {
  }

  lemma SeparatorInText(rows: seq<Model>)
    requires rows != []
    ensures NUL in RowsText(rows)
  {
    hide RowText;
    RowSeparators(rows[0]);
    assert NUL in multiset(RowText(rows[0]));
    assert NUL in RowText(rows[0]);
  }

  lemma NothingSwallowed(m: Model, rows: seq<Model>)
    requires Separable(m) && rows != [] && Swallowed(rows) == m
    ensures rows == [m]
  {
    hide RowText;
    var (most, last) := (rows[..|rows| - 1], rows[|rows| - 1]);
    assert rows == most + [last];
    assert most != [] ==> NUL in m.id by {
      if most != [] {
        SeparatorInText(most);
      }
    }
    assert RowsText([]) + last.id == last.id by {
      NothingText();
    }
  }

  /** With a NUL inside a name, two different catalogs of one row have the same text. */
  lemma SeparatorsCollide()
    ensures StableText([Model([NUL], "", true, None)]) == StableText([Model("", [NUL], true, None)])
  {
    var a, b := Model([NUL], "", true, None), Model("", [NUL], true, None);
    OneRow(a);
    OneRow(b);
    assert RowText(a) == RowText(b);
  }

  /** The digest's loop: sort, then push one row after the other. */
  method DigestText(models: seq<Model>) returns (stable: string)
    ensures stable == StableText(models)
  {
    hide Sort, RowText;
    var rows := Sort(models);
    var n := 0;
    stable := "";
    while n < |rows|
      invariant n <= |rows|
      invariant stable + RowsText(rows[n..]) == RowsText(rows)
    {
      assert rows[n..][1..] == rows[n + 1..];
      ghost var was := stable;
      stable := stable + RowText(rows[n]);
      assert was + (RowText(rows[n]) + RowsText(rows[n + 1..])) == stable + RowsText(rows[n + 1..]);
      n := n + 1;
    }
    assert rows[n..] == [] && stable + "" == stable;
  }
}
