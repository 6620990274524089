/**
 * The in-memory record table the transform stage works on, and the table
 * operations it calls: deduplicate by a key column keeping the first row,
 * drop columns, write a column, rename a column, substitute cell values
 * table-wide, and tag a column's type.
 */
module Frames {
  import opened Wrappers
  import opened Helper

  /** One cell: text, a whole number, a date, or the missing marker. */
  datatype Cell = Text(s: string) | Number(n: int) | When(date: Date) | Missing

  /** A column's type tag: as read on extraction, coerced to text, or coerced to a category. */
  datatype Kind = Inferred | Textual | Categorical

  /** One record: column name to cell. */
  type Row = map<string, Cell>

  /** Ordered column names, the records in order, and a type tag per column. */
  datatype Table = Table(columns: seq<string>, rows: seq<Row>, kinds: map<string, Kind>)

  predicate Distinct(s: seq<string>) {
    forall i, j :: 0 <= i < j < |s| ==> s[i] != s[j]
  }

  function ColumnSet(t: Table): set<string> {
    set c | c in t.columns
  }

  /** Column names are distinct, and every row and the tag map have exactly those names. */
  predicate WellFormed(t: Table) {
    && Distinct(t.columns)
    && t.kinds.Keys == ColumnSet(t)
    && forall i :: 0 <= i < |t.rows| ==> t.rows[i].Keys == ColumnSet(t)
  }

  /** The cells of one column, top to bottom. */
  function Column(t: Table, name: string): (col: seq<Cell>)
    requires WellFormed(t) && name in t.columns
    ensures |col| == |t.rows|
    ensures forall i :: 0 <= i < |col| ==> col[i] == t.rows[i][name]
  {
    seq(|t.rows|, i requires 0 <= i < |t.rows| => t.rows[i][name])
  }

  // ---------------------------------------------------------------------------
  // Deduplication by a key column, first occurrence wins.
  // ---------------------------------------------------------------------------

  predicate HasKey(rows: seq<Row>, key: string) {
    forall i :: 0 <= i < |rows| ==> key in rows[i]
  }

  /** The set of key values that occur in `rows`. */
  function Keys(rows: seq<Row>, key: string): set<Cell>
    requires HasKey(rows, key)
    decreases |rows|
  {
    if rows == [] then {}
    else Keys(rows[..|rows| - 1], key) + {rows[|rows| - 1][key]}
  }

  /**
   * The rows whose key value has not occurred in any earlier row, in their
   * original order. Defined on prefixes, one row at a time.
   */
  function KeepFirst(rows: seq<Row>, key: string): (kept: seq<Row>)
    requires HasKey(rows, key)
    ensures |kept| <= |rows|
    ensures forall k :: 0 <= k < |kept| ==> kept[k] in rows
    ensures HasKey(kept, key)
    decreases |rows|
  {
    if rows == [] then []
    else
      var init := rows[..|rows| - 1];
      var last := rows[|rows| - 1];
      KeepFirst(init, key) + (if last[key] in Keys(init, key) then [] else [last])
  }

  /** Every key value of a row is among the keys of the sequence. */
  lemma {:induction false} InKeys(rows: seq<Row>, key: string)
    requires HasKey(rows, key)
    ensures forall i :: 0 <= i < |rows| ==> rows[i][key] in Keys(rows, key)
    decreases |rows|
  {
    if rows != [] {
      var init := rows[..|rows| - 1];
      InKeys(init, key);
      assert forall i :: 0 <= i < |init| ==> init[i] == rows[i];
    }
  }

  /** The position of the first row whose key value is `c`. */
  function FirstIndex(rows: seq<Row>, key: string, c: Cell): (idx: nat)
    requires HasKey(rows, key) && c in Keys(rows, key)
    ensures idx < |rows| && rows[idx][key] == c
    ensures forall j :: 0 <= j < idx ==> rows[j][key] != c
    decreases |rows|
  {
    var init := rows[..|rows| - 1];
    if c in Keys(init, key) then FirstIndex(init, key, c)
    else InKeys(init, key); |rows| - 1
  }

  /** Appending one row adds its key value to the key set. */
  lemma KeysSnoc(rows: seq<Row>, r: Row, key: string)
    requires HasKey(rows, key) && key in r
    ensures HasKey(rows + [r], key)
    ensures Keys(rows + [r], key) == Keys(rows, key) + {r[key]}
  {
    assert (rows + [r])[..|rows|] == rows;
  }

  /** Deduplication loses no key value. */
  lemma {:induction false} KeepFirstKeys(rows: seq<Row>, key: string)
    requires HasKey(rows, key)
    ensures Keys(KeepFirst(rows, key), key) == Keys(rows, key)
    decreases |rows|
  {
    if rows != [] {
      var init := rows[..|rows| - 1];
      var last := rows[|rows| - 1];
      KeepFirstKeys(init, key);
      if last[key] !in Keys(init, key) {
        KeysSnoc(KeepFirst(init, key), last, key);
      } else {
        assert KeepFirst(rows, key) == KeepFirst(init, key);
      }
    }
  }

  /** No two kept rows share a key value. */
  lemma {:induction false} KeepFirstUnique(rows: seq<Row>, key: string)
    requires HasKey(rows, key)
    ensures var kept := KeepFirst(rows, key);
      forall a, b :: 0 <= a < b < |kept| ==> kept[a][key] != kept[b][key]
    decreases |rows|
  {
    if rows != [] {
      var init := rows[..|rows| - 1];
      var last := rows[|rows| - 1];
      var prev := KeepFirst(init, key);
      KeepFirstUnique(init, key);
      KeepFirstKeys(init, key);
      InKeys(prev, key);
      if last[key] !in Keys(init, key) {
        var kept := prev + [last];
        assert KeepFirst(rows, key) == kept;
        forall a, b | 0 <= a < b < |kept| ensures kept[a][key] != kept[b][key] {
          if b == |prev| {
            assert kept[a][key] == prev[a][key] && prev[a][key] in Keys(init, key);
          }
        }
      } else {
        assert KeepFirst(rows, key) == prev;
      }
    }
  }

  /** One row per distinct key value. */
  lemma {:induction false} KeepFirstCount(rows: seq<Row>, key: string)
    requires HasKey(rows, key)
    ensures |KeepFirst(rows, key)| == |Keys(rows, key)|
    decreases |rows|
  {
    if rows != [] {
      var init := rows[..|rows| - 1];
      var last := rows[|rows| - 1];
      KeepFirstCount(init, key);
      if last[key] !in Keys(init, key) {
        assert |Keys(init, key) + {last[key]}| == |Keys(init, key)| + 1;
      } else {
        assert Keys(init, key) + {last[key]} == Keys(init, key);
      }
    }
  }

  /** Every kept row is the first row of the input with its key value. */
  lemma {:induction false} KeepFirstIsFirst(rows: seq<Row>, key: string)
    requires HasKey(rows, key)
    ensures var kept := KeepFirst(rows, key);
      forall k :: 0 <= k < |kept| ==>
        kept[k][key] in Keys(rows, key) && kept[k] == rows[FirstIndex(rows, key, kept[k][key])]
    decreases |rows|
  {
    var kept := KeepFirst(rows, key);
    KeepFirstKeys(rows, key);
    InKeys(kept, key);
    if rows != [] {
      var init := rows[..|rows| - 1];
      var last := rows[|rows| - 1];
      var prev := KeepFirst(init, key);
      KeepFirstIsFirst(init, key);
      KeepFirstKeys(init, key);
      InKeys(prev, key);
      assert kept == prev + (if last[key] in Keys(init, key) then [] else [last]);
      forall k | 0 <= k < |kept|
        ensures kept[k] == rows[FirstIndex(rows, key, kept[k][key])]
      {
        if k < |prev| {
          assert kept[k] == prev[k] && prev[k][key] in Keys(init, key);
          assert FirstIndex(rows, key, kept[k][key]) == FirstIndex(init, key, prev[k][key]);
        } else {
          assert kept[k] == last && last[key] !in Keys(init, key);
        }
      }
    }
  }

  /** `a` is `b` with some elements left out, order kept. */
  predicate IsSubsequence(a: seq<Row>, b: seq<Row>)
    decreases |b|
  {
    if a == [] then true
    else if b == [] then false
    else
      || (a[|a| - 1] == b[|b| - 1] && IsSubsequence(a[..|a| - 1], b[..|b| - 1]))
      || IsSubsequence(a, b[..|b| - 1])
  }

  lemma SubsequenceSnoc(a: seq<Row>, b: seq<Row>, x: Row)
    requires IsSubsequence(a, b)
    ensures IsSubsequence(a + [x], b + [x])
  {
    assert (a + [x])[..|a|] == a && (b + [x])[..|b|] == b;
  }

  lemma SubsequenceExtend(a: seq<Row>, b: seq<Row>, x: Row)
    requires IsSubsequence(a, b)
    ensures IsSubsequence(a, b + [x])
  {
    assert (b + [x])[..|b|] == b;
  }

  /** Deduplication keeps the relative order of the rows it keeps. */
  lemma {:induction false} KeepFirstOrdered(rows: seq<Row>, key: string)
    requires HasKey(rows, key)
    ensures IsSubsequence(KeepFirst(rows, key), rows)
    decreases |rows|
  {
    if rows != [] {
      var init := rows[..|rows| - 1];
      var last := rows[|rows| - 1];
      var prev := KeepFirst(init, key);
      KeepFirstOrdered(init, key);
      assert rows == init + [last];
      if last[key] !in Keys(init, key) {
        assert KeepFirst(rows, key) == prev + [last];
        SubsequenceSnoc(prev, init, last);
      } else {
        assert KeepFirst(rows, key) == prev;
        SubsequenceExtend(prev, init, last);
      }
    }
  }

  /** `drop_duplicates` on a key column: absent when the column is missing. */
  function Deduplicated(t: Table, key: string): (r: Option<Table>)
    requires WellFormed(t)
    ensures r.Some? <==> key in t.columns
    ensures r.Some? ==> WellFormed(r.value) && r.value.columns == t.columns && r.value.kinds == t.kinds
    ensures r.Some? ==> HasKey(t.rows, key) && r.value.rows == KeepFirst(t.rows, key)
  {
    if key in t.columns then Some(t.(rows := KeepFirst(t.rows, key))) else None
  }

  // ---------------------------------------------------------------------------
  // Dropping columns.
  // ---------------------------------------------------------------------------

  /** `cols` without the names in `gone`, order kept. */
  function Without(cols: seq<string>, gone: set<string>): (r: seq<string>)
    ensures forall c :: c in r <==> c in cols && c !in gone
    ensures Distinct(cols) ==> Distinct(r)
  {
    if cols == [] then []
    else
      var rest := Without(cols[1..], gone);
      assert Distinct(cols) ==> cols[0] !in cols[1..];
      (if cols[0] in gone then [] else [cols[0]]) + rest
  }

  /** `drop(columns=names)`: absent unless every name is a column. */
  function Dropped(t: Table, names: seq<string>): (r: Option<Table>)
    requires WellFormed(t)
    ensures r.Some? <==> forall c :: c in names ==> c in t.columns
    ensures r.Some? ==> WellFormed(r.value)
    ensures r.Some? ==> ColumnSet(r.value) == ColumnSet(t) - set c | c in names
    ensures r.Some? ==> |r.value.rows| == |t.rows|
    ensures r.Some? ==> forall i :: 0 <= i < |t.rows| ==> r.value.rows[i] == t.rows[i] - set c | c in names
    ensures r.Some? ==> r.value.kinds == t.kinds - set c | c in names
  {
    if forall c :: c in names ==> c in t.columns then
      var gone := set c | c in names;
      var r := Table(Without(t.columns, gone),
                     seq(|t.rows|, i requires 0 <= i < |t.rows| => t.rows[i] - gone),
                     t.kinds - gone);
      assert ColumnSet(r) == ColumnSet(t) - gone;
      Some(r)
    else None
  }

  // ---------------------------------------------------------------------------
  // Writing a whole column.
  // ---------------------------------------------------------------------------

  /**
   * `df[name] = values`: overwrites the column in place when it exists,
   * appends it as the last column otherwise; its tag becomes the inferred one.
   */
  function WithColumn(t: Table, name: string, values: seq<Cell>): (r: Table)
    requires WellFormed(t) && |values| == |t.rows|
    ensures WellFormed(r)
    ensures ColumnSet(r) == ColumnSet(t) + {name}
    ensures r.columns == if name in t.columns then t.columns else t.columns + [name]
    ensures |r.rows| == |t.rows|
    ensures forall i :: 0 <= i < |r.rows| ==> r.rows[i] == t.rows[i][name := values[i]]
    ensures r.kinds == t.kinds[name := Inferred]
  {
    var r := Table(if name in t.columns then t.columns else t.columns + [name],
                   seq(|t.rows|, i requires 0 <= i < |t.rows| => t.rows[i][name := values[i]]),
                   t.kinds[name := Inferred]);
    assert ColumnSet(r) == ColumnSet(t) + {name};
    r
  }

  // ---------------------------------------------------------------------------
  // Renaming a column.
  // ---------------------------------------------------------------------------

  function RenameKey<V>(m: map<string, V>, from: string, to: string): (r: map<string, V>)
    requires from in m
    ensures r.Keys == m.Keys - {from} + {to}
    ensures r[to] == m[from]
    ensures forall c :: c in m && c != from && c != to ==> r[c] == m[c]
  {
    (m - {from})[to := m[from]]
  }

  function RenameIn(cols: seq<string>, from: string, to: string): (r: seq<string>)
    ensures |r| == |cols|
    ensures forall i :: 0 <= i < |r| ==> r[i] == if cols[i] == from then to else cols[i]
  {
    seq(|cols|, i requires 0 <= i < |cols| => if cols[i] == from then to else cols[i])
  }

  /** Renaming one of distinct names to a fresh name keeps them distinct and swaps the name in the set. */
  lemma RenameInColumns(cols: seq<string>, from: string, to: string)
    requires Distinct(cols) && from in cols && to !in cols
    ensures Distinct(RenameIn(cols, from, to))
    ensures (set c | c in RenameIn(cols, from, to)) == (set c | c in cols) - {from} + {to}
  {
    var r := RenameIn(cols, from, to);
    forall c | c in (set c | c in cols) - {from} + {to} ensures c in r {
      var k :| 0 <= k < |cols| && cols[k] == (if c == to then from else c);
      assert r[k] == c;
    }
  }

  /**
   * `rename(columns={from: to})`: a missing `from` is ignored. The model's
   * tables have distinct column names, so the case where `to` is already
   * another column is excluded here and handled by the caller.
   */
  function Renamed(t: Table, from: string, to: string): (r: Table)
    requires WellFormed(t)
    requires from in t.columns && to in t.columns ==> from == to
    ensures WellFormed(r)
    ensures ColumnSet(r) == if from in t.columns then ColumnSet(t) - {from} + {to} else ColumnSet(t)
    ensures |r.rows| == |t.rows|
    ensures from in t.columns ==> forall i :: 0 <= i < |r.rows| ==> r.rows[i][to] == t.rows[i][from]
    ensures from in t.columns && from != to ==> forall i :: 0 <= i < |r.rows| ==> r.rows[i] == RenameKey(t.rows[i], from, to)
    ensures from !in t.columns || from == to ==> r.rows == t.rows
    ensures r.kinds == if from in t.columns && from != to then RenameKey(t.kinds, from, to) else t.kinds
  {
    if from !in t.columns || from == to then t
    else
      RenameInColumns(t.columns, from, to);
      Table(RenameIn(t.columns, from, to),
            seq(|t.rows|, i requires 0 <= i < |t.rows| => RenameKey(t.rows[i], from, to)),
            RenameKey(t.kinds, from, to))
  }

  // ---------------------------------------------------------------------------
  // Table-wide value substitution.
  // ---------------------------------------------------------------------------

  /** A text cell equal to a key of `repl` becomes its replacement; any other cell is kept. */
  function ReplaceCell(c: Cell, repl: map<string, string>): Cell {
    if c.Text? && c.s in repl then Text(repl[c.s]) else c
  }

  function ReplaceRow(r: Row, repl: map<string, string>): (o: Row)
    ensures o.Keys == r.Keys
    ensures forall c :: c in r ==> o[c] == ReplaceCell(r[c], repl)
  {
    map c | c in r :: ReplaceCell(r[c], repl)
  }

  /** `replace(repl)` over every cell of every column. */
  function Replaced(t: Table, repl: map<string, string>): (r: Table)
    requires WellFormed(t)
    ensures WellFormed(r)
    ensures r.columns == t.columns && r.kinds == t.kinds && |r.rows| == |t.rows|
    ensures forall i :: 0 <= i < |r.rows| ==> r.rows[i] == ReplaceRow(t.rows[i], repl)
  {
    t.(rows := seq(|t.rows|, i requires 0 <= i < |t.rows| => ReplaceRow(t.rows[i], repl)))
  }

  /** No replacement value is itself a key. */
  predicate NoChains(repl: map<string, string>) {
    forall k :: k in repl ==> repl[k] !in repl
  }

  /** A text cell whose text is a key of `repl`. */
  predicate Substitutable(c: Cell, repl: map<string, string>) {
    c.Text? && c.s in repl
  }

  /** A cell changes exactly when it is substitutable. */
  lemma ReplaceCellChanges(c: Cell, repl: map<string, string>)
    requires NoChains(repl)
    ensures ReplaceCell(c, repl) != c <==> Substitutable(c, repl)
    ensures ReplaceCell(ReplaceCell(c, repl), repl) == ReplaceCell(c, repl)
  {
  }

  /** Substituting twice is substituting once. */
  lemma ReplaceIdempotent(t: Table, repl: map<string, string>)
    requires WellFormed(t) && NoChains(repl)
    ensures Replaced(Replaced(t, repl), repl) == Replaced(t, repl)
  {
    var once := Replaced(t, repl);
    var twice := Replaced(once, repl);
    forall i | 0 <= i < |twice.rows| ensures twice.rows[i] == once.rows[i] {
      forall c | c in once.rows[i] ensures twice.rows[i][c] == once.rows[i][c] {
        ReplaceCellChanges(t.rows[i][c], repl);
      }
    }
  }

  /** A table with no substitutable cell is left as it is. */
  lemma ReplacedUnchanged(t: Table, repl: map<string, string>)
    requires WellFormed(t)
    requires forall k :: 0 <= k < |t.rows| ==> forall c :: c in t.rows[k] ==> !Substitutable(t.rows[k][c], repl)
    ensures Replaced(t, repl) == t
  {
    var r := Replaced(t, repl);
    forall k | 0 <= k < |t.rows| ensures r.rows[k] == t.rows[k] {
      assert forall c :: c in t.rows[k] ==> ReplaceCell(t.rows[k][c], repl) == t.rows[k][c];
    }
  }

  // ---------------------------------------------------------------------------
  // Type tags.
  // ---------------------------------------------------------------------------

  /** `df[name] = df[name].astype(...)`: absent when the column is missing; cells are kept. */
  function Retyped(t: Table, name: string, kind: Kind): (r: Option<Table>)
    requires WellFormed(t)
    ensures r.Some? <==> name in t.columns
    ensures r.Some? ==> WellFormed(r.value) && r.value == t.(kinds := t.kinds[name := kind])
  {
    if name in t.columns then Some(t.(kinds := t.kinds[name := kind])) else None
  }

  // ---------------------------------------------------------------------------
  // Month names, as `Series.dt.month_name()` gives them in the default locale.
  // ---------------------------------------------------------------------------

  const MonthNames: seq<string> := ["January", "February", "March", "April", "May", "June",
    "July", "August", "September", "October", "November", "December"]

  function MonthName(m: Month): (name: string)
    ensures name in MonthNames
  {
    MonthNames[m - 1]
  }

  function IndexOf(s: seq<string>, x: string): (i: nat)
    requires x in s
    ensures i < |s| && s[i] == x
    ensures forall j :: 0 <= j < i ==> s[j] != x
  {
    if s[0] == x then 0 else 1 + IndexOf(s[1..], x)
  }

  /** The inverse of MonthName. */
  function MonthNumber(name: string): (m: Option<Month>)
    ensures m.Some? <==> name in MonthNames
    ensures m.Some? ==> MonthName(m.value) == name
  {
    if name in MonthNames then Some(IndexOf(MonthNames, name) + 1) else None
  }

  /** Twelve different names, so a month is recovered from its name. */
  lemma MonthNameRoundTrip(m: Month)
    ensures MonthNumber(MonthName(m)) == Some(m)
  {
    assert Distinct(MonthNames);
  }

  // ---------------------------------------------------------------------------
  // The mutable table.
  // ---------------------------------------------------------------------------

  /** A table whose steps reassign its columns, rows and tags in place. */
  class DataFrame {
    var columns: seq<string>
    var rows: seq<Row>
    var kinds: map<string, Kind>

    function Value(): Table
      reads this
    {
      Table(columns, rows, kinds)
    }

    predicate Valid()
      reads this
    {
      WellFormed(Value())
    }

    constructor (t: Table)
      requires WellFormed(t)
      ensures Valid() && Value() == t
    {
      columns, rows, kinds := t.columns, t.rows, t.kinds;
    }

    method Copy() returns (c: DataFrame)
      requires Valid()
      ensures fresh(c) && c.Valid() && c.Value() == Value()
    {
      c := new DataFrame(Value());
    }

    /** `df[name]`: the column's cells, absent when there is no such column. */
    method Select(name: string) returns (col: Option<seq<Cell>>)
      requires Valid()
      ensures col.Some? <==> name in columns
      ensures col.Some? ==> col.value == Column(Value(), name)
    {
      if name in columns {
        col := Some(Column(Value(), name));
      } else {
        col := None;
      }
    }

    /** `drop_duplicates(key, keep="first")`, on a set of key values already seen. */
    method DropDuplicates(key: string) returns (ok: bool)
      requires Valid()
      modifies this
      ensures Valid()
      ensures ok <==> key in old(columns)
      ensures ok ==> Value() == Deduplicated(old(Value()), key).value
      ensures !ok ==> Value() == old(Value())
    {
      if key !in columns {
        return false;
      }
      assert HasKey(rows, key);
      var seen: set<Cell> := {};
      var kept: seq<Row> := [];
      var i := 0;
      while i < |rows|
        invariant 0 <= i <= |rows|
        invariant HasKey(rows[..i], key)
        invariant seen == Keys(rows[..i], key)
        invariant kept == KeepFirst(rows[..i], key)
      {
        var row := rows[i];
        assert rows[..i + 1][..i] == rows[..i];
        if row[key] !in seen {
          kept := kept + [row];
          seen := seen + {row[key]};
        }
        i := i + 1;
      }
      assert rows[..i] == rows;
      rows := kept;
      ok := true;
    }

    /** `drop(columns=names)`. */
    method Drop(names: seq<string>) returns (ok: bool)
      requires Valid()
      modifies this
      ensures Valid()
      ensures ok <==> forall c :: c in names ==> c in old(columns)
      ensures Value() == if ok then Dropped(old(Value()), names).value else old(Value())
    {
      var r := Dropped(Value(), names);
      ok := r.Some?;
      if ok {
        columns, rows, kinds := r.value.columns, r.value.rows, r.value.kinds;
      }
    }

    /** `df[name] = values`. */
    method Assign(name: string, values: seq<Cell>)
      requires Valid() && |values| == |rows|
      modifies this
      ensures Valid()
      ensures Value() == WithColumn(old(Value()), name, values)
    {
      var r := WithColumn(Value(), name, values);
      columns, rows, kinds := r.columns, r.rows, r.kinds;
    }

    /** `rename(columns={from: to})`, for a `to` that is not another column. */
    method Rename(from: string, to: string)
      requires Valid()
      requires from in columns && to in columns ==> from == to
      modifies this
      ensures Valid()
      ensures Value() == Renamed(old(Value()), from, to)
    {
      var r := Renamed(Value(), from, to);
      columns, rows, kinds := r.columns, r.rows, r.kinds;
    }

    /** `replace(repl)`. */
    method Replace(repl: map<string, string>)
      requires Valid()
      modifies this
      ensures Valid()
      ensures Value() == Replaced(old(Value()), repl)
    {
      rows := Replaced(Value(), repl).rows;
    }

    /** `df[name] = df[name].astype(kind)`. */
    method AsType(name: string, kind: Kind) returns (ok: bool)
      requires Valid()
      modifies this
      ensures Valid()
      ensures ok <==> name in old(columns)
      ensures Value() == if ok then Retyped(old(Value()), name, kind).value else old(Value())
    {
      ok := name in columns;
      if ok {
        kinds := kinds[name := kind];
      }
    }
  }
}
