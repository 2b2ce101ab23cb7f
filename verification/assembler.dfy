/** `ResultTable`: turns the result sets of a query with sub-queries back into
    a tree of rows. The first result set holds the rows of the top builder.
    Every sub-query reads a later result set and attaches to each parent row,
    under a field named after the sub-query, the rows whose sort columns hold
    the parent's primary-key values; the attached rows get their own
    sub-queries the same way.

    The result sets come from outside (the database run of the compiled
    statement); `DataView` sorting and searching is modelled by `FindRows`. */
module Assembler {
  import opened Outcomes
  import opened Collections
  import opened Text
  import opened Values
  import opened QueryModel
  import Statements
  import Metadata
  import Rows

  /** One result set of the `DataSet`: its column names and its rows, one
      value per column (`NullValue` for a database null). */
  datatype DataTable = DataTable(columns: seq<string>, rows: seq<seq<Value>>)

  /** How a level numbers the result sets of its sub-queries. */
  datatype Numbering =
    | SiblingOrder  // the k-th sub-query of the level reading set c reads set c + 1 + k
    | TreeOrder     // the k-th sub-query reads the first set after the subtrees of the earlier ones

  /** What every level shares: `WithMetadata`, `useHiearchyField` (`""` for
      none) and the numbering of the result sets. */
  datatype Settings = Settings(withMetadata: bool, hierarchy: string, numbering: Numbering)

  // ---------------------------------------------------------------------------
  // Rows of a result table

  /** The value in column `i` of a data row; a short row reads null. */
  function CellAt(row: seq<Value>, i: nat): Value {
    if i < |row| then row[i] else NullValue
  }

  /** The key a column's value is stored under: spaces become underscores. */
  function ColumnKey(name: string): (r: string)
    ensures |r| == |name|
    ensures ' ' !in r
    ensures ' ' !in name ==> r == name
  {
    seq(|name|, i requires 0 <= i < |name| => if name[i] == ' ' then '_' else name[i])
  }

  /** The values of a data row keyed by `ColumnKey`, every column once. */
  function RowValues(columns: seq<string>, row: seq<Value>): (r: map<string, Value>)
    ensures r.Keys == set i | 0 <= i < |columns| :: ColumnKey(columns[i])
    decreases |columns|
  {
    if |columns| == 0 then map[]
    else
      var rest := RowValues(columns[1..], if |row| > 0 then row[1..] else []);
      assert forall i :: 1 <= i < |columns| ==> columns[i] == columns[1..][i - 1];
      rest[ColumnKey(columns[0]) := CellAt(row, 0)]
  }

  /** When two columns map to the same key, `TryAdd` keeps the first one's
      value: every column whose key no earlier column has reads back its own
      value. */
  lemma {:induction false} FirstColumnWins(columns: seq<string>, row: seq<Value>, i: nat)
    requires i < |columns|
    requires forall j :: 0 <= j < i ==> ColumnKey(columns[j]) != ColumnKey(columns[i])
    ensures ColumnKey(columns[i]) in RowValues(columns, row)
    ensures RowValues(columns, row)[ColumnKey(columns[i])] == CellAt(row, i)
  {
    if i > 0 {
      var tail := if |row| > 0 then row[1..] else [];
      assert columns[1..][i - 1] == columns[i];
      forall j | 0 <= j < i - 1
        ensures ColumnKey(columns[1..][j]) != ColumnKey(columns[1..][i - 1])
      {
        assert columns[1..][j] == columns[j + 1];
      }
      FirstColumnWins(columns[1..], tail, i - 1);
      assert ColumnKey(columns[0]) != ColumnKey(columns[i]);
      assert CellAt(tail, i - 1) == CellAt(row, i);
    }
  }

  /** `RowData(ResultTable, DataRow, DataColumnCollection)`: the data row's
      values and column names, no pending change, and when the table has
      metadata its name and (if asked) its primary key. */
  ghost function NewRow(dt: DataTable, row: seq<Value>, mt: Option<Metadata.MetadataTable>, withMetadata: bool): (r: RowData)
    ensures r.columns == dt.columns && r.changes == map[] && r.values == RowValues(dt.columns, row)
    ensures Rows.Tracked(r) && !Rows.HasChanges(r)
    ensures mt.None? ==> r.table.None? && r.pkCache.None?
    ensures mt.Some? ==> r.table == Some(Metadata.Fullname(mt.value))
  {
    var plain := RowData(RowValues(dt.columns, row), map[], dt.columns, None, None);
    match mt
    case None => plain
    case Some(t) => Rows.LoadMetadata(plain, t, withMetadata)
  }

  /** `ResultTable.Initialize`: one row per data row, in order. */
  ghost function RowsOf(rows: seq<seq<Value>>, dt: DataTable, mt: Option<Metadata.MetadataTable>, withMetadata: bool): (r: seq<RowData>)
    ensures |r| == |rows|
    ensures forall i :: 0 <= i < |r| ==> r[i] == NewRow(dt, rows[i], mt, withMetadata)
  {
    seq(|rows|, i requires 0 <= i < |rows| => NewRow(dt, rows[i], mt, withMetadata))
  }

  // ---------------------------------------------------------------------------
  // Searching a result set (`DataView.Sort` and `DataView.FindRows`)

  /** The position of the named column in a result set. */
  function ColumnIndex(columns: seq<string>, name: string): (r: Option<nat>)
    ensures r.None? <==> name !in columns
    ensures r.Some? ==> r.value < |columns| && columns[r.value] == name && name !in columns[..r.value]
  {
    if |columns| == 0 then None
    else if columns[0] == name then Some(0)
    else match ColumnIndex(columns[1..], name)
      case None => None
      case Some(i) => assert columns[1..][..i] == columns[1..i + 1]; Some(i + 1)
  }

  /** The value a data row holds in the named column. */
  function CellOf(dt: DataTable, row: seq<Value>, name: string): Value {
    match ColumnIndex(dt.columns, name)
    case None => NullValue
    case Some(i) => CellAt(row, i)
  }

  /** The data row holds the key: one value per sort column, column by column. */
  predicate KeyMatches(dt: DataTable, sort: seq<string>, key: seq<Value>, row: seq<Value>) {
    |sort| == |key| && forall i :: 0 <= i < |sort| ==> CellOf(dt, row, sort[i]) == key[i]
  }

  /** The rows holding the key, in table order: each matching row as often as
      it occurs, and no other row. */
  function Matching(dt: DataTable, sort: seq<string>, key: seq<Value>, rows: seq<seq<Value>>): (r: seq<seq<Value>>)
    ensures |r| <= |rows|
    ensures forall x :: multiset(r)[x] == if KeyMatches(dt, sort, key, x) then multiset(rows)[x] else 0
  {
    if |rows| == 0 then []
    else
      var rest := Matching(dt, sort, key, rows[1..]);
      assert rows == [rows[0]] + rows[1..];
      if KeyMatches(dt, sort, key, rows[0]) then [rows[0]] + rest else rest
  }

  /** `dv.Sort = sort; dv.FindRows(key)`. Sorting on a column the result set
      does not have fails; so does a key that does not give one value per
      sort column, an empty key included (with no sort order there is nothing
      to search by). Rows with the same key keep their table order, so the
      rows found come in ascending sort order. */
  function FindRows(dt: DataTable, sort: seq<string>, key: seq<Value>): (r: Result<seq<seq<Value>>>)
    ensures !(forall c :: c in sort ==> c in dt.columns) ==> r == Err(IndexOutOfRange)
    ensures (forall c :: c in sort ==> c in dt.columns) ==>
      (r.Err? <==> |key| == 0 || |key| != |sort|) && (r.Err? ==> r.error == ArgumentError)
    ensures r.Ok? ==>
      forall x :: multiset(r.value)[x] == if KeyMatches(dt, sort, key, x) then multiset(dt.rows)[x] else 0
  {
    if !(forall c :: c in sort ==> c in dt.columns) then Err(IndexOutOfRange)
    else if |key| == 0 || |key| != |sort| then Err(ArgumentError)
    else Ok(Matching(dt, sort, key, dt.rows))
  }

  /** A data row holds one key only: no row is found under two different
      keys, so parents with different keys never share a child row. */
  lemma OneKeyPerRow(dt: DataTable, sort: seq<string>, key1: seq<Value>, key2: seq<Value>, x: seq<Value>)
    requires KeyMatches(dt, sort, key1, x) && KeyMatches(dt, sort, key2, x)
    ensures key1 == key2
  {
    assert forall i :: 0 <= i < |key1| ==> key1[i] == key2[i];
  }

  // ---------------------------------------------------------------------------
  // Metadata and keys of a level

  /** `GetMetadataTable(builder.Metadata, BaseTable().FullName)`: the
      catalogue's table for the builder's first table; nothing without a base
      table, a catalogue or a name. */
  function LevelMetadata(a: Arena, mdb: Option<Metadata.MetadataDatabase>, b: BuilderId): (r: Option<Metadata.MetadataTable>)
    requires Valid(a) && b < |a.builders|
    ensures Statements.BaseTable(a, b).None? || mdb.None? ==> r.None?
    ensures r.Some? ==>
      var t := Statements.BaseTable(a, b).value;
      FullName(a.tables[t]) != "" && r == Metadata.FindTable(mdb.value, FullName(a.tables[t]), true)
  {
    match Statements.BaseTable(a, b)
    case None => None
    case Some(t) =>
      var name := FullName(a.tables[t]);
      if mdb.Some? && name != "" then Metadata.FindTable(mdb.value, name, true) else None
  }

  /** `Metadata.PrimaryKey.Columns`: null metadata or a table without a
      primary key fails. */
  ghost function KeyColumns(mt: Option<Metadata.MetadataTable>): (r: Result<seq<Metadata.MetadataColumn>>)
    ensures r.Err? <==> mt.None? || Metadata.PrimaryKey(mt.value).None?
    ensures r.Err? ==> r.error == NullReference
    ensures r.Ok? ==> Metadata.PrimaryKey(mt.value) == Some(Metadata.Key(
      Metadata.PrimaryKey(mt.value).value.name, r.value,
      Metadata.PrimaryKey(mt.value).value.isUnique, true))
  {
    match mt
    case None => Err(NullReference)
    case Some(t) =>
      match Metadata.PrimaryKey(t)
      case None => Err(NullReference)
      case Some(k) => Ok(k.columns)
  }

  /** `_pk`: the row's value of every key column, in key order; a row
      without one of them fails as `Column(name)` does. */
  function KeyOf(row: RowData, cols: seq<Metadata.MetadataColumn>): (r: Result<seq<Value>>)
    ensures r.Err? <==> exists i :: 0 <= i < |cols| && Rows.Get(row, cols[i].name).None?
    ensures r.Err? ==> r.error == ArgumentError
    ensures r.Ok? ==> |r.value| == |cols| && forall i :: 0 <= i < |cols| ==> Rows.Get(row, cols[i].name) == Some(r.value[i])
  {
    if |cols| == 0 then Ok([])
    else
      var v :- Rows.Column(row, cols[0].name);
      var rest :- KeyOf(row, cols[1..]);
      assert forall i :: 1 <= i < |cols| ==> cols[i] == cols[1..][i - 1];
      Ok([v] + rest)
  }

  /** The sort string's columns: the hierarchy field alone when one is
      given, otherwise the key columns in key order. */
  function SortColumns(cols: seq<Metadata.MetadataColumn>, hierarchy: string): (r: seq<string>)
    ensures hierarchy != "" ==> r == [hierarchy]
    ensures hierarchy == "" ==> |r| == |cols| && forall i :: 0 <= i < |cols| ==> r[i] == cols[i].name
  {
    if hierarchy != "" then [hierarchy]
    else seq(|cols|, i requires 0 <= i < |cols| => cols[i].name)
  }

  /** The field a child table is attached under: the sub-query builder's
      name, otherwise the child table's metadata name followed by `List`,
      with dots, spaces and dashes removed; with neither it fails. */
  function ChildFieldName(name: Option<string>, mt: Option<Metadata.MetadataTable>): (r: Result<string>)
    ensures r.Err? <==> name.None? && mt.None?
    ensures r.Err? ==> r.error == NullReference
    ensures r.Ok? ==> forall i :: 0 <= i < |r.value| ==> r.value[i] !in {'.', ' ', '-'}
    ensures name.Some? && (forall i :: 0 <= i < |name.value| ==> name.value[i] !in {'.', ' ', '-'}) ==>
      r == Ok(name.value)
    ensures name.None? && mt.Some? && (forall i :: 0 <= i < |mt.value.name| ==> mt.value.name[i] !in {'.', ' ', '-'}) ==>
      r == Ok(mt.value.name + "List")
  {
    var raw :- match name
      case Some(n) => Ok(n)
      case None => if mt.Some? then Ok(mt.value.name + "List") else Err(NullReference);
    RemoveCharsKeepsClean(raw, {'.', ' ', '-'});
    Ok(RemoveChars(raw, {'.', ' ', '-'}))
  }

  // ---------------------------------------------------------------------------
  // Numbering the result sets

  /** The sub-queries of a builder, in the dictionary's enumeration order. */
  ghost function SubQueriesOf(a: Arena, b: BuilderId): (r: seq<BuilderId>)
    requires Valid(a) && b < |a.builders|
    ensures |r| == |a.builders[b].subQueries|
    ensures AllIn(r, |a.builders|)
    ensures forall k :: k in a.builders[b].subQueries ==> a.builders[b].subQueries[k] in r
    ensures forall i :: 0 <= i < |r| ==> r[i] in a.builders[b].subQueries.Values
  {
    assert BuilderOk(SizesOf(a), a.builders[b]);
    ValuesInOrder(a.builders[b].subQueries)
  }

  /** A sub-query graph: the sub-queries of every builder, each one a builder. */
  predicate Closed(g: seq<seq<BuilderId>>) {
    forall b :: 0 <= b < |g| ==> AllIn(g[b], |g|)
  }

  /** The sub-query graph of an arena. */
  ghost function SubQueryGraph(a: Arena): (g: seq<seq<BuilderId>>)
    requires Valid(a)
    ensures |g| == |a.builders| && Closed(g)
    ensures forall b :: 0 <= b < |g| ==> g[b] == SubQueriesOf(a, b)
  {
    seq(|a.builders|, b requires 0 <= b < |a.builders| => SubQueriesOf(a, b))
  }

  /** The number of result sets a sub-query and its own sub-queries read:
      one per builder of its subtree. `None` when the subtree is deeper than
      `fuel` (only a cycle among sub-queries makes it so). */
  function Span(g: seq<seq<BuilderId>>, b: BuilderId, fuel: nat): (r: Option<nat>)
    requires Closed(g) && b < |g|
    ensures r.Some? ==> r.value >= 1
    decreases fuel, 0
  {
    if fuel == 0 then None
    else
      match SpanSum(g, g[b], fuel - 1)
      case None => None
      case Some(n) => Some(1 + n)
  }

  /** The result sets a list of sibling sub-queries read together. */
  function SpanSum(g: seq<seq<BuilderId>>, subs: seq<BuilderId>, fuel: nat): (r: Option<nat>)
    requires Closed(g) && AllIn(subs, |g|)
    ensures r.Some? ==> r.value >= |subs|
    decreases fuel, 1, |subs|
  {
    if |subs| == 0 then Some(0)
    else
      match Span(g, subs[0], fuel)
      case None => None
      case Some(n) =>
        match SpanSum(g, subs[1..], fuel)
        case None => None
        case Some(m) => Some(n + m)
  }

  /** How far the next sibling's result set is from this sub-query's. */
  function Advance(g: seq<seq<BuilderId>>, numbering: Numbering, s: BuilderId, fuel: nat): (r: Option<nat>)
    requires Closed(g) && s < |g|
    ensures numbering == SiblingOrder ==> r == Some(1)
    ensures numbering == TreeOrder ==> r == Span(g, s, fuel)
  {
    if numbering == SiblingOrder then Some(1) else Span(g, s, fuel)
  }

  /** The result sets that a sub-query reading set `start` and its own
      sub-queries read, under the given numbering. */
  function Tables(g: seq<seq<BuilderId>>, numbering: Numbering, b: BuilderId, start: nat, fuel: nat): (r: set<nat>)
    requires Closed(g) && b < |g|
    ensures fuel > 0 ==> start in r
    decreases fuel, 0
  {
    if fuel == 0 then {}
    else {start} + SubTables(g, numbering, g[b], start + 1, fuel - 1)
  }

  /** The result sets a list of siblings reads, the first reading set `next`. */
  function SubTables(g: seq<seq<BuilderId>>, numbering: Numbering, subs: seq<BuilderId>, next: nat, fuel: nat): set<nat>
    requires Closed(g) && AllIn(subs, |g|)
    decreases fuel, 1, |subs|
  {
    if |subs| == 0 then {}
    else
      Tables(g, numbering, subs[0], next, fuel)
      + match Advance(g, numbering, subs[0], fuel)
        case None => {}
        case Some(step) => SubTables(g, numbering, subs[1..], next + step, fuel)
  }

  /** Numbered in tree order, a subtree of `n` builders reads exactly the
      `n` result sets from `start` on: each set is read by one builder, and
      siblings never read each other's sets. */
  lemma {:induction false} TreeOrderTablesExact(g: seq<seq<BuilderId>>, b: BuilderId, start: nat, fuel: nat)
    requires Closed(g) && b < |g|
    requires Span(g, b, fuel).Some?
    ensures forall i :: i in Tables(g, TreeOrder, b, start, fuel) <==> start <= i < start + Span(g, b, fuel).value
    decreases fuel, 0
  {
    TreeOrderSubTablesExact(g, g[b], start + 1, fuel - 1);
  }

  lemma {:induction false} TreeOrderSubTablesExact(g: seq<seq<BuilderId>>, subs: seq<BuilderId>, next: nat, fuel: nat)
    requires Closed(g) && AllIn(subs, |g|)
    requires SpanSum(g, subs, fuel).Some?
    ensures forall i :: i in SubTables(g, TreeOrder, subs, next, fuel) <==> next <= i < next + SpanSum(g, subs, fuel).value
    decreases fuel, 1, |subs|
  {
    if |subs| > 0 {
      var n := Span(g, subs[0], fuel).value;
      TreeOrderTablesExact(g, subs[0], next, fuel);
      TreeOrderSubTablesExact(g, subs[1..], next + n, fuel);
    }
  }

  /** Numbered as written, when a builder has two sub-queries that each have
      a sub-query of their own, the second sub-query reads the same result set
      as the first one's sub-query: set `start + 2`. */
  lemma SiblingOrderRereadsAsWritten(g: seq<seq<BuilderId>>, b: BuilderId, start: nat, fuel: nat)
    requires Closed(g) && b < |g| && fuel >= 3
    requires |g[b]| >= 2 && forall j :: 0 <= j < |g[b]| ==> |g[g[b][j]]| > 0
    ensures start + 2 in Tables(g, SiblingOrder, g[b][0], start + 1, fuel - 1)
    ensures start + 2 in Tables(g, SiblingOrder, g[b][1], start + 2, fuel - 1)
    ensures Tables(g, SiblingOrder, g[b][0], start + 1, fuel - 1) <= Tables(g, SiblingOrder, b, start, fuel)
    ensures Tables(g, SiblingOrder, g[b][1], start + 2, fuel - 1) <= Tables(g, SiblingOrder, b, start, fuel)
  {
    var subs := g[b];
    var inner := g[subs[0]];
    assert start + 2 in Tables(g, SiblingOrder, inner[0], start + 2, fuel - 2);
    assert start + 2 in SubTables(g, SiblingOrder, inner, start + 2, fuel - 2);
    assert SubTables(g, SiblingOrder, subs[1..], start + 2, fuel - 1)
        == Tables(g, SiblingOrder, subs[1], start + 2, fuel - 1)
           + SubTables(g, SiblingOrder, subs[2..], start + 3, fuel - 1);
  }

  /** In tree order the second sub-query starts reading right after the
      `n` sets of the first one's subtree (which `TreeOrderTablesExact` places
      from `start + 1` on). */
  lemma TreeOrderSecondAfterFirst(g: seq<seq<BuilderId>>, b: BuilderId, start: nat, fuel: nat)
    requires Closed(g) && b < |g| && |g[b]| >= 2
    requires Span(g, b, fuel).Some?
    ensures fuel >= 2 && Span(g, g[b][0], fuel - 1).Some?
    ensures Tables(g, TreeOrder, g[b][1], start + 1 + Span(g, g[b][0], fuel - 1).value, fuel - 1)
      <= Tables(g, TreeOrder, b, start, fuel)
  {
    var subs := g[b];
    assert SpanSum(g, subs, fuel - 1).Some?;
    var n := Span(g, subs[0], fuel - 1).value;
    assert SubTables(g, TreeOrder, subs[1..], start + 1 + n, fuel - 1)
        >= Tables(g, TreeOrder, subs[1], start + 1 + n, fuel - 1);
  }

  // ---------------------------------------------------------------------------
  // Attaching child tables

  /** `r` reads as `base` on every field outside `names`, and has the same
      columns, table and key cache. */
  ghost predicate SameOutside(r: RowData, base: RowData, names: set<string>) {
    r.columns == base.columns && r.table == base.table && r.pkCache == base.pkCache
    && forall c :: c !in names ==> Rows.Get(r, c) == Rows.Get(base, c)
  }

  /** The fields the sub-queries `subs` attach their child tables under. */
  function ChildNames(a: Arena, mdb: Option<Metadata.MetadataDatabase>, subs: seq<BuilderId>): set<string>
    requires Valid(a) && AllIn(subs, |a.builders|)
  {
    if |subs| == 0 then {}
    else
      var first := ChildFieldName(a.builders[subs[0]].name, LevelMetadata(a, mdb, subs[0]));
      (if first.Ok? then {first.value} else {}) + ChildNames(a, mdb, subs[1..])
  }

  /** Attaching one sub-query's tables, then the others', keeps every row as
      it was outside the fields of all of them. */
  lemma SameOutsideSteps(rows: seq<RowData>, rows1: seq<RowData>, r: seq<RowData>, first: set<string>, rest: set<string>)
    requires |rows| == |rows1| == |r|
    requires forall i :: 0 <= i < |rows| ==>
      SameOutside(rows1[i], rows[i], first) && (Rows.Tracked(rows[i]) ==> Rows.Tracked(rows1[i]))
    requires forall i :: 0 <= i < |rows| ==>
      SameOutside(r[i], rows1[i], rest) && (Rows.Tracked(rows1[i]) ==> Rows.Tracked(r[i]))
    ensures forall i :: 0 <= i < |rows| ==>
      SameOutside(r[i], rows[i], first + rest) && (Rows.Tracked(rows[i]) ==> Rows.Tracked(r[i]))
  {
  }

  /** One parent row and one sub-query: the key columns of the parent level's
      metadata, the row's values of them, the rows of set `idx` holding that
      key (with `keyed` false the key searched for is the empty list, as the
      top level does), and the child table built from them. */
  ghost function AttachChild(a: Arena, mdb: Option<Metadata.MetadataDatabase>, ds: seq<DataTable>, cfg: Settings,
                             row: RowData, mt: Option<Metadata.MetadataTable>, s: BuilderId, idx: nat,
                             keyed: bool, fuel: nat): (r: Result<RowData>)
    requires Valid(a) && s < |a.builders| && idx < |ds|
    ensures KeyColumns(mt).Err? ==> r == Err(NullReference)
    ensures KeyColumns(mt).Ok? && KeyOf(row, KeyColumns(mt).value).Err? ==> r == Err(ArgumentError)
    ensures !keyed && KeyColumns(mt).Ok? ==> r.Err?
    ensures r.Ok? ==>
      ChildFieldName(a.builders[s].name, LevelMetadata(a, mdb, s)).Ok?
      && SameOutside(r.value, row, {ChildFieldName(a.builders[s].name, LevelMetadata(a, mdb, s)).value})
    ensures r.Ok? && Rows.Tracked(row) ==> Rows.Tracked(r.value)
    decreases fuel, 1, 0
  {
    var pk :- KeyColumns(mt);
    var key :- KeyOf(row, pk);
    var found :- FindRows(ds[idx], SortColumns(pk, cfg.hierarchy), if keyed then key else []);
    SubTable(a, mdb, ds, cfg, row, s, found, idx, fuel)
  }

  /** A row that got its child table holds, under the child field name, one
      row per row of the sub-query's result set with the row's key, each
      reading as that data row outside its own child fields; every other
      field of the row reads as before. */
  lemma AttachChildFinds(a: Arena, mdb: Option<Metadata.MetadataDatabase>, ds: seq<DataTable>, cfg: Settings,
                         row: RowData, mt: Option<Metadata.MetadataTable>, s: BuilderId, idx: nat,
                         keyed: bool, fuel: nat)
    requires Valid(a) && s < |a.builders| && idx < |ds|
    requires AttachChild(a, mdb, ds, cfg, row, mt, s, idx, keyed, fuel).Ok?
    ensures keyed && KeyColumns(mt).Ok? && KeyOf(row, KeyColumns(mt).value).Ok?
    ensures var pk := KeyColumns(mt).value;
      var found := FindRows(ds[idx], SortColumns(pk, cfg.hierarchy), KeyOf(row, pk).value);
      var r := AttachChild(a, mdb, ds, cfg, row, mt, s, idx, keyed, fuel).value;
      found.Ok?
      && ChildFieldName(a.builders[s].name, LevelMetadata(a, mdb, s)).Ok?
      && var name := ChildFieldName(a.builders[s].name, LevelMetadata(a, mdb, s)).value;
         (forall c :: c != name ==> Rows.Get(r, c) == Rows.Get(row, c))
         && (Rows.Tracked(row) ==>
               Rows.Get(r, name).Some? && Rows.Get(r, name).value.TableValue?
               && ChildRows(a, mdb, ds[idx], cfg, s, found.value, Rows.Get(r, name).value.rows))
  {
  }

  /** `SubTable`: builds the child table of set `idx` from the rows found,
      gives its rows their own sub-queries' tables, and attaches it to the
      parent row under the child field name. */
  ghost function SubTable(a: Arena, mdb: Option<Metadata.MetadataDatabase>, ds: seq<DataTable>, cfg: Settings,
                          parent: RowData, s: BuilderId, found: seq<seq<Value>>, idx: nat, fuel: nat): (r: Result<RowData>)
    requires Valid(a) && s < |a.builders| && idx < |ds|
    ensures fuel > 0 && ChildFieldName(a.builders[s].name, LevelMetadata(a, mdb, s)).Err? ==> r == Err(NullReference)
    ensures r.Ok? ==> r.value.columns == parent.columns && r.value.table == parent.table && r.value.pkCache == parent.pkCache
    ensures r.Ok? && Rows.Tracked(parent) ==> Rows.Tracked(r.value)
    ensures r.Ok? ==>
      ChildFieldName(a.builders[s].name, LevelMetadata(a, mdb, s)).Ok?
      && var name := ChildFieldName(a.builders[s].name, LevelMetadata(a, mdb, s)).value;
         (forall c :: c != name ==> Rows.Get(r.value, c) == Rows.Get(parent, c))
         && (Rows.Tracked(parent) ==>
               Rows.Get(r.value, name).Some? && Rows.Get(r.value, name).value.TableValue?
               && |Rows.Get(r.value, name).value.rows| == |found|)
    ensures r.Ok? && Rows.Tracked(parent) ==>
      var child := Rows.Get(r.value, ChildFieldName(a.builders[s].name, LevelMetadata(a, mdb, s)).value).value.rows;
      ChildRows(a, mdb, ds[idx], cfg, s, found, child)
    decreases fuel, 0
  {
    if fuel == 0 then Err(Diverges)
    else
      var mt := LevelMetadata(a, mdb, s);
      var name :- ChildFieldName(a.builders[s].name, mt);
      var rt := RowsOf(found, ds[idx], mt, cfg.withMetadata);
      var rt' :- Level(a, mdb, ds, cfg, rt, mt, SubQueriesOf(a, s), idx + 1, true, fuel - 1);
      Ok(Rows.Set(parent, name, TableValue(rt')))
  }

  /** The rows of a child table of sub-query `s` built from the data rows
      `found`: row `j` reads as the row `found[j]` gives, except under the
      fields of `s`'s own sub-queries; without those they are exactly the
      rows of `found`. */
  ghost predicate ChildRows(a: Arena, mdb: Option<Metadata.MetadataDatabase>, dt: DataTable, cfg: Settings, s: BuilderId,
                            found: seq<seq<Value>>, child: seq<RowData>)
    requires Valid(a) && s < |a.builders|
  {
    var mt := LevelMetadata(a, mdb, s);
    |child| == |found|
    && (forall j :: 0 <= j < |found| ==>
          SameOutside(child[j], NewRow(dt, found[j], mt, cfg.withMetadata), ChildNames(a, mdb, SubQueriesOf(a, s))))
    && (|a.builders[s].subQueries| == 0 ==> child == RowsOf(found, dt, mt, cfg.withMetadata))
  }

  /** Every row of a level gets the child table of one sub-query; a failure
      for any row fails the level. */
  ghost function AttachAll(a: Arena, mdb: Option<Metadata.MetadataDatabase>, ds: seq<DataTable>, cfg: Settings,
                           rows: seq<RowData>, mt: Option<Metadata.MetadataTable>, s: BuilderId, idx: nat,
                           keyed: bool, fuel: nat): (r: Result<seq<RowData>>)
    requires Valid(a) && s < |a.builders| && idx < |ds|
    ensures r.Ok? ==>
      (|r.value| == |rows|
       && forall i :: 0 <= i < |rows| ==> AttachChild(a, mdb, ds, cfg, rows[i], mt, s, idx, keyed, fuel) == Ok(r.value[i]))
    decreases fuel, 1, |rows|
  {
    if |rows| == 0 then Ok([])
    else
      TailAt(rows);
      var first :- AttachChild(a, mdb, ds, cfg, rows[0], mt, s, idx, keyed, fuel);
      var rest :- AttachAll(a, mdb, ds, cfg, rows[1..], mt, s, idx, keyed, fuel);
      Ok([first] + rest)
  }

  /** The sub-queries of a level in enumeration order, the first reading set
      `next`: a set past the end of the `DataSet` fails before any row is
      looked at. */
  ghost function Level(a: Arena, mdb: Option<Metadata.MetadataDatabase>, ds: seq<DataTable>, cfg: Settings,
                       rows: seq<RowData>, mt: Option<Metadata.MetadataTable>, subs: seq<BuilderId>, next: nat,
                       keyed: bool, fuel: nat): (r: Result<seq<RowData>>)
    requires Valid(a) && AllIn(subs, |a.builders|)
    ensures |subs| > 0 && next >= |ds| ==> r == Err(IndexOutOfRange)
    ensures |subs| == 0 ==> r == Ok(rows)
    ensures r.Ok? ==>
      (|r.value| == |rows|
       && forall i :: 0 <= i < |rows| ==>
            SameOutside(r.value[i], rows[i], ChildNames(a, mdb, subs))
            && (Rows.Tracked(rows[i]) ==> Rows.Tracked(r.value[i])))
    decreases fuel, 2, |subs|
  {
    if |subs| == 0 then Ok(rows)
    else if next >= |ds| then Err(IndexOutOfRange)
    else
      var rows1 :- AttachAll(a, mdb, ds, cfg, rows, mt, subs[0], next, keyed, fuel);
      var step :- match Advance(SubQueryGraph(a), cfg.numbering, subs[0], fuel)
        case None => Err(Diverges)
        case Some(n) => Ok(n);
      var r :- Level(a, mdb, ds, cfg, rows1, mt, subs[1..], next + step, keyed, fuel);
      var name := ChildFieldName(a.builders[subs[0]].name, LevelMetadata(a, mdb, subs[0]));
      SameOutsideSteps(rows, rows1, r, if name.Ok? then {name.value} else {}, ChildNames(a, mdb, subs[1..]));
      Ok(r)
  }

  // ---------------------------------------------------------------------------
  // The top level

  /** `new ResultTable(builder, ...)` over the result sets `ds`: the first set
      gives the rows, with the metadata of the builder's base table; sub-queries
      without that metadata are an argument error; then every sub-query is
      attached, searching with the parent's key when `keyed`. */
  ghost function AssembleWith(a: Arena, mdb: Option<Metadata.MetadataDatabase>, b: BuilderId, ds: seq<DataTable>,
                              cfg: Settings, keyed: bool): (r: Result<seq<RowData>>)
    requires Valid(a) && b < |a.builders|
    ensures |ds| == 0 ==> r == Err(IndexOutOfRange)
    ensures |ds| > 0 && a.builders[b].subQueries != map[] && LevelMetadata(a, mdb, b).None? ==> r == Err(ArgumentError)
    ensures r.Ok? ==>
      (|ds| > 0 && |r.value| == |ds[0].rows|
       && forall i :: 0 <= i < |r.value| ==>
            SameOutside(r.value[i], NewRow(ds[0], ds[0].rows[i], LevelMetadata(a, mdb, b), cfg.withMetadata),
                        ChildNames(a, mdb, SubQueriesOf(a, b)))
            && Rows.Tracked(r.value[i]))
  {
    if |ds| == 0 then Err(IndexOutOfRange)
    else
      var mt := LevelMetadata(a, mdb, b);
      var rows := RowsOf(ds[0].rows, ds[0], mt, cfg.withMetadata);
      var subs := SubQueriesOf(a, b);
      if |subs| > 0 && mt.None? then Err(ArgumentError)
      else
        var r :- Level(a, mdb, ds, cfg, rows, mt, subs, 1, keyed, |a.builders|);
        TopRows(ds[0], mt, cfg.withMetadata, rows, r, ChildNames(a, mdb, subs));
        Ok(r)
  }

  /** The rows a level returns over the first result set read as its data
      rows outside the child fields, and stay tracked. */
  lemma TopRows(dt: DataTable, mt: Option<Metadata.MetadataTable>, withMetadata: bool,
                rows: seq<RowData>, r: seq<RowData>, names: set<string>)
    requires rows == RowsOf(dt.rows, dt, mt, withMetadata) && |r| == |rows|
    requires forall i :: 0 <= i < |rows| ==>
      SameOutside(r[i], rows[i], names) && (Rows.Tracked(rows[i]) ==> Rows.Tracked(r[i]))
    ensures |r| == |dt.rows|
    ensures forall i :: 0 <= i < |r| ==>
      SameOutside(r[i], NewRow(dt, dt.rows[i], mt, withMetadata), names) && Rows.Tracked(r[i])
  {
  }

  /** The constructor as written: the top level searches with the list `pk`,
      which is never filled, and nested levels number their result sets one
      per sibling. */
  ghost function AssembleAsWritten(a: Arena, mdb: Option<Metadata.MetadataDatabase>, b: BuilderId, ds: seq<DataTable>,
                                   withMetadata: bool, hierarchy: string): (r: Result<seq<RowData>>)
    requires Valid(a) && b < |a.builders|
    ensures r == AssembleWith(a, mdb, b, ds, Settings(withMetadata, hierarchy, SiblingOrder), false)
  {
    AssembleWith(a, mdb, b, ds, Settings(withMetadata, hierarchy, SiblingOrder), false)
  }

  /** The constructor as intended: every level searches with the parent row's
      key, and result sets are numbered in tree order. */
  ghost function Assemble(a: Arena, mdb: Option<Metadata.MetadataDatabase>, b: BuilderId, ds: seq<DataTable>,
                          withMetadata: bool, hierarchy: string): (r: Result<seq<RowData>>)
    requires Valid(a) && b < |a.builders|
    ensures r == AssembleWith(a, mdb, b, ds, Settings(withMetadata, hierarchy, TreeOrder), true)
  {
    AssembleWith(a, mdb, b, ds, Settings(withMetadata, hierarchy, TreeOrder), true)
  }

  /** As written, a query with a sub-query fails whenever its first result
      set has a row: the top level always searches with an empty key. */
  lemma EmptyKeyAsWritten(a: Arena, mdb: Option<Metadata.MetadataDatabase>, b: BuilderId, ds: seq<DataTable>,
                          withMetadata: bool, hierarchy: string)
    requires Valid(a) && b < |a.builders|
    requires a.builders[b].subQueries != map[] && |ds| > 0 && |ds[0].rows| > 0
    ensures AssembleAsWritten(a, mdb, b, ds, withMetadata, hierarchy).Err?
  {
    var mt := LevelMetadata(a, mdb, b);
    if mt.Some? {
      var cfg := Settings(withMetadata, hierarchy, SiblingOrder);
      UnkeyedLevelFails(a, mdb, ds, cfg, RowsOf(ds[0].rows, ds[0], mt, withMetadata), mt, SubQueriesOf(a, b), 1, |a.builders|);
    }
  }

  /** A level with rows and sub-queries that searches with the empty key fails. */
  lemma UnkeyedLevelFails(a: Arena, mdb: Option<Metadata.MetadataDatabase>, ds: seq<DataTable>, cfg: Settings,
                          rows: seq<RowData>, mt: Option<Metadata.MetadataTable>, subs: seq<BuilderId>, next: nat, fuel: nat)
    requires Valid(a) && AllIn(subs, |a.builders|) && |subs| > 0 && |rows| > 0
    ensures Level(a, mdb, ds, cfg, rows, mt, subs, next, false, fuel).Err?
  {
    if next < |ds| {
      assert AttachChild(a, mdb, ds, cfg, rows[0], mt, subs[0], next, false, fuel).Err?;
    }
  }

  /** Assembled as intended, a query with one sub-query keeps every row of
      the first result set, in order, and gives row `i` a child table holding
      the rows of the sub-query's result set with row `i`'s key, in the
      order found. */
  lemma {:induction false} AssembleAttachesMatches(a: Arena, mdb: Option<Metadata.MetadataDatabase>, b: BuilderId,
                                                   ds: seq<DataTable>, withMetadata: bool, hierarchy: string, i: nat)
    requires Valid(a) && b < |a.builders| && |a.builders[b].subQueries| == 1
    requires Assemble(a, mdb, b, ds, withMetadata, hierarchy).Ok?
    requires i < |Assemble(a, mdb, b, ds, withMetadata, hierarchy).value|
    ensures |ds| > 1 && i < |ds[0].rows|
    ensures var mt := LevelMetadata(a, mdb, b);
      var row := NewRow(ds[0], ds[0].rows[i], mt, withMetadata);
      var s := SubQueriesOf(a, b)[0];
      KeyColumns(mt).Ok? && KeyOf(row, KeyColumns(mt).value).Ok?
      && ChildFieldName(a.builders[s].name, LevelMetadata(a, mdb, s)).Ok?
      && var pk := KeyColumns(mt).value;
         var found := FindRows(ds[1], SortColumns(pk, hierarchy), KeyOf(row, pk).value);
         var name := ChildFieldName(a.builders[s].name, LevelMetadata(a, mdb, s)).value;
         var child := Rows.Get(Assemble(a, mdb, b, ds, withMetadata, hierarchy).value[i], name);
         found.Ok? && child.Some? && child.value.TableValue?
         && ChildRows(a, mdb, ds[1], Settings(withMetadata, hierarchy, TreeOrder), s, found.value, child.value.rows)
  {
    var cfg := Settings(withMetadata, hierarchy, TreeOrder);
    var mt := LevelMetadata(a, mdb, b);
    var rows := RowsOf(ds[0].rows, ds[0], mt, withMetadata);
    var subs := SubQueriesOf(a, b);
    var fuel := |a.builders|;
    var r := Assemble(a, mdb, b, ds, withMetadata, hierarchy);
    assert r == Level(a, mdb, ds, cfg, rows, mt, subs, 1, true, fuel);
    var attached := AttachAll(a, mdb, ds, cfg, rows, mt, subs[0], 1, true, fuel);
    var step := Advance(SubQueryGraph(a), TreeOrder, subs[0], fuel).value;
    assert r == Level(a, mdb, ds, cfg, attached.value, mt, subs[1..], 1 + step, true, fuel);
    assert r.value == attached.value;
    assert AttachChild(a, mdb, ds, cfg, rows[i], mt, subs[0], 1, true, fuel) == Ok(r.value[i]);
    AttachChildFinds(a, mdb, ds, cfg, rows[i], mt, subs[0], 1, true, fuel);
  }
}
