/** Finding tables and fields by name inside a builder, creating tables with
    `From` and joins with `MakeJoin`, and filling a field's type from the
    catalogue (`PopulateField`, `TryPopulateField`). */
module Lookup {
  import opened Outcomes
  import opened Text
  import opened Collections
  import opened Values
  import opened SqlTypes
  import opened QueryModel
  import Metadata

  // ---------------------------------------------------------------------------
  // Searching a builder's tables and a table's fields

  function TablesOf(a: Arena, ids: seq<TableId>): (r: seq<Table>)
    requires AllIn(ids, |a.tables|)
    ensures |r| == |ids|
    ensures forall i :: 0 <= i < |ids| ==> r[i] == a.tables[ids[i]]
  {
    seq(|ids|, i requires 0 <= i < |ids| => a.tables[ids[i]])
  }

  function FieldsOf(a: Arena, ids: seq<FieldId>): (r: seq<Field>)
    requires AllIn(ids, |a.fields|)
    ensures |r| == |ids|
    ensures forall i :: 0 <= i < |ids| ==> r[i] == a.fields[ids[i]]
  {
    seq(|ids|, i requires 0 <= i < |ids| => a.fields[ids[i]])
  }

  /** The test `FindTable` applies: the name or the alias, ignoring case. */
  predicate NamedAs(t: Table, nameOrAlias: string) {
    EqualsIgnoreCase(t.name, nameOrAlias) || EqualsIgnoreCase(Alias(t), nameOrAlias)
  }

  /** The test `FindField` applies: the name or the explicit alias, ignoring case. */
  predicate FieldNamedAs(f: Field, nameOrAlias: string) {
    EqualsIgnoreCase(f.name, nameOrAlias) || (f.alias.Some? && EqualsIgnoreCase(f.alias.value, nameOrAlias))
  }

  /** None of the first `i` tables of `ids` is named `n`. */
  predicate NoEarlierNamed(a: Arena, ids: seq<TableId>, i: nat, n: string)
    requires AllIn(ids, |a.tables|) && i <= |ids|
  {
    forall j :: 0 <= j < i ==> !NamedAs(a.tables[ids[j]], n)
  }

  /** The first of `ids` whose table is named or aliased `n`. */
  function FirstNamed(a: Arena, ids: seq<TableId>, n: string): (r: Option<TableId>)
    requires AllIn(ids, |a.tables|)
    ensures r.None? <==> NoEarlierNamed(a, ids, |ids|, n)
    ensures r.Some? ==> exists i :: 0 <= i < |ids| && ids[i] == r.value
                          && NamedAs(a.tables[r.value], n) && NoEarlierNamed(a, ids, i, n)
  {
    match FirstIndex(TablesOf(a, ids), t => NamedAs(t, n))
    case None => None
    case Some(i) => Some(ids[i])
  }

  /** `SqlBuilder.FindTable`: the first of the builder's own tables whose name
      or alias matches, ignoring case. When none does, the library walks the
      parent chain but searches the same builder's tables again at every step,
      so nothing is found there; the walk only matters in that it never ends
      on a cyclic chain. The `schema` argument plays no part and is omitted. */
  function FindTable(a: Arena, b: BuilderId, nameOrAlias: string): (r: Result<Option<TableId>>)
    requires Valid(a) && b < |a.builders|
    ensures r.Ok? && r.value.Some? ==>
      r.value.value in a.builders[b].tables && NamedAs(a.tables[r.value.value], nameOrAlias)
    ensures r.Ok? && r.value.Some? ==>
      exists i :: (0 <= i < |a.builders[b].tables| && a.builders[b].tables[i] == r.value.value
                   && NoEarlierNamed(a, a.builders[b].tables, i, nameOrAlias))
    ensures !NoEarlierNamed(a, a.builders[b].tables, |a.builders[b].tables|, nameOrAlias) ==> r.Ok? && r.value.Some?
    ensures r == Ok(None) <==>
      NoEarlierNamed(a, a.builders[b].tables, |a.builders[b].tables|, nameOrAlias) && TopBuilder(a, b).Ok?
    ensures r.Err? <==>
      NoEarlierNamed(a, a.builders[b].tables, |a.builders[b].tables|, nameOrAlias) && TopBuilder(a, b).Err?
    ensures r.Err? ==> r.error == Diverges
  {
    var found := FirstNamed(a, a.builders[b].tables, nameOrAlias);
    if found.Some? then Ok(found)
    else match TopBuilder(a, b)
      case Ok(_) => Ok(None)
      case Err(e) => Err(e)
  }

  /** `Table.FindField`: the first field of the table whose name or alias
      matches, ignoring case. */
  function FindField(a: Arena, t: TableId, nameOrAlias: string): (r: Option<FieldId>)
    requires Valid(a) && t < |a.tables|
    ensures r.None? <==> forall i :: 0 <= i < |a.tables[t].fields| ==> !FieldNamedAs(a.fields[a.tables[t].fields[i]], nameOrAlias)
    ensures r.Some? ==> r.value in a.tables[t].fields && r.value < |a.fields| && FieldNamedAs(a.fields[r.value], nameOrAlias)
    ensures r.Some? ==>
      exists i :: (0 <= i < |a.tables[t].fields| && a.tables[t].fields[i] == r.value
                   && forall j :: 0 <= j < i ==> !FieldNamedAs(a.fields[a.tables[t].fields[j]], nameOrAlias))
  {
    var ids := a.tables[t].fields;
    match FirstIndex(FieldsOf(a, ids), f => FieldNamedAs(f, nameOrAlias))
    case None => None
    case Some(i) => Some(ids[i])
  }

  /** A table of the builder is the target of one of the builder's joins. */
  predicate IsJoinTarget(a: Arena, b: BuilderId, t: TableId)
    requires Valid(a) && b < |a.builders|
  {
    exists i :: 0 <= i < |a.builders[b].joins| && a.joins[a.builders[b].joins[i]].to == t
  }

  // ---------------------------------------------------------------------------
  // Creating tables

  /** The alias `From` gives a new table: the requested one, or `t<n>` with
      `n` the number of tables the builder had before. */
  function FromAlias(alias: Option<string>, count: nat): (r: string)
    ensures NonEmpty(alias) ==> r == alias.value
    ensures !NonEmpty(alias) ==> r == "t" + IntToString(count)
  {
    if NonEmpty(alias) then alias.value else "t" + IntToString(count)
  }

  /** Generated aliases of tables added at different counts differ. */
  lemma FromAliasInjective(x: Option<string>, y: Option<string>, c1: nat, c2: nat)
    requires !NonEmpty(x) && !NonEmpty(y)
    ensures FromAlias(x, c1) == FromAlias(y, c2) <==> c1 == c2
  {
    if FromAlias(x, c1) == FromAlias(y, c2) {
      assert FromAlias(x, c1)[1..] == NatToString(c1);
      assert FromAlias(y, c2)[1..] == NatToString(c2);
      NatToStringRoundTrip(c1);
      NatToStringRoundTrip(c2);
    }
  }

  /** `SqlBuilder.From`: a table the builder already has under this alias (or
      name, when no alias is given) is reused unless a join already targets
      it; otherwise a new table is appended to the builder. */
  function From(a: Arena, b: BuilderId, tableName: string, alias: Option<string>, schema: Option<string>): (r: Result<(Arena, TableId)>)
    requires Valid(a) && b < |a.builders|
    ensures r.Err? <==> FindTable(a, b, alias.GetOr(tableName)).Err?
    ensures r.Ok? ==> Valid(r.value.0) && r.value.0.joins == a.joins && |r.value.0.builders| == |a.builders|
    ensures r.Ok? ==>
      (r.value.1 < |r.value.0.tables| && r.value.1 in r.value.0.builders[b].tables
       && !IsJoinTarget(r.value.0, b, r.value.1))
    ensures FindTable(a, b, alias.GetOr(tableName)).Ok? && FindTable(a, b, alias.GetOr(tableName)).value.Some?
      && !IsJoinTarget(a, b, FindTable(a, b, alias.GetOr(tableName)).value.value)
      ==> r == Ok((a, FindTable(a, b, alias.GetOr(tableName)).value.value))
    ensures r.Ok? && r.value.0 != a ==>
      var t := Table(PlainTable, tableName, schema, Some(FromAlias(alias, |a.builders[b].tables|)), [], Some(b));
      r.value.1 == |a.tables|
      && r.value.0 == a.(tables := a.tables + [t],
                         builders := a.builders[b := a.builders[b].(tables := a.builders[b].tables + [|a.tables|])])
  {
    var found :- FindTable(a, b, alias.GetOr(tableName));
    if found.Some? && !IsJoinTarget(a, b, found.value) then Ok((a, found.value))
    else
      var t := Table(PlainTable, tableName, schema, Some(FromAlias(alias, |a.builders[b].tables|)), [], Some(b));
      var (a2, id) := AppendTable(a, b, t);
      assert a2.tables != a.tables by { assert |a2.tables| != |a.tables|; }
      NewTableNotTarget(a, b, a2);
      assert a2.builders[b].tables[|a.builders[b].tables|] == id;
      Ok((a2, id))
  }

  /** Asking `From` again for the table it just added (under a non-empty alias,
      or under no alias) returns that table and changes nothing. */
  lemma FromAgain(a: Arena, b: BuilderId, tableName: string, alias: Option<string>, schema: Option<string>)
    requires Valid(a) && b < |a.builders|
    requires alias.None? || alias.value != ""
    requires FindTable(a, b, alias.GetOr(tableName)).Ok?
    requires FindTable(a, b, alias.GetOr(tableName)).value.None?
             || !IsJoinTarget(a, b, FindTable(a, b, alias.GetOr(tableName)).value.value)
    ensures var (a1, t) := From(a, b, tableName, alias, schema).value;
            From(a1, b, tableName, alias, schema) == Ok((a1, t))
  {
    var key := alias.GetOr(tableName);
    var (a1, t) := From(a, b, tableName, alias, schema).value;
    if a1 != a {
      var tb := Table(PlainTable, tableName, schema, Some(FromAlias(alias, |a.builders[b].tables|)), [], Some(b));
      assert NamedAs(tb, key);
      NewTableFound(a, b, key, tb, a1);
    }
  }

  /** Once `From` has appended a table named `n` to a builder none of whose
      tables was named `n`, looking `n` up finds that table, and no join of
      the builder targets it. */
  lemma NewTableFound(a: Arena, b: BuilderId, n: string, tb: Table, a1: Arena)
    requires Valid(a) && b < |a.builders|
    requires FindTable(a, b, n) == Ok(None) && NamedAs(tb, n)
    requires Valid(a1) && a1 == a.(tables := a.tables + [tb],
                                   builders := a.builders[b := a.builders[b].(tables := a.builders[b].tables + [|a.tables|])])
    ensures FindTable(a1, b, n) == Ok(Some(|a.tables|)) && !IsJoinTarget(a1, b, |a.tables|)
  {
    var ids := a.builders[b].tables;
    var ids1 := a1.builders[b].tables;
    assert ids1[|ids|] == |a.tables|;
    forall j | 0 <= j < |ids| ensures !NamedAs(a1.tables[ids1[j]], n) {
      assert ids1[j] == ids[j];
    }
    assert !NoEarlierNamed(a1, ids1, |ids1|, n);
    var g := FindTable(a1, b, n).value.value;
    var k :| 0 <= k < |ids1| && ids1[k] == g && NoEarlierNamed(a1, ids1, k, n);
    assert k == |ids|;
    NewTableNotTarget(a, b, a1);
  }

  /** A table just appended to the arena is the target of no join. */
  lemma NewTableNotTarget(a: Arena, b: BuilderId, a1: Arena)
    requires Valid(a) && b < |a.builders| && Valid(a1) && b < |a1.builders|
    requires a1.joins == a.joins && a1.builders[b].joins == a.builders[b].joins
    ensures !IsJoinTarget(a1, b, |a.tables|)
  {
    forall i | 0 <= i < |a1.builders[b].joins| ensures a1.joins[a1.builders[b].joins[i]].to != |a.tables| {
      assert BuilderOk(SizesOf(a), a.builders[b]);
      assert JoinOk(SizesOf(a), a.joins[a.builders[b].joins[i]]);
    }
  }

  // ---------------------------------------------------------------------------
  // Joins

  /** The table `MakeJoin` joins to when the builder already has it: the first
      table named `alias ?? toTable`, or whose alias equals the given alias. */
  predicate JoinMatch(t: Table, toTable: string, alias: Option<string>) {
    EqualsIgnoreCase(t.name, alias.GetOr(toTable)) || (alias.Some? && EqualsIgnoreCase(Alias(t), alias.value))
  }

  function FirstJoinMatch(a: Arena, ids: seq<TableId>, toTable: string, alias: Option<string>): (r: Option<TableId>)
    requires AllIn(ids, |a.tables|)
    ensures r.None? <==> forall i :: 0 <= i < |ids| ==> !JoinMatch(a.tables[ids[i]], toTable, alias)
    ensures r.Some? ==> r.value in ids && JoinMatch(a.tables[r.value], toTable, alias)
  {
    match FirstIndex(TablesOf(a, ids), t => JoinMatch(t, toTable, alias))
    case None => None
    case Some(i) => Some(ids[i])
  }

  /** Adds a join together with its (empty) ON-condition group. */
  function AddJoinWithGroup(a: Arena, kind: JoinType, from: TableId, to: TableId, b: BuilderId): (r: (Arena, JoinId))
    requires Valid(a) && from < |a.tables| && to < |a.tables| && b < |a.builders|
    ensures Valid(r.0) && r.1 == |a.joins|
    ensures r.0 == a.(groups := a.groups + [Group(JoinGroup(|a.joins|), NoLink, [], [], None, Some(b))],
                      joins := a.joins + [Join(kind, from, to, |a.groups|, Some(b))])
  {
    var g := Group(JoinGroup(|a.joins|), NoLink, [], [], None, Some(b));
    var j := Join(kind, from, to, |a.groups|, Some(b));
    var a1 := a.(groups := a.groups + [g], joins := a.joins + [j]);
    GrownKeepsOk(SizesOf(a), SizesOf(a1), a);
    (a1, |a.joins|)
  }

  /** The table `MakeJoin` joins to: the first matching table of the builder
      when no join targets it yet, else the one `From` gives. */
  function JoinTarget(a: Arena, b: BuilderId, toTable: string, alias: Option<string>, schema: Option<string>): (r: Result<(Arena, TableId)>)
    requires Valid(a) && b < |a.builders|
    ensures r.Ok? ==> Valid(r.value.0) && r.value.0.joins == a.joins && |r.value.0.builders| == |a.builders|
    ensures r.Ok? ==> |a.tables| <= |r.value.0.tables| && |a.groups| == |r.value.0.groups|
    ensures r.Ok? ==>
      (r.value.1 < |r.value.0.tables| && r.value.1 in r.value.0.builders[b].tables
       && r.value.0.builders[b].joins == a.builders[b].joins
       && !IsJoinTarget(r.value.0, b, r.value.1))
  {
    var right := FirstJoinMatch(a, a.builders[b].tables, toTable, alias);
    if right.Some? && !IsJoinTarget(a, b, right.value) then Ok((a, right.value))
    else From(a, b, toTable, alias, schema)
  }

  /** `MakeJoin`: joins `from` to a table of its builder (reusing one that is
      not yet a join target, else adding one with `From`) and appends the
      join, with an empty condition group, to the builder's joins. */
  function MakeJoin(a: Arena, kind: JoinType, from: TableId, toTable: string, alias: Option<string>, schema: Option<string>): (r: Result<(Arena, JoinId)>)
    requires Valid(a) && from < |a.tables|
    ensures a.tables[from].builder.None? ==> r == Err(NullReference)
    ensures r.Ok? ==> Valid(r.value.0) && r.value.1 == |a.joins| && |r.value.0.joins| == |a.joins| + 1
    ensures r.Ok? ==>
      var b := a.tables[from].builder.value;
      var a1 := r.value.0;
      var j := a1.joins[r.value.1];
      (j.kind == kind && j.from == from && j.builder == Some(b)
       && a1.builders[b].joins == a.builders[b].joins + [r.value.1]
       && j.to in a1.builders[b].tables
       && a1.groups[j.conditions] == Group(JoinGroup(r.value.1), NoLink, [], [], None, Some(b))
       && (forall i :: 0 <= i < |a.builders[b].joins| ==> a.joins[a.builders[b].joins[i]].to != j.to))
  {
    if a.tables[from].builder.None? then Err(NullReference)
    else
      var b := a.tables[from].builder.value;
      var (a1, to) :- JoinTarget(a, b, toTable, alias, schema);
      var (a2, j) := AddJoinWithGroup(a1, kind, from, to, b);
      var bl := a2.builders[b];
      var a3 := SetBuilder(a2, b, bl.(joins := bl.joins + [j]));
      Ok((a3, j))
  }

  // ---------------------------------------------------------------------------
  // Types from the catalogue

  /** `MetadataColumn.PopulateField`: the column's name, length, scale,
      precision and SQL type overwrite the field's; nothing else changes. */
  function PopulateField(f: Field, c: Metadata.MetadataColumn): (r: Field)
    ensures r.name == c.name && r.maxLength == c.length && r.scale == c.scale
      && r.precision == c.precision && r.sqlType == c.sqlType
    ensures r.kind == f.kind && r.alias == f.alias && r.table == f.table && r.value == f.value
  {
    f.(name := c.name, maxLength := c.length, scale := c.scale, precision := c.precision, sqlType := c.sqlType)
  }

  /** Populating twice from the same column is populating once, and the
      result no longer depends on the field's own type attributes. */
  lemma PopulateFieldIdempotent(f: Field, g: Field, c: Metadata.MetadataColumn)
    requires f.kind == g.kind && f.alias == g.alias && f.table == g.table && f.value == g.value
    ensures PopulateField(PopulateField(f, c), c) == PopulateField(f, c)
    ensures PopulateField(f, c) == PopulateField(g, c)
  {
  }

  /** The catalogue column `TryPopulateField` copies from: the column named
      `useField` (else the field's name) of the table named `useTable` (else
      the field's table's full name). */
  function CatalogueColumn(a: Arena, mdb: Metadata.MetadataDatabase, f: Field, useTable: string, useField: string): (r: Option<Metadata.MetadataColumn>)
    requires FieldOk(SizesOf(a), f)
    requires useTable != "" || f.table.Some?
    ensures r.Some? ==>
      exists mt :: (Metadata.FindTable(mdb, if useTable == "" then FullName(a.tables[f.table.value]) else useTable, true) == Some(mt)
                    && (if useField == "" then f.name else useField) in mt.columns
                    && r.value == mt.columns[if useField == "" then f.name else useField])
  {
    var name := if useTable == "" then FullName(a.tables[f.table.value]) else useTable;
    match Metadata.FindTable(mdb, name, true)
    case None => None
    case Some(mt) =>
      var column := if useField == "" then f.name else useField;
      if column in mt.columns then Some(mt.columns[column]) else None
  }

  /** `Field.TryPopulateField`: copies the type of the matching catalogue
      column onto the field and reports whether there was one. A field
      without table and without `useTable` (empty standing for null) is left
      alone; a table without builder is dereferenced. */
  function TryPopulateField(a: Arena, mdb: Option<Metadata.MetadataDatabase>, f: Field, useTable: string, useField: string): (r: Result<(Field, bool)>)
    requires FieldOk(SizesOf(a), f)
    ensures r.Err? <==> (f.table.Some? && a.tables[f.table.value].builder.None?)
    ensures r.Err? ==> r.error == NullReference
    ensures r.Ok? && !r.value.1 ==> r.value.0 == f
    ensures r.Ok? && r.value.1 ==>
      (mdb.Some? && (useTable != "" || f.table.Some?)
       && CatalogueColumn(a, mdb.value, f, useTable, useField).Some?
       && r.value.0 == PopulateField(f, CatalogueColumn(a, mdb.value, f, useTable, useField).value))
    ensures (r.Ok? && mdb.Some? && (useTable != "" || f.table.Some?)
             && CatalogueColumn(a, mdb.value, f, useTable, useField).Some?) ==> r.value.1
    ensures mdb.None? ==> r.Err? || r == Ok((f, false))
  {
    if f.table.None? && useTable == "" then Ok((f, false))
    else if f.table.Some? && a.tables[f.table.value].builder.None? then Err(NullReference)
    else if mdb.None? then Ok((f, false))
    else match CatalogueColumn(a, mdb.value, f, useTable, useField)
      case None => Ok((f, false))
      case Some(c) => Ok((PopulateField(f, c), true))
  }

  /** The column named `key` of the catalogue table named `tableName`, when
      the builder's catalogue has both. */
  function BuilderColumn(mdb: Option<Metadata.MetadataDatabase>, tableName: string, key: string): (r: Option<Metadata.MetadataColumn>)
    ensures r.Some? ==> mdb.Some? && Metadata.FindTable(mdb.value, tableName, true).Some?
                        && key in Metadata.FindTable(mdb.value, tableName, true).value.columns
                        && r.value == Metadata.FindTable(mdb.value, tableName, true).value.columns[key]
    ensures r.None? ==> mdb.None? || Metadata.FindTable(mdb.value, tableName, true).None?
                        || key !in Metadata.FindTable(mdb.value, tableName, true).value.columns
  {
    match mdb
    case None => None
    case Some(db) =>
      match Metadata.FindTable(db, tableName, true)
      case None => None
      case Some(mt) => if key in mt.columns then Some(mt.columns[key]) else None
  }

  /** A field of a table named `tableName` after `PopulateField`: typed from
      the builder's catalogue column of its name when there is one, and left
      as the caller built it otherwise. */
  function Populated(mdb: Option<Metadata.MetadataDatabase>, tableName: string, f: Field): (r: Field)
    ensures BuilderColumn(mdb, tableName, f.name).None? ==> r == f
    ensures BuilderColumn(mdb, tableName, f.name).Some? ==> r == PopulateField(f, BuilderColumn(mdb, tableName, f.name).value)
  {
    match BuilderColumn(mdb, tableName, f.name)
    case None => f
    case Some(c) => PopulateField(f, c)
  }

  /** `Field.PopulateField`: `TryPopulateField` without the report. */
  function Populate(a: Arena, mdb: Option<Metadata.MetadataDatabase>, f: Field): (r: Result<Field>)
    requires FieldOk(SizesOf(a), f)
    ensures r.Err? <==> (f.table.Some? && a.tables[f.table.value].builder.None?)
    ensures r.Err? ==> r.error == NullReference
    ensures r.Ok? ==> r.value.kind == f.kind && r.value.alias == f.alias && r.value.table == f.table && r.value.value == f.value
    ensures r.Ok? ==> FieldOk(SizesOf(a), r.value)
    ensures r.Ok? && f.table.None? ==> r.value == f
    ensures r.Ok? && f.table.Some? ==> r.value == Populated(mdb, FullName(a.tables[f.table.value]), f)
  {
    var (g, _) :- TryPopulateField(a, mdb, f, "", "");
    Ok(g)
  }

  /** A new column field with the library's defaults: no alias, no value,
      `BigInt` (the default `SqlDbType`) and -1 for length, precision and scale. */
  function NewField(kind: FieldKind, name: string, alias: Option<string>, table: Option<TableId>, value: Value): Field {
    Field(kind, name, alias, table, value, BigInt, -1, -1, -1)
  }
}
