/** `RowData`: one row of a result set. Reads go through an overlay of
    pending changes; writes to a column that the row already has go into that
    overlay; committing moves the overlay into the values read. A row that
    knows its table and primary key can also build the WHERE group that
    selects it. */
module Rows {
  import opened Outcomes
  import opened Values
  import opened SqlTypes
  import opened QueryModel
  import opened Conditions
  import Metadata

  // ---------------------------------------------------------------------------
  // Reading

  /** `InternalGet`: a pending change shadows the value read from the database. */
  function Get(row: RowData, column: string): (r: Option<Value>)
    ensures r.Some? <==> (column in row.changes || column in row.values)
    ensures column in row.changes ==> r == Some(row.changes[column])
    ensures column !in row.changes && column in row.values ==> r == Some(row.values[column])
  {
    if column in row.changes then Some(row.changes[column])
    else if column in row.values then Some(row.values[column])
    else None
  }

  /** `Column(name)`: the current value of a column; asking for a column the
      row does not have is an argument error. */
  function Column(row: RowData, name: string): (r: Result<Value>)
    ensures r.Err? <==> Get(row, name).None?
    ensures r.Err? ==> r.error == ArgumentError
    ensures r.Ok? ==> Get(row, name) == Some(r.value)
  {
    match Get(row, name)
    case Some(v) => Ok(v)
    case None => Err(ArgumentError)
  }

  /** `HasChanges`: the overlay is not empty. */
  predicate HasChanges(row: RowData) {
    |row.changes| > 0
  }

  /** The shape every row keeps: a pending change is always for a column the
      row read (changes are only recorded for columns already present, and a
      commit moves them into the values read). */
  predicate Tracked(row: RowData) {
    row.changes.Keys <= row.values.Keys
  }

  // ---------------------------------------------------------------------------
  // Writing

  /** `InternalSet` as the library writes it. A new column is added to the
      values read. For an existing column the old value `o` is compared with
      `(o == null && value != null) || !o.Equals(value)`: when both are null
      the second operand dereferences null. Otherwise a different value is
      recorded as a pending change and an equal one is ignored; the
      comparison is with the value read, not with a pending change. */
  function SetAsWritten(row: RowData, column: string, value: Value): (r: Result<RowData>)
    ensures r.Err? <==> (column in row.values && row.values[column].NullValue? && value.NullValue?)
    ensures r.Err? ==> r.error == NullReference
    ensures r.Ok? ==> r.value.columns == row.columns && r.value.table == row.table && r.value.pkCache == row.pkCache
    ensures r.Ok? && column in row.values ==> r.value.values == row.values
    ensures r.Ok? && column in row.values && row.values[column] == value ==> r.value == row
    ensures r.Ok? ==> forall c :: c != column ==> Get(r.value, c) == Get(row, c)
  {
    if column !in row.values then Ok(row.(values := row.values[column := value]))
    else
      var o := row.values[column];
      if o.NullValue? && !value.NullValue? then Ok(row.(changes := row.changes[column := value]))
      else if o.NullValue? then Err(NullReference)
      else if o != value then Ok(row.(changes := row.changes[column := value]))
      else Ok(row)
  }

  /** Writing null over a null column fails as written. */
  lemma NullOverNullAsWritten(row: RowData, column: string)
    requires column in row.values && row.values[column] == NullValue
    ensures SetAsWritten(row, column, NullValue) == Err(NullReference)
  {
  }

  /** Writing a column back to the value it was read with, after changing
      it, leaves the earlier change in place: the row still reads the
      changed value and still has changes. */
  lemma RevertKeepsChangeAsWritten(row: RowData, column: string, v: Value, w: Value)
    requires column in row.values && row.values[column] == v && !v.NullValue? && v != w
    ensures SetAsWritten(row, column, w).Ok?
    ensures SetAsWritten(SetAsWritten(row, column, w).value, column, v).Ok?
    ensures var r := SetAsWritten(SetAsWritten(row, column, w).value, column, v).value;
            Get(r, column) == Some(w) && HasChanges(r)
  {
    var r1 := SetAsWritten(row, column, w).value;
    assert r1.changes == row.changes[column := w];
    assert r1.values == row.values;
  }

  /** `InternalSet` as intended: a new column is added to the values read;
      for an existing column the overlay holds a pending change exactly when
      the new value differs from the value read, so that writing back the
      original value withdraws the change, and null over null is no change. */
  function Set(row: RowData, column: string, value: Value): (r: RowData)
    ensures Tracked(row) ==> Tracked(r)
    ensures Tracked(row) ==> Get(r, column) == Some(value)
    ensures forall c :: c != column ==> Get(r, c) == Get(row, c)
    ensures column in row.values ==> r.values == row.values
    ensures column in row.values ==> (column in r.changes <==> row.values[column] != value)
    ensures r.columns == row.columns && r.table == row.table && r.pkCache == row.pkCache
  {
    if column !in row.values then row.(values := row.values[column := value])
    else if row.values[column] == value then row.(changes := row.changes - {column})
    else row.(changes := row.changes[column := value])
  }

  /** The as-written write and the intended one agree whenever the library
      does not fail and the column has no pending change. */
  lemma SetAgreesWithAsWritten(row: RowData, column: string, value: Value)
    requires column !in row.changes
    requires SetAsWritten(row, column, value).Ok?
    ensures SetAsWritten(row, column, value) == Ok(Set(row, column, value))
  {
    if column in row.values && row.values[column] == value {
      assert row.changes - {column} == row.changes;
    }
  }

  /** Writing a column and then writing back the value it was read with
      leaves the overlay as it was before, less any change of that column. */
  lemma {:induction false} SetBackWithdraws(row: RowData, column: string, w: Value)
    requires column in row.values
    ensures Set(Set(row, column, w), column, row.values[column]) == row.(changes := row.changes - {column})
  {
    var r1 := Set(row, column, w);
    assert r1.values == row.values;
    var r2 := Set(r1, column, row.values[column]);
    assert r2.changes == r1.changes - {column};
    assert r1.changes - {column} == row.changes - {column};
  }

  // ---------------------------------------------------------------------------
  // Committing

  /** `AcceptChanges`: every pending change overwrites (or adds) the value
      read for its column, and the overlay is emptied. */
  function AcceptChanges(row: RowData): (r: RowData)
    ensures !HasChanges(r) && Tracked(r)
    ensures forall c :: Get(r, c) == Get(row, c)
    ensures r.values.Keys == row.values.Keys + row.changes.Keys
    ensures r.columns == row.columns && r.table == row.table && r.pkCache == row.pkCache
  {
    row.(values := row.values + row.changes, changes := map[])
  }

  /** Committing twice commits once. */
  lemma AcceptChangesIdempotent(row: RowData)
    ensures AcceptChanges(AcceptChanges(row)) == AcceptChanges(row)
  {
    var r := AcceptChanges(row);
    assert r.values + r.changes == r.values;
  }

  // ---------------------------------------------------------------------------
  // Table and primary key

  /** `RowData.Metadata`: the table of the cached primary-key columns (the
      parent of the first of them), nothing when no key was cached; an empty
      cached column list makes `First()` fail. */
  function RowMetadata(row: RowData): (r: Result<Option<Metadata.MetadataTable>>)
    ensures row.pkCache.None? ==> r == Ok(None)
    ensures row.pkCache.Some? && |row.pkCache.value.columns| == 0 ==> r == Err(InvalidOperation)
    ensures r == Ok(None) ==> row.pkCache.None?
    ensures r.Ok? && r.value.Some? ==> row.pkCache.Some? && r.value.value == row.pkCache.value.owner
  {
    match row.pkCache
    case None => Ok(None)
    case Some(pc) => if |pc.columns| == 0 then Err(InvalidOperation) else Ok(Some(pc.owner))
  }

  /** `LoadMetadata(mt, cachePrimaryKey)`: records the table's full name and,
      when asked and the table has a primary key, the key's columns. */
  ghost function LoadMetadata(row: RowData, mt: Metadata.MetadataTable, cachePrimaryKey: bool): (r: RowData)
    ensures r.table == Some(Metadata.Fullname(mt))
    ensures cachePrimaryKey && Metadata.PrimaryKey(mt).Some? ==>
      r.pkCache == Some(PkCache(mt, Metadata.PrimaryKey(mt).value.columns))
    ensures !(cachePrimaryKey && Metadata.PrimaryKey(mt).Some?) ==> r.pkCache == row.pkCache
    ensures r.values == row.values && r.changes == row.changes && r.columns == row.columns
  {
    var withTable := row.(table := Some(Metadata.Fullname(mt)));
    if cachePrimaryKey && Metadata.PrimaryKey(mt).Some? then
      withTable.(pkCache := Some(PkCache(mt, Metadata.PrimaryKey(mt).value.columns)))
    else withTable
  }

  /** A table with a non-empty primary key, loaded with its key cached, is
      the table the row reports. */
  lemma LoadedMetadataReadsBack(row: RowData, mt: Metadata.MetadataTable)
    requires Metadata.PrimaryKey(mt).Some? && |Metadata.PrimaryKey(mt).value.columns| > 0
    ensures RowMetadata(LoadMetadata(row, mt, true)) == Ok(Some(mt))
  {
  }

  /** The values of the key columns the row has, in key order. */
  function KeyValues(row: RowData, cols: seq<Metadata.MetadataColumn>): (r: seq<Value>)
    ensures |r| <= |cols|
    ensures (forall i :: 0 <= i < |cols| ==> Get(row, cols[i].name).Some?) ==> |r| == |cols|
  {
    if |cols| == 0 then []
    else
      match Get(row, cols[0].name)
      case Some(v) => [v] + KeyValues(row, cols[1..])
      case None => KeyValues(row, cols[1..])
  }

  /** Condition `k` of group `g` is an equality on a field holding `v`, linked
      with AND unless it is the group's first. */
  ghost predicate KeyAt(r: Arena, g: GroupId, k: nat, v: Value)
    requires g < |r.groups| && k < |r.groups[g].conditions|
  {
    r.groups[g].conditions[k].op == Equal
    && r.groups[g].conditions[k].link == (if k == 0 then NoLink else AndLink)
    && r.groups[g].conditions[k].left < |r.fields|
    && r.fields[r.groups[g].conditions[k].left].value == v
  }

  /** `r` is `a` with one key equality per value of `vals` appended to group
      `g`; the fields already present, the group's other parts and the number
      of groups are as they were. */
  ghost predicate KeyGrowth(a: Arena, r: Arena, g: GroupId, vals: seq<Value>)
    requires g < |a.groups|
  {
    Valid(r) && r.tables == a.tables && r.builders == a.builders && r.joins == a.joins
    && |r.groups| == |a.groups| && |a.fields| <= |r.fields| && r.fields[..|a.fields|] == a.fields
    && r.groups[g] == a.groups[g].(conditions := r.groups[g].conditions)
    && |r.groups[g].conditions| == |a.groups[g].conditions| + |vals|
    && r.groups[g].conditions[..|a.groups[g].conditions|] == a.groups[g].conditions
    && (forall i :: 0 <= i < |vals| ==> !vals[i].NullValue?)
    && (forall i :: 0 <= i < |vals| ==> KeyAt(r, g, |a.groups[g].conditions| + i, vals[i]))
  }

  lemma KeyGrowthNothing(a: Arena, g: GroupId)
    requires Valid(a) && g < |a.groups|
    ensures KeyGrowth(a, a, g, [])
  {
    assert a.fields[..|a.fields|] == a.fields;
    assert a.groups[g].conditions[..|a.groups[g].conditions|] == a.groups[g].conditions;
  }

  /** A key equality appended to a group with no sub-groups. */
  lemma KeyGrowthOne(a: Arena, r: Result<Arena>, g: GroupId, tableName: string, v: Value)
    requires Valid(a) && g < |a.groups| && |a.groups[g].subGroups| == 0
    requires ValueConditionAdded(a, r, g, tableName, Equal, v, AndLink, true) && r.Ok?
    ensures KeyGrowth(a, r.value, g, [v])
  {
    var n := |a.groups[g].conditions|;
    var c := Condition(NewConditionLink(a.groups[g], AndLink), |a.fields|, Equal, None);
    assert r.value.groups[g] == a.groups[g].(conditions := a.groups[g].conditions + [c]);
    assert r.value.groups[g].conditions[..n] == a.groups[g].conditions;
    assert r.value.groups[g].conditions[n] == c;
  }

  /** Key growth composes. */
  lemma {:induction false} KeyGrowthThen(a: Arena, a1: Arena, r: Arena, g: GroupId, first: seq<Value>, rest: seq<Value>)
    requires g < |a.groups| && KeyGrowth(a, a1, g, first) && KeyGrowth(a1, r, g, rest)
    ensures KeyGrowth(a, r, g, first + rest)
  {
    var n := |a.groups[g].conditions|;
    var n1 := |a1.groups[g].conditions|;
    var vals := first + rest;
    assert r.fields[..|a.fields|] == a.fields by {
      assert r.fields[..|a.fields|] == r.fields[..|a1.fields|][..|a.fields|];
    }
    assert r.groups[g].conditions[..n] == a.groups[g].conditions by {
      assert r.groups[g].conditions[..n] == r.groups[g].conditions[..n1][..n];
    }
    forall i | 0 <= i < |vals| ensures KeyAt(r, g, n + i, vals[i]) {
      if i < |first| {
        assert KeyAt(a1, g, n + i, first[i]);
        assert r.groups[g].conditions[n + i] == a1.groups[g].conditions[n + i] by {
          assert r.groups[g].conditions[..n1][n + i] == a1.groups[g].conditions[n + i];
        }
        var left := a1.groups[g].conditions[n + i].left;
        assert r.fields[left] == a1.fields[left] by {
          assert r.fields[..|a1.fields|][left] == a1.fields[left];
        }
      } else {
        assert vals[i] == rest[i - |first|];
        assert KeyAt(r, g, n1 + (i - |first|), rest[i - |first|]);
      }
    }
    forall i | 0 <= i < |vals| ensures !vals[i].NullValue? {
      if i >= |first| {
        assert vals[i] == rest[i - |first|];
      }
    }
  }

  /** One AND-linked key equality `tableName.column = v`. */
  function KeyEquality(a: Arena, mdb: Option<Metadata.MetadataDatabase>, g: GroupId, tableName: string,
                       column: string, v: Value): (r: Result<Arena>)
    requires Valid(a) && g < |a.groups| && |a.groups[g].subGroups| == 0
    ensures v.NullValue? ==> r.Err?
    ensures r.Ok? ==> KeyGrowth(a, r.value, g, [v])
  {
    var r := AndOr(a, mdb, g, tableName, column, Equal, v, AndLink);
    if r.Ok? then KeyGrowthOne(a, r, g, tableName, v); r else r
  }

  /** The key equalities for the key columns the row has, in key order. */
  function KeyEqualities(a: Arena, mdb: Option<Metadata.MetadataDatabase>, g: GroupId, tableName: string,
                         row: RowData, cols: seq<Metadata.MetadataColumn>): (r: Result<Arena>)
    requires Valid(a) && g < |a.groups| && |a.groups[g].subGroups| == 0
    ensures r.Ok? ==> KeyGrowth(a, r.value, g, KeyValues(row, cols))
    decreases |cols|
  {
    if |cols| == 0 then KeyGrowthNothing(a, g); Ok(a)
    else
      match Get(row, cols[0].name)
      case None => KeyEqualities(a, mdb, g, tableName, row, cols[1..])
      case Some(v) =>
        var a1 :- KeyEquality(a, mdb, g, tableName, cols[0].name, v);
        var r :- KeyEqualities(a1, mdb, g, tableName, row, cols[1..]);
        KeyGrowthThen(a, a1, r, g, [v], KeyValues(row, cols[1..]));
        Ok(r)
  }

  /** `RowData.PrimaryKey(builder)`: nothing when the row does not know its
      table or key; otherwise a new WHERE group of the builder holding, for
      each key column the row has, in key order, the equality
      `table.column = value`, the first unlinked and the others linked with
      AND. The table is looked up among the builder's tables. */
  function RowPrimaryKey(a: Arena, mdb: Option<Metadata.MetadataDatabase>, row: RowData, b: BuilderId)
    : (r: Result<Option<(Arena, GroupId)>>)
    requires Valid(a) && b < |a.builders|
    ensures (row.pkCache.None? || row.table.None?) <==> r == Ok(None)
    ensures r.Ok? && r.value.Some? ==>
      var (a1, g) := r.value.value;
      (g == |a.groups| && |a1.groups| == |a.groups| + 1 && a1.tables == a.tables && a1.builders == a.builders
       && |a.fields| <= |a1.fields| && a1.fields[..|a.fields|] == a.fields
       && a1.groups[g].kind == WhereGroup && a1.groups[g].link == NoLink && a1.groups[g].subGroups == []
       && a1.groups[g].parent.None? && a1.groups[g].builder == Some(b)
       && |a1.groups[g].conditions| == |KeyValues(row, row.pkCache.value.columns)|
       && (forall i :: 0 <= i < |a1.groups[g].conditions| ==>
             KeyAt(a1, g, i, KeyValues(row, row.pkCache.value.columns)[i])))
    ensures (row.pkCache.Some? && row.table.Some?
             && exists i :: 0 <= i < |KeyValues(row, row.pkCache.value.columns)|
                            && KeyValues(row, row.pkCache.value.columns)[i].NullValue?) ==> r.Err?
  {
    match (row.pkCache, row.table)
    case (Some(pc), Some(table)) =>
      var (a1, g) := AddGroup(a, Group(WhereGroup, NoLink, [], [], None, Some(b)));
      var a2 :- KeyEqualities(a1, mdb, g, table, row, pc.columns);
      assert a2.fields[..|a.fields|] == a.fields by {
        assert a2.fields[..|a.fields|] == a2.fields[..|a1.fields|];
      }
      Ok(Some((a2, g)))
    case _ => Ok(None)
  }
}
