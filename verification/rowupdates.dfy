/** UPDATE statements generated from a row: `Update(row, ...)`, which builds a
    new UPDATE builder for the row's table, and `Update(builder, row, ...)`,
    which adds the row's pending changes to an existing one. Both assign
    columns with `SET` parameters, may add an OUTPUT table variable and
    replace the builder's WHERE group with the row's primary-key group. */
module RowUpdates {
  import opened Outcomes
  import opened Text
  import opened Collections
  import opened Values
  import opened SqlTypes
  import opened QueryModel
  import opened Literals
  import Statements
  import Lookup
  import Rows
  import Metadata

  // ---------------------------------------------------------------------------
  // Schema and table name

  /** A row's table name `schema.table` split at its first dot, when that dot
      is not the first character; otherwise there is no schema. */
  function SplitTableName(name: string): (r: (Option<string>, string))
    ensures r.0.Some? ==> |r.0.value| > 0 && '.' !in r.0.value && name == r.0.value + "." + r.1
    ensures r.0.None? ==> r.1 == name && ('.' !in name || name[0] == '.')
  {
    match IndexOf(name, '.')
    case Some(k) =>
      if k > 0 then
        assert name == name[..k] + "." + name[k + 1..];
        (Some(name[..k]), name[k + 1..])
      else (None, name)
    case None => (None, name)
  }

  /** Joining a dot-free schema and a table with a dot and splitting again
      gives both back. */
  lemma SplitTableNameRoundTrip(schema: string, table: string)
    requires |schema| > 0 && '.' !in schema
    ensures SplitTableName(schema + "." + table) == (Some(schema), table)
  {
    var name := schema + "." + table;
    assert name[|schema|] == '.' && name[..|schema|] == schema;
    assert IndexOf(name, '.') == Some(|schema|);
    assert name[|schema| + 1..] == table;
  }

  /** The full name of a catalogue table whose schema and name hold no dot
      splits back into them; a table without a schema gives no schema. */
  lemma FullnameSplits(t: Metadata.MetadataTable)
    requires '.' !in t.schema && '.' !in t.name
    ensures SplitTableName(Metadata.Fullname(t)) == (if t.schema == "" then None else Some(t.schema), t.name)
  {
    if t.schema != "" {
      SplitTableNameRoundTrip(t.schema, t.name);
    }
  }

  // ---------------------------------------------------------------------------
  // SET assignments

  /** A catalogue column the row may assign: known and not read-only. */
  predicate Settable(mt: Metadata.MetadataTable, key: string) {
    key in mt.columns && !Metadata.IsReadOnly(mt.columns[key])
  }

  /** The row's columns that `Update` assigns in full mode, in row order. */
  function SettableColumns(mt: Metadata.MetadataTable, cols: seq<string>): (r: seq<string>)
    ensures forall i :: 0 <= i < |r| ==> Settable(mt, r[i]) && r[i] in cols
    ensures forall c :: c in cols && Settable(mt, c) ==> c in r
    ensures |r| <= |cols|
  {
    if |cols| == 0 then []
    else if Settable(mt, cols[0]) then [cols[0]] + SettableColumns(mt, cols[1..])
    else SettableColumns(mt, cols[1..])
  }

  /** The current values of columns the row has, in order. */
  function CurrentValues(row: RowData, keys: seq<string>): (r: seq<Value>)
    requires forall i :: 0 <= i < |keys| ==> Rows.Get(row, keys[i]).Some?
    ensures |r| == |keys|
    ensures forall i :: 0 <= i < |keys| ==> Rows.Get(row, keys[i]) == Some(r[i])
  {
    if |keys| == 0 then []
    else [Rows.Get(row, keys[0]).value] + CurrentValues(row, keys[1..])
  }

  /** Field `fid` is the `SET` parameter `@key` holding `v`. */
  ghost predicate Assigns(a: Arena, fid: FieldId, key: string, v: Value) {
    fid < |a.fields| && a.fields[fid].kind.ParameterField?
    && a.fields[fid].kind.parameterName == "@" + key && a.fields[fid].value == v
  }

  /** `r` is `a` with one `SET` parameter per key appended to table `t`, in
      order, holding the value at the same position; nothing else changes
      but the fields appended. */
  ghost predicate SetsAppended(a: Arena, r: Arena, t: TableId, keys: seq<string>, vals: seq<Value>)
    requires t < |a.tables|
  {
    OnlyFieldsOf(a, r, t) && |vals| == |keys|
    && |r.tables[t].fields| == |a.tables[t].fields| + |keys|
    && r.tables[t].fields[..|a.tables[t].fields|] == a.tables[t].fields
    && (forall i :: 0 <= i < |keys| ==> Assigns(r, r.tables[t].fields[|a.tables[t].fields| + i], keys[i], vals[i]))
  }

  /** `r` differs from `a` only in fields appended and in the field list of
      table `t`. */
  ghost predicate OnlyFieldsOf(a: Arena, r: Arena, t: TableId)
    requires t < |a.tables|
  {
    Valid(r) && r.builders == a.builders && r.groups == a.groups && r.joins == a.joins
    && |r.tables| == |a.tables| && r.tables == a.tables[t := r.tables[t]]
    && r.tables[t] == a.tables[t].(fields := r.tables[t].fields)
    && |a.fields| <= |r.fields| && r.fields[..|a.fields|] == a.fields
  }

  lemma SetsNothing(a: Arena, t: TableId)
    requires Valid(a) && t < |a.tables|
    ensures SetsAppended(a, a, t, [], [])
  {
    assert a.fields[..|a.fields|] == a.fields;
    assert a.tables[t].fields[..|a.tables[t].fields|] == a.tables[t].fields;
  }

  /** Appended assignments compose. */
  lemma {:induction false} SetsThen(a: Arena, a1: Arena, r: Arena, t: TableId,
                                    k1: seq<string>, v1: seq<Value>, k2: seq<string>, v2: seq<Value>)
    requires t < |a.tables| && SetsAppended(a, a1, t, k1, v1) && SetsAppended(a1, r, t, k2, v2)
    ensures SetsAppended(a, r, t, k1 + k2, v1 + v2)
  {
    var n := |a.tables[t].fields|;
    var n1 := |a1.tables[t].fields|;
    var keys, vals := k1 + k2, v1 + v2;
    assert r.fields[..|a.fields|] == a.fields by {
      assert r.fields[..|a.fields|] == r.fields[..|a1.fields|][..|a.fields|];
    }
    assert r.tables[t].fields[..n] == a.tables[t].fields by {
      assert r.tables[t].fields[..n] == r.tables[t].fields[..n1][..n];
    }
    forall i | 0 <= i < |keys| ensures Assigns(r, r.tables[t].fields[n + i], keys[i], vals[i]) {
      if i < |k1| {
        assert Assigns(a1, a1.tables[t].fields[n + i], k1[i], v1[i]);
        assert r.tables[t].fields[n + i] == a1.tables[t].fields[n + i] by {
          assert r.tables[t].fields[..n1][n + i] == a1.tables[t].fields[n + i];
        }
        var fid := a1.tables[t].fields[n + i];
        assert r.fields[fid] == a1.fields[fid] by {
          assert r.fields[..|a1.fields|][fid] == a1.fields[fid];
        }
      } else {
        assert keys[i] == k2[i - |k1|] && vals[i] == v2[i - |k1|];
        assert Assigns(r, r.tables[t].fields[n1 + (i - |k1|)], k2[i - |k1|], v2[i - |k1|]);
      }
    }
  }

  /** The type attributes `Update(row, ...)` passes to `Set` and to the OUTPUT
      columns: the column's length, precision and scale, in that order. */
  function TypeArguments(c: Metadata.MetadataColumn): (r: (int, int, int))
    ensures r.1 == c.precision && r.2 == c.scale
  {
    (c.length, c.precision, c.scale)
  }

  /** The field declares the SQL type, length, precision and scale of `c`. */
  predicate Carries(f: Field, c: Metadata.MetadataColumn) {
    f.sqlType == c.sqlType && f.maxLength == c.length && f.precision == c.precision && f.scale == c.scale
  }

  /** The column whose type a parameter built from column `c` declares, on a
      table named `tableName`: `PopulateField` prefers the column of the same
      name in the builder's own catalogue. */
  function DeclaredColumn(mdb: Option<Metadata.MetadataDatabase>, tableName: string, key: string,
                          c: Metadata.MetadataColumn): (r: Metadata.MetadataColumn)
    ensures Lookup.BuilderColumn(mdb, tableName, key).None? ==> r == c
    ensures Lookup.BuilderColumn(mdb, tableName, key).Some? ==> r == Lookup.BuilderColumn(mdb, tableName, key).value
  {
    Lookup.BuilderColumn(mdb, tableName, key).GetOr(c)
  }

  /** `Set(up, key, value, c.SqlDataType, c.DataType, ...)`: one `SET` parameter. */
  function AssignOne(a: Arena, mdb: Option<Metadata.MetadataDatabase>, t: TableId, key: string, v: Value,
                     c: Metadata.MetadataColumn): (r: Arena)
    requires Valid(a) && t < |a.tables| && a.tables[t].kind.UpdateTable? && a.tables[t].builder.Some?
    ensures SetsAppended(a, r, t, [key], [v])
    ensures Carries(r.fields[r.tables[t].fields[|a.tables[t].fields|]], DeclaredColumn(mdb, FullName(a.tables[t]), key, c))
  {
    var (length, precision, scale) := TypeArguments(c);
    var s := Statements.Set(a, mdb, t, key, v, c.sqlType, c.dataType, length, precision, scale);
    var r := s.value.0;
    assert r.tables[t].fields[|a.tables[t].fields|] == s.value.1;
    assert r.tables[t].fields[..|a.tables[t].fields|] == a.tables[t].fields;
    r
  }

  /** `r` is `a` with one `SET` parameter per key, each holding the row's
      current value of that key. */
  ghost predicate AssignsKeys(a: Arena, r: Arena, t: TableId, row: RowData, keys: seq<string>)
    requires t < |a.tables|
  {
    (forall i :: 0 <= i < |keys| ==> Rows.Get(row, keys[i]).Some?)
    && SetsAppended(a, r, t, keys, CurrentValues(row, keys))
  }

  lemma AssignsNothing(a: Arena, t: TableId, row: RowData)
    requires Valid(a) && t < |a.tables|
    ensures AssignsKeys(a, a, t, row, [])
  {
    SetsNothing(a, t);
  }

  /** One assignment followed by others. */
  lemma AssignsOneMore(a: Arena, a1: Arena, r: Arena, t: TableId, row: RowData, key: string, v: Value, rest: seq<string>)
    requires t < |a.tables| && Rows.Get(row, key) == Some(v)
    requires SetsAppended(a, a1, t, [key], [v]) && AssignsKeys(a1, r, t, row, rest)
    ensures AssignsKeys(a, r, t, row, [key] + rest)
  {
    var keys := [key] + rest;
    assert keys[1..] == rest;
    assert CurrentValues(row, keys) == [v] + CurrentValues(row, rest);
    SetsThen(a, a1, r, t, [key], [v], rest, CurrentValues(row, rest));
  }

  /** The first key's assignment followed by those of the others. */
  lemma AssignsFirst(a: Arena, a1: Arena, r: Arena, t: TableId, row: RowData, keys: seq<string>, v: Value)
    requires t < |a.tables| && |keys| > 0 && Rows.Get(row, keys[0]) == Some(v)
    requires SetsAppended(a, a1, t, [keys[0]], [v]) && AssignsKeys(a1, r, t, row, keys[1..])
    ensures AssignsKeys(a, r, t, row, keys)
  {
    AssignsOneMore(a, a1, r, t, row, keys[0], v, keys[1..]);
    assert [keys[0]] + keys[1..] == keys;
  }

  lemma SettableTail(mt: Metadata.MetadataTable, keys: seq<string>)
    requires |keys| > 0 && Settable(mt, keys[0])
    ensures (forall i :: 0 <= i < |keys| ==> Settable(mt, keys[i]))
            <==> (forall i :: 0 <= i < |keys[1..]| ==> Settable(mt, keys[1..][i]))
  {
    forall i | 1 <= i < |keys| ensures keys[i] == keys[1..][i - 1] { }
  }

  /** The `onlyChanges` loop: each changed key must be a settable catalogue
      column, else the update fails with an invalid operation. */
  function AssignChanges(a: Arena, mdb: Option<Metadata.MetadataDatabase>, t: TableId, mt: Metadata.MetadataTable,
                         row: RowData, keys: seq<string>): (r: Result<Arena>)
    requires Valid(a) && t < |a.tables| && a.tables[t].kind.UpdateTable? && a.tables[t].builder.Some?
    requires forall i :: 0 <= i < |keys| ==> keys[i] in row.changes
    ensures r.Ok? <==> (forall i :: 0 <= i < |keys| ==> Settable(mt, keys[i]))
    ensures r.Err? ==> r.error == InvalidOperation
    ensures r.Ok? ==> AssignsKeys(a, r.value, t, row, keys)
    ensures r.Ok? ==> ParametersTyped(r.value, t, |a.tables[t].fields|, mdb, FullName(a.tables[t]), mt, keys)
    decreases |keys|
  {
    if |keys| == 0 then AssignsNothing(a, t, row); Ok(a)
    else if !Settable(mt, keys[0]) then Err(InvalidOperation)
    else
      var v := row.changes[keys[0]];
      var a1 := AssignOne(a, mdb, t, keys[0], v, mt.columns[keys[0]]);
      var r := AssignChanges(a1, mdb, t, mt, row, keys[1..]);
      SettableTail(mt, keys);
      if r.Err? then r
      else
        AssignsFirst(a, a1, r.value, t, row, keys, v);
        TypedFirst(a, a1, r.value, t, mdb, mt, row, keys, v);
        r
  }

  /** The full-mode loop: each row column that is a settable catalogue column
      is assigned its current value; the others are skipped. Reading a
      settable column the row does not have is an argument error. */
  function AssignColumns(a: Arena, mdb: Option<Metadata.MetadataDatabase>, t: TableId, mt: Metadata.MetadataTable,
                         row: RowData, cols: seq<string>): (r: Result<Arena>)
    requires Valid(a) && t < |a.tables| && a.tables[t].kind.UpdateTable? && a.tables[t].builder.Some?
    ensures r.Ok? <==> (forall i :: 0 <= i < |cols| && Settable(mt, cols[i]) ==> Rows.Get(row, cols[i]).Some?)
    ensures r.Err? ==> r.error == ArgumentError
    ensures r.Ok? ==> AssignsKeys(a, r.value, t, row, SettableColumns(mt, cols))
    decreases |cols|
  {
    if |cols| == 0 then AssignsNothing(a, t, row); Ok(a)
    else
      assert forall i :: 1 <= i < |cols| ==> cols[i] == cols[1..][i - 1];
      if !Settable(mt, cols[0]) then AssignColumns(a, mdb, t, mt, row, cols[1..])
      else
        match Rows.Column(row, cols[0])
        case Err(e) => Err(e)
        case Ok(v) =>
          var a1 := AssignOne(a, mdb, t, cols[0], v, mt.columns[cols[0]]);
          var r := AssignColumns(a1, mdb, t, mt, row, cols[1..]);
          if r.Err? then r
          else
            AssignsOneMore(a, a1, r.value, t, row, cols[0], v, SettableColumns(mt, cols[1..]));
            r
  }

  // ---------------------------------------------------------------------------
  // OUTPUT columns

  /** `r` is `a` with `k` more columns in table `pt` (the OUTPUT table
      variable's table); nothing else changes but the fields appended. */
  ghost predicate OutputGrew(a: Arena, r: Arena, pt: TableId, k: nat)
    requires pt < |a.tables|
  {
    Valid(r) && r.builders == a.builders && r.groups == a.groups && r.joins == a.joins
    && |r.tables| == |a.tables| && r.tables == a.tables[pt := r.tables[pt]]
    && r.tables[pt] == a.tables[pt].(fields := r.tables[pt].fields)
    && |r.tables[pt].fields| == |a.tables[pt].fields| + k
    && r.tables[pt].fields[..|a.tables[pt].fields|] == a.tables[pt].fields
    && |a.fields| <= |r.fields| && r.fields[..|a.fields|] == a.fields
  }

  /** The column whose type an OUTPUT column built from `entry` declares. */
  function EntryColumn(mdb: Option<Metadata.MetadataDatabase>, tableName: string,
                       entry: (string, Metadata.MetadataColumn)): Metadata.MetadataColumn {
    DeclaredColumn(mdb, tableName, entry.0, entry.1)
  }

  /** From position `n` on, table `pt` of `r` holds one column per entry, each
      declaring the type of the entry's column as `PopulateField` leaves it. */
  ghost predicate ColumnsTyped(r: Arena, pt: TableId, n: nat, mdb: Option<Metadata.MetadataDatabase>,
                               tableName: string, entries: seq<(string, Metadata.MetadataColumn)>) {
    pt < |r.tables| && n + |entries| <= |r.tables[pt].fields|
    && forall j :: n <= j < n + |entries| ==>
         r.tables[pt].fields[j] < |r.fields|
         && Carries(r.fields[r.tables[pt].fields[j]], EntryColumn(mdb, tableName, entries[j - n]))
  }

  /** One OUTPUT column per entry, named and typed as the entry says. */
  function OutputColumns(a: Arena, mdb: Option<Metadata.MetadataDatabase>, p: FieldId,
                         entries: seq<(string, Metadata.MetadataColumn)>): (r: Result<Arena>)
    requires Valid(a) && p < |a.fields| && a.fields[p].kind.TableParameterField?
    ensures a.tables[a.fields[p].kind.parameterTable].builder.Some? ==> r.Ok?
    ensures r.Ok? ==> OutputGrew(a, r.value, a.fields[p].kind.parameterTable, |entries|)
    ensures r.Ok? ==> ColumnsTyped(r.value, a.fields[p].kind.parameterTable, |a.tables[a.fields[p].kind.parameterTable].fields|,
                                   mdb, FullName(a.tables[a.fields[p].kind.parameterTable]), entries)
    decreases |entries|
  {
    var pt := a.fields[p].kind.parameterTable;
    assert FieldOk(SizesOf(a), a.fields[p]);
    if |entries| == 0 then
      assert a.fields[..|a.fields|] == a.fields;
      Ok(a)
    else
      var (name, c) := entries[0];
      var (length, precision, scale) := TypeArguments(c);
      var s1 := Statements.OutputColumn(a, mdb, p, name, c.sqlType, length, precision, scale);
      if s1.Err? then Err(s1.error)
      else
        var a1 := s1.value.0;
        OutputGrewOne(a, s1, pt, Field(ColumnField, name, None, Some(pt), NullValue, c.sqlType, length, precision, scale));
        FieldKept(a, a1, p);
        var r :- OutputColumns(a1, mdb, p, entries[1..]);
        OutputGrewThen(a, a1, r, pt, 1, |entries| - 1);
        ColumnsTypedFirst(a, a1, r, pt, mdb, entries);
        Ok(r)
  }

  lemma ColumnsTypedFirst(a: Arena, a1: Arena, r: Arena, pt: TableId, mdb: Option<Metadata.MetadataDatabase>,
                          entries: seq<(string, Metadata.MetadataColumn)>)
    requires pt < |a.tables| && |entries| > 0
    requires OutputGrew(a, a1, pt, 1) && OutputGrew(a1, r, pt, |entries| - 1)
    requires Carries(a1.fields[a1.tables[pt].fields[|a.tables[pt].fields|]],
                     EntryColumn(mdb, FullName(a.tables[pt]), entries[0]))
    requires ColumnsTyped(r, pt, |a1.tables[pt].fields|, mdb, FullName(a1.tables[pt]), entries[1..])
    ensures ColumnsTyped(r, pt, |a.tables[pt].fields|, mdb, FullName(a.tables[pt]), entries)
  {
    var n := |a.tables[pt].fields|;
    var n1 := |a1.tables[pt].fields|;
    assert FullName(a1.tables[pt]) == FullName(a.tables[pt]);
    var fid := a1.tables[pt].fields[n];
    assert r.tables[pt].fields[n] == fid by {
      assert r.tables[pt].fields[..n1][n] == a1.tables[pt].fields[n];
    }
    assert fid < |a1.fields|;
    assert r.fields[fid] == a1.fields[fid] by {
      assert r.fields[..|a1.fields|][fid] == a1.fields[fid];
    }
    forall j | n < j < n + |entries|
      ensures r.tables[pt].fields[j] < |r.fields|
              && Carries(r.fields[r.tables[pt].fields[j]], EntryColumn(mdb, FullName(a.tables[pt]), entries[j - n]))
    {
      assert entries[1..][j - n1] == entries[j - n];
    }
  }

  /** A field of `a` is unchanged in an arena that only appended fields. */
  lemma FieldKept(a: Arena, r: Arena, f: FieldId)
    requires f < |a.fields| <= |r.fields| && r.fields[..|a.fields|] == a.fields
    ensures r.fields[f] == a.fields[f]
  {
    assert r.fields[..|a.fields|][f] == a.fields[f];
  }

  lemma OutputGrewOne(a: Arena, s: Result<(Arena, FieldId)>, pt: TableId, f: Field)
    requires Valid(a) && pt < |a.tables| && Statements.FieldAppended(a, s, pt, f) && s.Ok?
    ensures OutputGrew(a, s.value.0, pt, 1)
  {
  }

  lemma OutputGrewThen(a: Arena, a1: Arena, r: Arena, pt: TableId, k1: nat, k2: nat)
    requires pt < |a.tables| && OutputGrew(a, a1, pt, k1) && OutputGrew(a1, r, pt, k2)
    ensures OutputGrew(a, r, pt, k1 + k2)
  {
    assert r.fields[..|a.fields|] == r.fields[..|a1.fields|][..|a.fields|];
  }

  /** The primary-key columns as OUTPUT entries: each named after itself. */
  function KeyEntries(cols: seq<Metadata.MetadataColumn>): (r: seq<(string, Metadata.MetadataColumn)>)
    ensures |r| == |cols| && forall i :: 0 <= i < |cols| ==> r[i] == (cols[i].name, cols[i])
  {
    if |cols| == 0 then [] else [(cols[0].name, cols[0])] + KeyEntries(cols[1..])
  }

  /** The requested output fields as OUTPUT entries: each must be a catalogue
      column (the indexer returns null for a missing one, which is then
      dereferenced). */
  function FieldEntries(mt: Metadata.MetadataTable, names: seq<string>): (r: Result<seq<(string, Metadata.MetadataColumn)>>)
    ensures r.Ok? <==> (forall i :: 0 <= i < |names| ==> names[i] in mt.columns)
    ensures r.Err? ==> r.error == NullReference
    ensures r.Ok? ==> |r.value| == |names| && forall i :: 0 <= i < |names| ==> r.value[i] == (names[i], mt.columns[names[i]])
  {
    if |names| == 0 then Ok([])
    else
      match Metadata.ColumnAt(mt, names[0])
      case None => Err(NullReference)
      case Some(c) =>
        var rest := FieldEntries(mt, names[1..]);
        assert rest.Ok? <==> (forall i :: 1 <= i < |names| ==> names[i] in mt.columns) by {
          forall i | 1 <= i < |names| ensures names[i] == names[1..][i - 1] { }
        }
        match rest
        case Err(e) => Err(e)
        case Ok(tail) => Ok([(names[0], c)] + tail)
  }

  /** The OUTPUT table variable currently installed on UPDATE target `t`. */
  ghost predicate OutputHas(a: Arena, t: TableId, k: nat) {
    t < |a.tables| && a.tables[t].kind.UpdateTable? && a.tables[t].kind.updateOutput.Some?
    && a.tables[t].kind.updateOutput.value < |a.fields|
    && a.fields[a.tables[t].kind.updateOutput.value].kind.TableParameterField?
    && a.fields[a.tables[t].kind.updateOutput.value].kind.parameterTable < |a.tables|
    && |a.tables[a.fields[a.tables[t].kind.updateOutput.value].kind.parameterTable].fields| == k
  }

  /** The OUTPUT table variable of target `t` holds one column per entry,
      each declaring the type of the entry's column as `PopulateField`
      leaves it on the variable's `inserted` table. */
  ghost predicate OutputTyped(r: Arena, t: TableId, mdb: Option<Metadata.MetadataDatabase>,
                              entries: seq<(string, Metadata.MetadataColumn)>) {
    OutputHas(r, t, |entries|)
    && ColumnsTyped(r, r.fields[r.tables[t].kind.updateOutput.value].kind.parameterTable, 0, mdb, "inserted", entries)
  }

  /** `up.Output()` followed by one OUTPUT column per entry. */
  function OutputWith(a: Arena, mdb: Option<Metadata.MetadataDatabase>, t: TableId,
                      entries: seq<(string, Metadata.MetadataColumn)>): (r: Arena)
    requires Valid(a) && t < |a.tables| && a.tables[t].kind.UpdateTable? && a.tables[t].builder.Some?
    ensures Valid(r) && OutputHas(r, t, |entries|) && OutputTyped(r, t, mdb, entries)
    ensures |r.tables| == |a.tables| + 1 && r.tables[t].fields == a.tables[t].fields
            && r.tables[t].builder == a.tables[t].builder && r.tables[t].name == a.tables[t].name
            && r.builders == a.builders && r.groups == a.groups
            && |a.fields| <= |r.fields| && r.fields[..|a.fields|] == a.fields
  {
    var (a1, p) := Statements.UpdateOutput(a, mdb, t, None).value;
    assert a1.tables[t] == a.tables[t].(kind := UpdateTable(Some(p))) by {
      assert a1.tables[..|a.tables|][t] == a1.tables[t];
    }
    assert a1.tables[|a.tables|].builder == a.tables[t].builder;
    var r := OutputColumns(a1, mdb, p, entries).value;
    assert FullName(a1.tables[|a.tables|]) == "inserted";
    PrefixTrans(a.fields, a1.fields, r.fields);
    PrefixAt(a1.fields, r.fields, p);
    r
  }

  /** The OUTPUT part of `Update(row, ...)` as written: `outputPrimaryKey`
      calls `Output()` and adds the key columns, then a non-empty
      `outputFields` calls `Output()` again, which installs a new, empty
      table variable in place of the first. */
  ghost function OutputsAsWritten(a: Arena, mdb: Option<Metadata.MetadataDatabase>, t: TableId,
                                  mt: Option<Metadata.MetadataTable>, outputPrimaryKey: bool,
                                  outputFields: seq<string>): (r: Result<Arena>)
    requires Valid(a) && t < |a.tables| && a.tables[t].kind.UpdateTable? && a.tables[t].builder.Some?
    ensures r.Ok? && outputPrimaryKey && |outputFields| > 0 ==> OutputHas(r.value, t, |outputFields|)
  {
    var a1 :-
      if !outputPrimaryKey then Ok(a)
      else if mt.None? || Metadata.PrimaryKey(mt.value).None? then Err(NullReference)
      else Ok(OutputWith(a, mdb, t, KeyEntries(Metadata.PrimaryKey(mt.value).value.columns)));
    if |outputFields| == 0 then Ok(a1)
    else if mt.None? then Err(NullReference)
    else
      var entries :- FieldEntries(mt.value, outputFields);
      Ok(OutputWith(a1, mdb, t, entries))
  }

  /** With both options, the table variable that survives holds only the
      requested fields: the key columns are gone. */
  lemma KeyOutputLostAsWritten(a: Arena, mdb: Option<Metadata.MetadataDatabase>, t: TableId,
                               mt: Metadata.MetadataTable, outputFields: seq<string>)
    requires Valid(a) && t < |a.tables| && a.tables[t].kind.UpdateTable? && a.tables[t].builder.Some?
    requires Metadata.PrimaryKey(mt).Some? && |Metadata.PrimaryKey(mt).value.columns| > 0
    requires |outputFields| > 0 && forall i :: 0 <= i < |outputFields| ==> outputFields[i] in mt.columns
    ensures OutputsAsWritten(a, mdb, t, Some(mt), true, outputFields).Ok?
    ensures !OutputHas(OutputsAsWritten(a, mdb, t, Some(mt), true, outputFields).value, t,
                       |Metadata.PrimaryKey(mt).value.columns| + |outputFields|)
  {
  }

  /** The OUTPUT part as intended: one table variable holding the key
      columns (when asked) followed by the requested fields. */
  ghost function Outputs(a: Arena, mdb: Option<Metadata.MetadataDatabase>, t: TableId,
                         mt: Option<Metadata.MetadataTable>, outputPrimaryKey: bool,
                         outputFields: seq<string>): (r: Result<Arena>)
    requires Valid(a) && t < |a.tables| && a.tables[t].kind.UpdateTable? && a.tables[t].builder.Some?
    ensures r.Ok? && (outputPrimaryKey || |outputFields| > 0) ==>
      (mt.Some? && (outputPrimaryKey ==> Metadata.PrimaryKey(mt.value).Some?)
       && OutputHas(r.value, t, (if outputPrimaryKey then |Metadata.PrimaryKey(mt.value).value.columns| else 0) + |outputFields|))
    ensures !outputPrimaryKey && |outputFields| == 0 ==> r == Ok(a)
    ensures (outputPrimaryKey || |outputFields| > 0) && mt.None? ==> r == Err(NullReference)
    ensures outputPrimaryKey && mt.Some? && Metadata.PrimaryKey(mt.value).None? ==> r == Err(NullReference)
    ensures mt.Some? && (exists i :: 0 <= i < |outputFields| && outputFields[i] !in mt.value.columns) ==> r.Err?
    ensures r.Ok? ==>
      (|a.tables| <= |r.value.tables| && r.value.tables[t].fields == a.tables[t].fields
       && r.value.tables[t].builder == a.tables[t].builder && r.value.tables[t].name == a.tables[t].name
       && r.value.builders == a.builders && r.value.groups == a.groups
       && |a.fields| <= |r.value.fields| && r.value.fields[..|a.fields|] == a.fields)
  {
    if !outputPrimaryKey && |outputFields| == 0 then
      assert a.fields[..|a.fields|] == a.fields;
      Ok(a)
    else if mt.None? then Err(NullReference)
    else
      var keys :-
        if !outputPrimaryKey then Ok([])
        else if Metadata.PrimaryKey(mt.value).None? then Err(NullReference)
        else Ok(KeyEntries(Metadata.PrimaryKey(mt.value).value.columns));
      var fields :- FieldEntries(mt.value, outputFields);
      Ok(OutputWith(a, mdb, t, keys + fields))
  }

  // ---------------------------------------------------------------------------
  // WHERE

  /** `builder.WhereConditions = row.PrimaryKey(builder)`: the row's key group
      becomes the builder's WHERE group, or the builder has none when the row
      does not know its table or key. */
  function WithPrimaryKey(a: Arena, mdb: Option<Metadata.MetadataDatabase>, row: RowData, b: BuilderId): (r: Result<Arena>)
    requires Valid(a) && b < |a.builders|
    ensures r.Ok? ==>
      (Valid(r.value) && r.value.tables == a.tables && |r.value.builders| == |a.builders|
       && |a.fields| <= |r.value.fields| && r.value.fields[..|a.fields|] == a.fields
       && r.value.builders == a.builders[b := r.value.builders[b]]
       && r.value.builders[b] == a.builders[b].(where := r.value.builders[b].where)
       && (r.value.builders[b].where.Some? <==> (row.pkCache.Some? && row.table.Some?)))
    ensures r.Ok? && row.pkCache.Some? && row.table.Some? ==>
      var w := r.value.builders[b].where.value;
      (w == |a.groups| && w < |r.value.groups|
       && |r.value.groups[w].conditions| == |Rows.KeyValues(row, row.pkCache.value.columns)|
       && forall i :: 0 <= i < |r.value.groups[w].conditions| ==>
            Rows.KeyAt(r.value, w, i, Rows.KeyValues(row, row.pkCache.value.columns)[i]))
    ensures (row.pkCache.None? || row.table.None?) ==> r.Ok?
  {
    var pk :- Rows.RowPrimaryKey(a, mdb, row, b);
    match pk
    case None =>
      assert a.fields[..|a.fields|] == a.fields;
      Ok(SetBuilder(a, b, a.builders[b].(where := None)))
    case Some((a1, g)) => Ok(SetBuilder(a1, b, a1.builders[b].(where := Some(g))))
  }

  // ---------------------------------------------------------------------------
  // Update(row, ...)

  /** The new UPDATE builder and its target table, named after the row's
      table (split into schema and name). */
  function UpdateTarget(a: Arena, table: string): (r: (Arena, BuilderId, TableId))
    requires Valid(a)
    ensures Valid(r.0) && r.1 == |a.builders| && r.2 == |a.tables|
    ensures |r.0.builders| == |a.builders| + 1 && r.0.builders[r.1].kind == UpdateStatement
    ensures r.0.builders[r.1].parent.None? && r.0.builders[r.1].tables == [r.2]
    ensures |r.0.tables| == |a.tables| + 1 && r.0.tables[r.2].kind.UpdateTable?
    ensures r.0.tables[r.2] == Table(UpdateTable(None), SplitTableName(table).1, SplitTableName(table).0, None, [], Some(r.1))
  {
    var (a1, b) := Statements.NewStatement(a, UpdateStatement, None, false);
    var (schema, name) := SplitTableName(table);
    var (a2, t) := Statements.UpdateTableOf(a1, b, name, schema);
    (a2, b, t)
  }

  /** `r` assigns every changed column its pending value, in some order of
      the changed columns. */
  ghost predicate AssignsChanges(a: Arena, r: Arena, t: TableId, row: RowData)
    requires t < |a.tables|
  {
    exists keys :: Distinct(keys) && (forall k :: k in keys <==> k in row.changes) && AssignsKeys(a, r, t, row, keys)
  }

  /** The `onlyChanges` part of `Update(row, ...)`: the changed keys in the
      dictionary's enumeration order. */
  ghost function AssignAllChanges(a: Arena, mdb: Option<Metadata.MetadataDatabase>, t: TableId,
                                  mt: Metadata.MetadataTable, row: RowData): (r: Result<Arena>)
    requires Valid(a) && t < |a.tables| && a.tables[t].kind.UpdateTable? && a.tables[t].builder.Some?
    ensures r.Ok? <==> (forall k :: k in row.changes ==> Settable(mt, k))
    ensures r.Err? ==> r.error == InvalidOperation
    ensures r.Ok? ==> AssignsChanges(a, r.value, t, row) && OnlyFieldsOf(a, r.value, t)
  {
    var keys := Enumerate(row.changes.Keys);
    var r := AssignChanges(a, mdb, t, mt, row, keys);
    EnumeratedSettable(mt, row, keys);
    if r.Ok? then ChangesWitness(a, r.value, t, row, keys); r else r
  }

  lemma EnumeratedSettable(mt: Metadata.MetadataTable, row: RowData, keys: seq<string>)
    requires forall k :: k in keys <==> k in row.changes
    ensures (forall k :: k in row.changes ==> Settable(mt, k)) <==> (forall i :: 0 <= i < |keys| ==> Settable(mt, keys[i]))
  {
    forall k | k in row.changes ensures exists i :: 0 <= i < |keys| && keys[i] == k {
      assert k in keys;
    }
  }

  lemma ChangesWitness(a: Arena, r: Arena, t: TableId, row: RowData, keys: seq<string>)
    requires t < |a.tables| && Distinct(keys) && (forall k :: k in keys <==> k in row.changes)
    requires AssignsKeys(a, r, t, row, keys)
    ensures AssignsChanges(a, r, t, row) && OnlyFieldsOf(a, r, t)
  {
  }

  lemma NoChanges(row: RowData)
    requires !Rows.HasChanges(row)
    ensures forall k :: k !in row.changes
  {
    assert row.changes == map[];
  }

  /** The `SET` part of `Update(row, true, ...)`: the changed columns, which
      need the catalogue table. */
  ghost function ChangedAssignments(a: Arena, mdb: Option<Metadata.MetadataDatabase>, t: TableId,
                                    mt: Option<Metadata.MetadataTable>, row: RowData): (r: Result<Arena>)
    requires Valid(a) && t < |a.tables| && a.tables[t].kind.UpdateTable? && a.tables[t].builder.Some?
    ensures Rows.HasChanges(row) && mt.None? ==> r == Err(NullReference)
    ensures mt.Some? && !(forall k :: k in row.changes ==> Settable(mt.value, k)) ==> r == Err(InvalidOperation)
    ensures r.Ok? ==> AssignsChanges(a, r.value, t, row) && OnlyFieldsOf(a, r.value, t)
  {
    if !Rows.HasChanges(row) then
      NoChanges(row);
      AssignsNothing(a, t, row);
      ChangesWitness(a, a, t, row, []);
      Ok(a)
    else if mt.None? then Err(NullReference)
    else
      var r := AssignAllChanges(a, mdb, t, mt.value, row);
      assert !(forall k :: k in row.changes ==> Settable(mt.value, k)) ==> r == Err(InvalidOperation);
      r
  }

  /** The `SET` part of `Update(row, false, ...)`: every row column the
      catalogue table knows as settable. */
  ghost function FullAssignments(a: Arena, mdb: Option<Metadata.MetadataDatabase>, t: TableId,
                                 mt: Option<Metadata.MetadataTable>, row: RowData): (r: Result<Arena>)
    requires Valid(a) && t < |a.tables| && a.tables[t].kind.UpdateTable? && a.tables[t].builder.Some?
    ensures |row.columns| > 0 && mt.None? ==> r == Err(NullReference)
    ensures r.Ok? && mt.Some? ==> AssignsKeys(a, r.value, t, row, SettableColumns(mt.value, row.columns))
    ensures r.Ok? && mt.None? ==> r.value == a
    ensures r.Ok? ==> OnlyFieldsOf(a, r.value, t)
  {
    if mt.None? then
      if |row.columns| > 0 then Err(NullReference) else SetsNothing(a, t); Ok(a)
    else AssignColumns(a, mdb, t, mt.value, row, row.columns)
  }

  /** `Update(row, onlyChanges, outputPrimaryKey, outputFields)`: nothing when
      only changes are wanted and there are none; otherwise a new UPDATE
      builder for the row's table assigning the changed columns (or every
      settable column), with the requested OUTPUT columns and the row's
      primary key as its WHERE group. What it assigns is stated by
      `UpdateFromRowAssigns` and `UpdateFromRowRejects`. */
  ghost function UpdateFromRow(a: Arena, mdb: Option<Metadata.MetadataDatabase>, row: RowData, onlyChanges: bool,
                               outputPrimaryKey: bool, outputFields: seq<string>): (r: Result<Option<(Arena, BuilderId)>>)
    requires Valid(a)
    ensures onlyChanges && !Rows.HasChanges(row) ==> r == Ok(None)
    ensures !(onlyChanges && !Rows.HasChanges(row)) && row.table.None? ==> r == Err(NullReference)
    ensures r.Ok? && r.value.None? ==> onlyChanges && !Rows.HasChanges(row)
    ensures r.Ok? && r.value.Some? ==>
      var (a1, b) := r.value.value;
      (Valid(a1) && b == |a.builders| && |a1.builders| == |a.builders| + 1
       && a1.builders[b].kind == UpdateStatement && a1.builders[b].tables == [|a.tables|]
       && |a.tables| < |a1.tables| && a1.tables[|a.tables|].name == SplitTableName(row.table.value).1
       && (a1.builders[b].where.Some? <==> row.pkCache.Some?))
  {
    if onlyChanges && !Rows.HasChanges(row) then Ok(None)
    else if row.table.None? then Err(NullReference)
    else
      var (a1, b, t) := UpdateTarget(a, row.table.value);
      var mt :- Rows.RowMetadata(row);
      var a4 :- UpdateOn(a1, mdb, row, b, t, mt, onlyChanges, outputPrimaryKey, outputFields);
      Ok(Some((a4, b)))
  }

  /** With only changes wanted, the new target (the table after those of
      `a`) assigns every changed column exactly once. */
  lemma UpdateFromRowAssignsChanges(a: Arena, mdb: Option<Metadata.MetadataDatabase>, row: RowData,
                                    outputPrimaryKey: bool, outputFields: seq<string>)
    requires Valid(a)
    ensures var r := UpdateFromRow(a, mdb, row, true, outputPrimaryKey, outputFields);
            r.Ok? && r.value.Some? ==> TargetAssignsChanges(r.value.value.0, |a.tables|, 0, row)
  {
    if Rows.HasChanges(row) && row.table.Some? && Rows.RowMetadata(row).Ok? {
      var (a1, b, t) := UpdateTarget(a, row.table.value);
      UpdateFromRowUnfolds(a, mdb, row, true, outputPrimaryKey, outputFields);
      UpdateOnAssignsChanges(a1, mdb, row, b, t, Rows.RowMetadata(row).value, outputPrimaryKey, outputFields);
    }
  }

  /** Past its early exits, `UpdateFromRow` is `UpdateOn` on the fresh
      UPDATE target that `UpdateTarget` adds. */
  lemma UpdateFromRowUnfolds(a: Arena, mdb: Option<Metadata.MetadataDatabase>, row: RowData, onlyChanges: bool,
                             outputPrimaryKey: bool, outputFields: seq<string>)
    requires Valid(a) && !(onlyChanges && !Rows.HasChanges(row)) && row.table.Some? && Rows.RowMetadata(row).Ok?
    ensures var (a1, b, t) := UpdateTarget(a, row.table.value);
            var r := UpdateFromRow(a, mdb, row, onlyChanges, outputPrimaryKey, outputFields);
            r.Ok? ==> r.value.Some?
                      && UpdateOn(a1, mdb, row, b, t, Rows.RowMetadata(row).value, onlyChanges, outputPrimaryKey, outputFields)
                         == Ok(r.value.value.0)
  {
  }

  /** Otherwise the new target assigns every settable row column, in row
      order, its current value. */
  lemma UpdateFromRowAssignsColumns(a: Arena, mdb: Option<Metadata.MetadataDatabase>, row: RowData,
                                    outputPrimaryKey: bool, outputFields: seq<string>, mt: Metadata.MetadataTable)
    requires Valid(a) && Rows.RowMetadata(row) == Ok(Some(mt))
    ensures var r := UpdateFromRow(a, mdb, row, false, outputPrimaryKey, outputFields);
            r.Ok? ==> TargetAssigns(r.value.value.0, |a.tables|, 0, row, SettableColumns(mt, row.columns))
  {
    if row.table.Some? {
      var (a1, b, t) := UpdateTarget(a, row.table.value);
      UpdateFromRowUnfolds(a, mdb, row, false, outputPrimaryKey, outputFields);
      UpdateOnAssignsColumns(a1, mdb, row, b, t, mt, outputPrimaryKey, outputFields);
    }
  }

  /** Only changes wanted, and a changed column that is not a settable
      catalogue column: the update fails with an invalid operation. */
  lemma UpdateFromRowRejects(a: Arena, mdb: Option<Metadata.MetadataDatabase>, row: RowData,
                             outputPrimaryKey: bool, outputFields: seq<string>, mt: Metadata.MetadataTable, k: string)
    requires Valid(a) && row.table.Some? && Rows.RowMetadata(row) == Ok(Some(mt))
    requires k in row.changes && !Settable(mt, k)
    ensures UpdateFromRow(a, mdb, row, true, outputPrimaryKey, outputFields) == Err(InvalidOperation)
  {
    var (a1, b, t) := UpdateTarget(a, row.table.value);
    ChangesOutputsRejects(a1, mdb, t, Some(mt), row, outputPrimaryKey, outputFields, k);
  }

  /** The `SET`, OUTPUT and WHERE parts of `Update(row, ...)` on a fresh
      UPDATE target `t` of builder `b`. */
  ghost function UpdateOn(a1: Arena, mdb: Option<Metadata.MetadataDatabase>, row: RowData, b: BuilderId, t: TableId,
                          mt: Option<Metadata.MetadataTable>, onlyChanges: bool,
                          outputPrimaryKey: bool, outputFields: seq<string>): (r: Result<Arena>)
    requires Valid(a1) && t < |a1.tables| && a1.tables[t].kind.UpdateTable? && a1.tables[t].builder == Some(b)
    requires b < |a1.builders|
    ensures r.Ok? ==>
      (Valid(r.value) && |r.value.builders| == |a1.builders|
       && r.value.builders[b] == a1.builders[b].(where := r.value.builders[b].where)
       && t < |r.value.tables| && r.value.tables[t].name == a1.tables[t].name
       && (r.value.builders[b].where.Some? <==> (row.pkCache.Some? && row.table.Some?)))
  {
    var a3 :-
      if onlyChanges then ChangesOutputs(a1, mdb, t, mt, row, outputPrimaryKey, outputFields)
      else ColumnsOutputs(a1, mdb, t, mt, row, outputPrimaryKey, outputFields);
    WithPrimaryKey(a3, mdb, row, b)
  }

  lemma UpdateOnAssigns(a1: Arena, mdb: Option<Metadata.MetadataDatabase>, row: RowData, b: BuilderId, t: TableId,
                        mt: Option<Metadata.MetadataTable>, onlyChanges: bool,
                        outputPrimaryKey: bool, outputFields: seq<string>)
    requires Valid(a1) && t < |a1.tables| && a1.tables[t].kind.UpdateTable? && a1.tables[t].builder == Some(b)
    requires b < |a1.builders|
    ensures var r := UpdateOn(a1, mdb, row, b, t, mt, onlyChanges, outputPrimaryKey, outputFields);
            r.Ok? && onlyChanges ==> TargetAssignsChanges(r.value, t, |a1.tables[t].fields|, row)
    ensures var r := UpdateOn(a1, mdb, row, b, t, mt, onlyChanges, outputPrimaryKey, outputFields);
            r.Ok? && !onlyChanges && mt.Some? ==>
            TargetAssigns(r.value, t, |a1.tables[t].fields|, row, SettableColumns(mt.value, row.columns))
  {
    if onlyChanges {
      UpdateOnAssignsChanges(a1, mdb, row, b, t, mt, outputPrimaryKey, outputFields);
    } else if mt.Some? {
      UpdateOnAssignsColumns(a1, mdb, row, b, t, mt.value, outputPrimaryKey, outputFields);
    }
  }

  lemma UpdateOnAssignsChanges(a1: Arena, mdb: Option<Metadata.MetadataDatabase>, row: RowData, b: BuilderId, t: TableId,
                               mt: Option<Metadata.MetadataTable>, outputPrimaryKey: bool, outputFields: seq<string>)
    requires Valid(a1) && t < |a1.tables| && a1.tables[t].kind.UpdateTable? && a1.tables[t].builder == Some(b)
    requires b < |a1.builders|
    ensures var r := UpdateOn(a1, mdb, row, b, t, mt, true, outputPrimaryKey, outputFields);
            r.Ok? ==> TargetAssignsChanges(r.value, t, |a1.tables[t].fields|, row)
  {
    var a3 := ChangesOutputs(a1, mdb, t, mt, row, outputPrimaryKey, outputFields);
    if a3.Ok? {
      ChangesOutputsAssign(a1, mdb, t, mt, row, outputPrimaryKey, outputFields);
      var a4 := WithPrimaryKey(a3.value, mdb, row, b);
      if a4.Ok? { TargetChangesKept(a3.value, a4.value, t, |a1.tables[t].fields|, row); }
    }
  }

  lemma UpdateOnAssignsColumns(a1: Arena, mdb: Option<Metadata.MetadataDatabase>, row: RowData, b: BuilderId, t: TableId,
                               mt: Metadata.MetadataTable, outputPrimaryKey: bool, outputFields: seq<string>)
    requires Valid(a1) && t < |a1.tables| && a1.tables[t].kind.UpdateTable? && a1.tables[t].builder == Some(b)
    requires b < |a1.builders|
    ensures var r := UpdateOn(a1, mdb, row, b, t, Some(mt), false, outputPrimaryKey, outputFields);
            r.Ok? ==> TargetAssigns(r.value, t, |a1.tables[t].fields|, row, SettableColumns(mt, row.columns))
  {
    var a3 := ColumnsOutputs(a1, mdb, t, Some(mt), row, outputPrimaryKey, outputFields);
    if a3.Ok? {
      ColumnsOutputsAssign(a1, mdb, t, Some(mt), row, outputPrimaryKey, outputFields);
      var a4 := WithPrimaryKey(a3.value, mdb, row, b);
      if a4.Ok? { TargetKept(a3.value, a4.value, t, |a1.tables[t].fields|, row, SettableColumns(mt, row.columns)); }
    }
  }

  /** The `SET` and OUTPUT parts of `Update(row, true, ...)`. */
  ghost function ChangesOutputs(a1: Arena, mdb: Option<Metadata.MetadataDatabase>, t: TableId,
                                mt: Option<Metadata.MetadataTable>, row: RowData,
                                outputPrimaryKey: bool, outputFields: seq<string>): (r: Result<Arena>)
    requires Valid(a1) && t < |a1.tables| && a1.tables[t].kind.UpdateTable? && a1.tables[t].builder.Some?
    ensures r.Ok? ==>
      (Valid(r.value) && r.value.builders == a1.builders
       && t < |r.value.tables| && r.value.tables[t].name == a1.tables[t].name)
  {
    var a2 :- ChangedAssignments(a1, mdb, t, mt, row);
    Outputs(a2, mdb, t, mt, outputPrimaryKey, outputFields)
  }

  lemma ChangesOutputsAssign(a1: Arena, mdb: Option<Metadata.MetadataDatabase>, t: TableId,
                             mt: Option<Metadata.MetadataTable>, row: RowData,
                             outputPrimaryKey: bool, outputFields: seq<string>)
    requires Valid(a1) && t < |a1.tables| && a1.tables[t].kind.UpdateTable? && a1.tables[t].builder.Some?
    ensures var r := ChangesOutputs(a1, mdb, t, mt, row, outputPrimaryKey, outputFields);
            r.Ok? ==> TargetAssignsChanges(r.value, t, |a1.tables[t].fields|, row)
  {
    var a2 := ChangedAssignments(a1, mdb, t, mt, row);
    if a2.Ok? {
      var a3 := Outputs(a2.value, mdb, t, mt, outputPrimaryKey, outputFields);
      if a3.Ok? { TargetFromChanges(a1, a2.value, a3.value, t, |a1.tables[t].fields|, row); }
    }
  }

  lemma ChangesOutputsRejects(a1: Arena, mdb: Option<Metadata.MetadataDatabase>, t: TableId,
                              mt: Option<Metadata.MetadataTable>, row: RowData,
                              outputPrimaryKey: bool, outputFields: seq<string>, k: string)
    requires Valid(a1) && t < |a1.tables| && a1.tables[t].kind.UpdateTable? && a1.tables[t].builder.Some?
    requires mt.Some? && k in row.changes && !Settable(mt.value, k)
    ensures ChangesOutputs(a1, mdb, t, mt, row, outputPrimaryKey, outputFields) == Err(InvalidOperation)
  {
    assert Rows.HasChanges(row) by { assert k in row.changes.Keys; }
    assert ChangedAssignments(a1, mdb, t, mt, row) == Err(InvalidOperation);
  }

  /** The `SET` and OUTPUT parts of `Update(row, false, ...)`. */
  ghost function ColumnsOutputs(a1: Arena, mdb: Option<Metadata.MetadataDatabase>, t: TableId,
                                mt: Option<Metadata.MetadataTable>, row: RowData,
                                outputPrimaryKey: bool, outputFields: seq<string>): (r: Result<Arena>)
    requires Valid(a1) && t < |a1.tables| && a1.tables[t].kind.UpdateTable? && a1.tables[t].builder.Some?
    ensures r.Ok? ==>
      (Valid(r.value) && r.value.builders == a1.builders
       && t < |r.value.tables| && r.value.tables[t].name == a1.tables[t].name)
  {
    var a2 :- FullAssignments(a1, mdb, t, mt, row);
    Outputs(a2, mdb, t, mt, outputPrimaryKey, outputFields)
  }

  lemma ColumnsOutputsAssign(a1: Arena, mdb: Option<Metadata.MetadataDatabase>, t: TableId,
                             mt: Option<Metadata.MetadataTable>, row: RowData,
                             outputPrimaryKey: bool, outputFields: seq<string>)
    requires Valid(a1) && t < |a1.tables| && a1.tables[t].kind.UpdateTable? && a1.tables[t].builder.Some?
    ensures var r := ColumnsOutputs(a1, mdb, t, mt, row, outputPrimaryKey, outputFields);
            r.Ok? && mt.Some? ==> TargetAssigns(r.value, t, |a1.tables[t].fields|, row, SettableColumns(mt.value, row.columns))
  {
    var a2 := FullAssignments(a1, mdb, t, mt, row);
    if a2.Ok? && mt.Some? {
      var a3 := Outputs(a2.value, mdb, t, mt, outputPrimaryKey, outputFields);
      if a3.Ok? { TargetFromKeys(a1, a2.value, a3.value, t, |a1.tables[t].fields|, row, SettableColumns(mt.value, row.columns)); }
    }
  }

  /** Assignments survive a stage that keeps the target's fields and only
      appends fields. */
  lemma TargetKept(a: Arena, r: Arena, t: TableId, n: nat, row: RowData, keys: seq<string>)
    requires TargetAssigns(a, t, n, row, keys)
    requires t < |r.tables| && r.tables[t].fields == a.tables[t].fields
    requires |a.fields| <= |r.fields| && r.fields[..|a.fields|] == a.fields
    ensures TargetAssigns(r, t, n, row, keys)
  {
    forall i | 0 <= i < |keys| ensures Assigns(r, r.tables[t].fields[n + i], keys[i], CurrentValues(row, keys)[i]) {
      var fid := a.tables[t].fields[n + i];
      assert Assigns(a, fid, keys[i], CurrentValues(row, keys)[i]);
      assert r.fields[fid] == a.fields[fid] by {
        assert r.fields[..|a.fields|][fid] == a.fields[fid];
      }
    }
  }

  lemma TargetChangesKept(a: Arena, r: Arena, t: TableId, n: nat, row: RowData)
    requires TargetAssignsChanges(a, t, n, row)
    requires t < |r.tables| && t < |a.tables| && r.tables[t].fields == a.tables[t].fields
    requires |a.fields| <= |r.fields| && r.fields[..|a.fields|] == a.fields
    ensures TargetAssignsChanges(r, t, n, row)
  {
    var keys :| Distinct(keys) && (forall k :: k in keys <==> k in row.changes) && TargetAssigns(a, t, n, row, keys);
    TargetKept(a, r, t, n, row, keys);
    ChangesTarget(r, t, n, row, keys);
  }

  /** The fields of table `t` of `r` from position `n` on are exactly one
      `SET` parameter per key, in order, each with the row's current value
      of its key. */
  ghost predicate TargetAssigns(r: Arena, t: TableId, n: nat, row: RowData, keys: seq<string>) {
    t < |r.tables| && (forall i :: 0 <= i < |keys| ==> Rows.Get(row, keys[i]).Some?)
    && |r.tables[t].fields| == n + |keys|
    && forall i :: 0 <= i < |keys| ==> Assigns(r, r.tables[t].fields[n + i], keys[i], CurrentValues(row, keys)[i])
  }

  /** Table `t` of `r` assigns, from position `n` on, every changed column
      of the row exactly once, in some order. */
  ghost predicate TargetAssignsChanges(r: Arena, t: TableId, n: nat, row: RowData) {
    exists keys :: Distinct(keys) && (forall k :: k in keys <==> k in row.changes) && TargetAssigns(r, t, n, row, keys)
  }

  /** The assignments appended to a target survive the later stages, which
      only append fields and leave the target's field list alone. */
  lemma TargetFromKeys(a1: Arena, a2: Arena, a4: Arena, t: TableId, n: nat, row: RowData, keys: seq<string>)
    requires t < |a1.tables| && n == |a1.tables[t].fields| && AssignsKeys(a1, a2, t, row, keys)
    requires t < |a4.tables| && a4.tables[t].fields == a2.tables[t].fields
    requires |a2.fields| <= |a4.fields| && a4.fields[..|a2.fields|] == a2.fields
    ensures TargetAssigns(a4, t, n, row, keys)
  {
    forall i | 0 <= i < |keys| ensures Assigns(a4, a4.tables[t].fields[n + i], keys[i], CurrentValues(row, keys)[i]) {
      assert Assigns(a2, a2.tables[t].fields[n + i], keys[i], CurrentValues(row, keys)[i]);
      var fid := a2.tables[t].fields[n + i];
      assert a4.fields[fid] == a2.fields[fid] by {
        assert a4.fields[..|a2.fields|][fid] == a2.fields[fid];
      }
    }
  }

  lemma ChangesTarget(r: Arena, t: TableId, n: nat, row: RowData, keys: seq<string>)
    requires Distinct(keys) && (forall k :: k in keys <==> k in row.changes) && TargetAssigns(r, t, n, row, keys)
    ensures TargetAssignsChanges(r, t, n, row)
  {
  }

  lemma TargetFromChanges(a1: Arena, a2: Arena, a4: Arena, t: TableId, n: nat, row: RowData)
    requires t < |a1.tables| && n == |a1.tables[t].fields| && AssignsChanges(a1, a2, t, row)
    requires t < |a4.tables| && a4.tables[t].fields == a2.tables[t].fields
    requires |a2.fields| <= |a4.fields| && a4.fields[..|a2.fields|] == a2.fields
    ensures TargetAssignsChanges(a4, t, n, row)
  {
    var keys :| Distinct(keys) && (forall k :: k in keys <==> k in row.changes) && AssignsKeys(a1, a2, t, row, keys);
    TargetFromKeys(a1, a2, a4, t, n, row, keys);
    ChangesTarget(a4, t, n, row, keys);
  }

  // ---------------------------------------------------------------------------
  // Update(builder, row, output)

  /** The type attributes `Update(builder, row, ...)` passes as written: the
      call with seven arguments binds to the overload whose sixth and
      seventh parameters are the length and the precision, so the column's
      scale arrives as the precision and the scale keeps its default. */
  function TypeArgumentsAsWritten(c: Metadata.MetadataColumn): (int, int, int) {
    (c.length, c.scale, -1)
  }

  /** A numeric type other than a date, declared by precision and scale. */
  predicate IsScaled(c: Metadata.MetadataColumn) {
    !IsVariableText(c.sqlType) && !IsFixedText(c.sqlType) && c.sqlType != VarBinary && !IsDateData(c.sqlType)
    && c.precision > 0 && c.scale >= 0
  }

  /** The declaration of a parameter or OUTPUT column, as `DECLARE` writes it. */
  function Declared(f: Field): (r: Result<string>)
    ensures r.Ok? ==> |SqlDbTypeName(f.sqlType)| <= |r.value|
  {
    GetSqlDataType(f.sqlType, f.maxLength, f.precision, f.scale, f.value)
  }

  /** As written, a `SET` parameter for a numeric column that the builder's
      own catalogue does not know is declared with the column's scale as
      its precision and no scale; `AssignOne`, which passes the arguments
      in the intended order, declares both. The two declarations differ. */
  lemma ScaleAsPrecisionAsWritten(a: Arena, mdb: Option<Metadata.MetadataDatabase>, t: TableId, key: string, v: Value,
                                  c: Metadata.MetadataColumn)
    requires Valid(a) && t < |a.tables| && a.tables[t].kind.UpdateTable? && a.tables[t].builder.Some?
    requires Lookup.BuilderColumn(mdb, FullName(a.tables[t]), key).None?
    requires IsScaled(c)
    ensures var (l, p, s) := TypeArgumentsAsWritten(c);
            var w := Statements.Set(a, mdb, t, key, v, c.sqlType, c.dataType, l, p, s);
            w.Ok? && var f := w.value.0.fields[w.value.1];
            f.precision == c.scale && f.scale == -1
            && Declared(f) == Ok(SqlDbTypeName(c.sqlType) + (if c.scale > 0 then "(" + IntToString(c.scale) + ")" else ""))
    ensures var r := AssignOne(a, mdb, t, key, v, c);
            var f := r.fields[r.tables[t].fields[|a.tables[t].fields|]];
            Declared(f) == Ok(SqlDbTypeName(c.sqlType) + "(" + IntToString(c.precision) + ", " + IntToString(c.scale) + ")")
    ensures var (l, p, s) := TypeArgumentsAsWritten(c);
            var w := Statements.Set(a, mdb, t, key, v, c.sqlType, c.dataType, l, p, s);
            var r := AssignOne(a, mdb, t, key, v, c);
            Declared(w.value.0.fields[w.value.1]) != Declared(r.fields[r.tables[t].fields[|a.tables[t].fields|]])
  {
    var (l, p, s) := TypeArgumentsAsWritten(c);
    var w := Statements.Set(a, mdb, t, key, v, c.sqlType, c.dataType, l, p, s);
    var f := w.value.0.fields[w.value.1];
    WrittenDeclaration(c, f.value);
    var r := AssignOne(a, mdb, t, key, v, c);
    var g := r.fields[r.tables[t].fields[|a.tables[t].fields|]];
    assert Carries(g, c);
    IntendedDeclaration(c, g.value);
    DeclarationsDiffer(c);
  }

  /** As written, every OUTPUT column of a numeric column is declared with
      the column's scale as its precision and no scale, unless a catalogue
      table named like the OUTPUT table (`inserted`) knows the column;
      `OutputWith` declares both. */
  lemma OutputScaleAsPrecisionAsWritten(a: Arena, mdb: Option<Metadata.MetadataDatabase>, p: FieldId, key: string,
                                        c: Metadata.MetadataColumn)
    requires Valid(a) && p < |a.fields| && a.fields[p].kind.TableParameterField?
    requires a.tables[a.fields[p].kind.parameterTable].builder.Some?
    requires Lookup.BuilderColumn(mdb, FullName(a.tables[a.fields[p].kind.parameterTable]), key).None?
    requires IsScaled(c)
    ensures var (l, pr, s) := TypeArgumentsAsWritten(c);
            var w := Statements.OutputColumn(a, mdb, p, key, c.sqlType, l, pr, s);
            w.Ok? && var f := w.value.0.fields[w.value.1];
            f.precision == c.scale && f.scale == -1
            && Declared(f) == Ok(SqlDbTypeName(c.sqlType) + (if c.scale > 0 then "(" + IntToString(c.scale) + ")" else ""))
    ensures var (l, pr, s) := TypeArguments(c);
            var w := Statements.OutputColumn(a, mdb, p, key, c.sqlType, l, pr, s);
            w.Ok? && var f := w.value.0.fields[w.value.1];
            Declared(f) == Ok(SqlDbTypeName(c.sqlType) + "(" + IntToString(c.precision) + ", " + IntToString(c.scale) + ")")
  {
    var (l, pr, s) := TypeArgumentsAsWritten(c);
    var w := Statements.OutputColumn(a, mdb, p, key, c.sqlType, l, pr, s);
    WrittenDeclaration(c, w.value.0.fields[w.value.1].value);
    var (l2, pr2, s2) := TypeArguments(c);
    var w2 := Statements.OutputColumn(a, mdb, p, key, c.sqlType, l2, pr2, s2);
    IntendedDeclaration(c, w2.value.0.fields[w2.value.1].value);
  }

  /** When the builder's own catalogue knows the column, `PopulateField`
      overwrites the type arguments, so the argument order leaves no trace. */
  lemma CataloguedHidesTypeArguments(a: Arena, mdb: Option<Metadata.MetadataDatabase>, t: TableId, key: string, v: Value,
                                     c: Metadata.MetadataColumn)
    requires Valid(a) && t < |a.tables| && a.tables[t].kind.UpdateTable? && a.tables[t].builder.Some?
    requires Lookup.BuilderColumn(mdb, FullName(a.tables[t]), key).Some?
    ensures var (l, p, s) := TypeArgumentsAsWritten(c);
            var (l2, p2, s2) := TypeArguments(c);
            var w := Statements.Set(a, mdb, t, key, v, c.sqlType, c.dataType, l, p, s);
            var w2 := Statements.Set(a, mdb, t, key, v, c.sqlType, c.dataType, l2, p2, s2);
            w.Ok? && w2.Ok? && Declared(w.value.0.fields[w.value.1]) == Declared(w2.value.0.fields[w2.value.1])
  {
  }

  lemma DeclarationsDiffer(c: Metadata.MetadataColumn)
    requires c.precision > 0 && c.scale >= 0
    ensures SqlDbTypeName(c.sqlType) + (if c.scale > 0 then "(" + IntToString(c.scale) + ")" else "")
            != SqlDbTypeName(c.sqlType) + "(" + IntToString(c.precision) + ", " + IntToString(c.scale) + ")"
  {
    var name := SqlDbTypeName(c.sqlType);
    var written := name + (if c.scale > 0 then "(" + IntToString(c.scale) + ")" else "");
    var intended := name + "(" + IntToString(c.precision) + ", " + IntToString(c.scale) + ")";
    assert |written| < |intended|;
  }

  /** With the type arguments as written, a scaled column is declared with
      its scale as the precision. */
  lemma WrittenDeclaration(c: Metadata.MetadataColumn, v: Value)
    requires IsScaled(c)
    ensures var (l, p, s) := TypeArgumentsAsWritten(c);
            GetSqlDataType(c.sqlType, l, p, s, v)
              == Ok(SqlDbTypeName(c.sqlType) + (if c.scale > 0 then "(" + IntToString(c.scale) + ")" else ""))
  {
    var name := SqlDbTypeName(c.sqlType);
    if c.scale > 0 {
      assert GetSqlDataType(c.sqlType, c.length, c.scale, -1, v) == Ok(name + "(" + IntToString(c.scale) + "" + ")");
      assert name + "(" + IntToString(c.scale) + "" + ")" == name + ("(" + IntToString(c.scale) + ")");
    } else {
      assert name + "" == name;
    }
  }

  /** With the type arguments in the intended order, a scaled column is
      declared with its precision and its scale. */
  lemma IntendedDeclaration(c: Metadata.MetadataColumn, v: Value)
    requires IsScaled(c)
    ensures var (l, p, s) := TypeArguments(c);
            GetSqlDataType(c.sqlType, l, p, s, v)
              == Ok(SqlDbTypeName(c.sqlType) + "(" + IntToString(c.precision) + ", " + IntToString(c.scale) + ")")
  {
    var name := SqlDbTypeName(c.sqlType);
    assert GetSqlDataType(c.sqlType, c.length, c.precision, c.scale, v)
           == Ok(name + "(" + IntToString(c.precision) + (", " + IntToString(c.scale)) + ")");
    assert name + "(" + IntToString(c.precision) + (", " + IntToString(c.scale)) + ")"
           == name + "(" + IntToString(c.precision) + ", " + IntToString(c.scale) + ")";
  }

  /** `Set(up, key, value, c.SqlDataType, c.DataType, ...)` for each key, the
      column taken from the catalogue indexer: a missing catalogue or column
      is dereferenced as null. */
  function AssignCatalogued(a: Arena, mdb: Option<Metadata.MetadataDatabase>, t: TableId,
                            mt: Option<Metadata.MetadataTable>, row: RowData, keys: seq<string>): (r: Result<Arena>)
    requires Valid(a) && t < |a.tables| && a.tables[t].kind.UpdateTable?
    requires forall i :: 0 <= i < |keys| ==> keys[i] in row.changes
    ensures r.Ok? <==> (|keys| == 0 || (mt.Some? && a.tables[t].builder.Some?
                                        && forall i :: 0 <= i < |keys| ==> keys[i] in mt.value.columns))
    ensures r.Err? ==> r.error == NullReference
    ensures r.Ok? ==> AssignsKeys(a, r.value, t, row, keys)
    ensures r.Ok? && mt.Some? ==> ParametersTyped(r.value, t, |a.tables[t].fields|, mdb, FullName(a.tables[t]), mt.value, keys)
    decreases |keys|
  {
    if |keys| == 0 then AssignsNothing(a, t, row); Ok(a)
    else if mt.None? then Err(NullReference)
    else
      match Metadata.ColumnAt(mt.value, keys[0])
      case None => Err(NullReference)
      case Some(c) =>
        if a.tables[t].builder.None? then Err(NullReference)
        else
        var v := row.changes[keys[0]];
        var a1 := AssignOne(a, mdb, t, keys[0], v, c);
        var r := AssignCatalogued(a1, mdb, t, mt, row, keys[1..]);
        CataloguedTail(mt.value, keys);
        if r.Err? then r
        else
          AssignsFirst(a, a1, r.value, t, row, keys, v);
          TypedFirst(a, a1, r.value, t, mdb, mt.value, row, keys, v);
          r
  }

  /** From position `n` on, table `t` of `r` holds one parameter per key, each
      declaring the type of its key's column as `PopulateField` leaves it. */
  ghost predicate ParametersTyped(r: Arena, t: TableId, n: nat, mdb: Option<Metadata.MetadataDatabase>,
                                  tableName: string, mt: Metadata.MetadataTable, keys: seq<string>) {
    t < |r.tables| && n + |keys| <= |r.tables[t].fields|
    && forall i :: 0 <= i < |keys| ==>
         keys[i] in mt.columns && r.tables[t].fields[n + i] < |r.fields|
         && Carries(r.fields[r.tables[t].fields[n + i]], DeclaredColumn(mdb, tableName, keys[i], mt.columns[keys[i]]))
  }

  lemma TypedFirst(a: Arena, a1: Arena, r: Arena, t: TableId, mdb: Option<Metadata.MetadataDatabase>,
                   mt: Metadata.MetadataTable, row: RowData, keys: seq<string>, v: Value)
    requires t < |a.tables| && |keys| > 0 && keys[0] in mt.columns
    requires SetsAppended(a, a1, t, [keys[0]], [v]) && AssignsKeys(a1, r, t, row, keys[1..])
    requires Carries(a1.fields[a1.tables[t].fields[|a.tables[t].fields|]],
                     DeclaredColumn(mdb, FullName(a.tables[t]), keys[0], mt.columns[keys[0]]))
    requires ParametersTyped(r, t, |a1.tables[t].fields|, mdb, FullName(a1.tables[t]), mt, keys[1..])
    ensures ParametersTyped(r, t, |a.tables[t].fields|, mdb, FullName(a.tables[t]), mt, keys)
  {
    var n := |a.tables[t].fields|;
    var n1 := |a1.tables[t].fields|;
    assert FullName(a1.tables[t]) == FullName(a.tables[t]);
    var fid := a1.tables[t].fields[n];
    assert r.tables[t].fields[n] == fid by {
      assert r.tables[t].fields[..n1][n] == a1.tables[t].fields[n];
    }
    assert r.fields[fid] == a1.fields[fid] by {
      assert r.fields[..|a1.fields|][fid] == a1.fields[fid];
    }
    forall i | 1 <= i < |keys|
      ensures keys[i] in mt.columns && r.tables[t].fields[n + i] < |r.fields|
              && Carries(r.fields[r.tables[t].fields[n + i]], DeclaredColumn(mdb, FullName(a.tables[t]), keys[i], mt.columns[keys[i]]))
    {
      assert keys[1..][i - 1] == keys[i];
      assert n1 + (i - 1) == n + i;
    }
  }

  lemma CataloguedTail(mt: Metadata.MetadataTable, keys: seq<string>)
    requires |keys| > 0 && keys[0] in mt.columns
    ensures (forall i :: 0 <= i < |keys| ==> keys[i] in mt.columns)
            <==> (|keys[1..]| == 0 || forall i :: 0 <= i < |keys[1..]| ==> keys[1..][i] in mt.columns)
  {
    forall i | 1 <= i < |keys| ensures keys[i] == keys[1..][i - 1] { }
  }

  /** The OUTPUT part of `Update(builder, row, output)`: a table variable
      holding the requested columns, each a catalogue column. */
  function OutputCatalogued(a: Arena, mdb: Option<Metadata.MetadataDatabase>, t: TableId,
                            mt: Option<Metadata.MetadataTable>, output: seq<string>): (r: Result<Arena>)
    requires Valid(a) && t < |a.tables| && a.tables[t].kind.UpdateTable?
    ensures |output| == 0 ==> r == Ok(a)
    ensures |output| > 0 ==>
      (r.Ok? <==> (mt.Some? && a.tables[t].builder.Some? && forall i :: 0 <= i < |output| ==> output[i] in mt.value.columns))
    ensures r.Err? ==> r.error == NullReference
    ensures r.Ok? && |output| > 0 ==> OutputHas(r.value, t, |output|)
    ensures r.Ok? && |output| > 0 ==>
      mt.Some? && FieldEntries(mt.value, output).Ok? && OutputTyped(r.value, t, mdb, FieldEntries(mt.value, output).value)
    ensures r.Ok? ==>
      (Valid(r.value) && |a.tables| <= |r.value.tables| && r.value.tables[t].fields == a.tables[t].fields
       && r.value.builders == a.builders && r.value.groups == a.groups
       && |a.fields| <= |r.value.fields| && r.value.fields[..|a.fields|] == a.fields)
  {
    if |output| == 0 then
      assert a.fields[..|a.fields|] == a.fields;
      Ok(a)
    else if mt.None? || a.tables[t].builder.None? then Err(NullReference)
    else
      var entries :- FieldEntries(mt.value, output);
      Ok(OutputWith(a, mdb, t, entries))
  }

  /** An installed OUTPUT table variable survives a stage that keeps the
      tables and only appends fields. */
  lemma OutputHasKept(a: Arena, r: Arena, t: TableId, k: nat)
    requires OutputHas(a, t, k) && r.tables == a.tables
    requires |a.fields| <= |r.fields| && r.fields[..|a.fields|] == a.fields
    ensures OutputHas(r, t, k)
  {
    var p := a.tables[t].kind.updateOutput.value;
    assert r.fields[..|a.fields|][p] == a.fields[p];
  }

  /** `Update(builder, row, output)`: nothing when the row has no changes;
      otherwise the builder's UPDATE target (for the row's table) gets one
      `SET` parameter per changed column, the requested OUTPUT columns, and
      the builder's WHERE group becomes the row's primary-key group. What it
      assigns is stated by `UpdateBuilderAssigns`. */
  ghost function UpdateBuilder(a: Arena, mdb: Option<Metadata.MetadataDatabase>, b: BuilderId, row: RowData,
                               output: seq<string>): (r: Result<Arena>)
    requires Valid(a) && b < |a.builders|
    ensures !Rows.HasChanges(row) ==> r == Ok(a)
    ensures Rows.HasChanges(row) && row.table.None? ==> r == Err(NullReference)
    ensures Rows.HasChanges(row) && row.table.Some? && Rows.RowMetadata(row) == Ok(None) ==> r == Err(NullReference)
    ensures Rows.HasChanges(row) && r.Ok? ==>
      (Valid(r.value) && |r.value.builders| == |a.builders|
       && r.value.builders[b] == a.builders[b].(where := r.value.builders[b].where, tables := r.value.builders[b].tables)
       && (r.value.builders[b].where.Some? <==> row.pkCache.Some?))
  {
    if !Rows.HasChanges(row) then Ok(a)
    else if row.table.None? then Err(NullReference)
    else
      var (schema, name) := SplitTableName(row.table.value);
      var (a1, t) := Statements.UpdateTableOf(a, b, name, schema);
      var mt :- Rows.RowMetadata(row);
      UpdateBuilderOn(a1, mdb, b, t, mt, row, output)
  }

  /** The builder's UPDATE target assigns, after the fields it already had,
      every changed column once, and holds an OUTPUT table variable with
      the requested columns. */
  lemma UpdateBuilderAssigns(a: Arena, mdb: Option<Metadata.MetadataDatabase>, b: BuilderId, row: RowData,
                             output: seq<string>)
    requires Valid(a) && b < |a.builders|
    requires Rows.HasChanges(row) && row.table.Some?
    ensures var (schema, name) := SplitTableName(row.table.value);
            var (a1, t) := Statements.UpdateTableOf(a, b, name, schema);
            var r := UpdateBuilder(a, mdb, b, row, output);
            r.Ok? ==>
            (TargetAssignsChanges(r.value, t, |a1.tables[t].fields|, row)
             && (|output| > 0 ==> OutputHas(r.value, t, |output|)))
  {
    var (schema, name) := SplitTableName(row.table.value);
    var (a1, t) := Statements.UpdateTableOf(a, b, name, schema);
    var m := Rows.RowMetadata(row);
    if m.Ok? {
      assert UpdateBuilder(a, mdb, b, row, output) == UpdateBuilderOn(a1, mdb, b, t, m.value, row, output);
      UpdateBuilderOnAssigns(a1, mdb, b, t, m.value, row, output);
    }
  }

  /** The `SET`, OUTPUT and WHERE parts of `Update(builder, row, output)` on
      the builder's UPDATE target `t`. */
  ghost function UpdateBuilderOn(a1: Arena, mdb: Option<Metadata.MetadataDatabase>, b: BuilderId, t: TableId,
                                 mt: Option<Metadata.MetadataTable>, row: RowData, output: seq<string>): (r: Result<Arena>)
    requires Valid(a1) && b < |a1.builders| && t < |a1.tables| && a1.tables[t].kind.UpdateTable?
    requires Rows.HasChanges(row) && row.table.Some?
    ensures mt.None? ==> r == Err(NullReference)
    ensures r.Ok? ==>
      (Valid(r.value) && |r.value.builders| == |a1.builders|
       && r.value.builders[b] == a1.builders[b].(where := r.value.builders[b].where)
       && (r.value.builders[b].where.Some? <==> row.pkCache.Some?))
  {
    var a3 :- SetsAndOutput(a1, mdb, t, mt, row, output);
    WithPrimaryKey(a3, mdb, row, b)
  }

  /** The `SET` and OUTPUT parts of `Update(builder, row, output)` on the
      builder's UPDATE target `t`. */
  ghost function SetsAndOutput(a1: Arena, mdb: Option<Metadata.MetadataDatabase>, t: TableId,
                               mt: Option<Metadata.MetadataTable>, row: RowData, output: seq<string>): (r: Result<Arena>)
    requires Valid(a1) && t < |a1.tables| && a1.tables[t].kind.UpdateTable? && Rows.HasChanges(row)
    ensures mt.None? ==> r == Err(NullReference)
    ensures r.Ok? ==> Valid(r.value) && r.value.builders == a1.builders
    ensures r.Ok? ==>
      (TargetAssignsChanges(r.value, t, |a1.tables[t].fields|, row)
       && (|output| > 0 ==> OutputHas(r.value, t, |output|)))
  {
    var keys := Enumerate(row.changes.Keys);
    assert keys[0] in row.changes.Keys;
    var a2 :- AssignCatalogued(a1, mdb, t, mt, row, keys);
    var a3 :- OutputCatalogued(a2, mdb, t, mt, output);
    TargetFromKeys(a1, a2, a3, t, |a1.tables[t].fields|, row, keys);
    ChangesTarget(a3, t, |a1.tables[t].fields|, row, keys);
    Ok(a3)
  }

  lemma UpdateBuilderOnAssigns(a1: Arena, mdb: Option<Metadata.MetadataDatabase>, b: BuilderId, t: TableId,
                               mt: Option<Metadata.MetadataTable>, row: RowData, output: seq<string>)
    requires Valid(a1) && b < |a1.builders| && t < |a1.tables| && a1.tables[t].kind.UpdateTable?
    requires Rows.HasChanges(row) && row.table.Some?
    ensures var r := UpdateBuilderOn(a1, mdb, b, t, mt, row, output);
            r.Ok? ==>
            (TargetAssignsChanges(r.value, t, |a1.tables[t].fields|, row)
             && (|output| > 0 ==> OutputHas(r.value, t, |output|)))
  {
    var r := UpdateBuilderOn(a1, mdb, b, t, mt, row, output);
    if r.Ok? {
      var a3 := SetsAndOutput(a1, mdb, t, mt, row, output).value;
      assert r == WithPrimaryKey(a3, mdb, row, b);
      TargetChangesKept(a3, r.value, t, |a1.tables[t].fields|, row);
      if |output| > 0 { OutputHasKept(a3, r.value, t, |output|); }
    }
  }
}
