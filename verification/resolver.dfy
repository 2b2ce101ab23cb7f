/** The catalogue-driven helpers of the statement builder: joins inferred
    from foreign keys (`AutoJoin`, the `JoinInternal` overloads and the `To`
    resolver behind them), the columns a foreign key asks to include, the
    primary-key WHERE conditions and the guess of a table's title column. */
module Resolver {
  import opened Outcomes
  import opened Text
  import opened Collections
  import opened Values
  import opened SqlTypes
  import opened QueryModel
  import opened Lookup
  import opened Conditions
  import Statements
  import Metadata

  /** `MetadataHelper`: a table of a statement together with its catalogue
      entry (`Model`). */
  datatype Helper = Helper(table: TableId, model: Metadata.MetadataTable)

  /** The one element of a one-element set. */
  function TheOne<T>(s: set<T>): (r: T)
    requires |s| == 1
    ensures r in s && s == {r}
  {
    assert forall x, y :: x in s && y in s ==> x == y by {
      forall x, y | x in s && y in s ensures x == y {
        Metadata.SingletonElements(s, x, y);
      }
    }
    var x :| x in s;
    x
  }

  /** The schema argument `To` passes to `MakeJoin`: none for `dbo`. */
  function SchemaArgument(schema: string): (r: Option<string>)
    ensures r.None? <==> schema == "dbo"
    ensures r.Some? ==> r.value == schema
  {
    if schema == "dbo" then None else Some(schema)
  }

  /** `MakeJoin` puts `dbo` back for a missing schema, so the schema the
      join ends up with is the catalogue table's own. */
  lemma SchemaArgumentRoundTrip(schema: string)
    ensures SchemaArgument(schema).GetOr("dbo") == schema
  {
  }

  // ---------------------------------------------------------------------------
  // The `To` resolver

  /** A foreign key of the target table that points back at the source
      table (by name and schema, compared exactly) with a pair ending at
      `fromField`. */
  predicate PointsBack(fk: Metadata.ForeignKey, fromTable: Metadata.MetadataTable, fromField: Metadata.MetadataColumn) {
    fk.referencedTable == fromTable.name && fk.referencedSchema == fromTable.schema
    && exists i :: 0 <= i < |fk.references| && fk.references[i].referencedColumn == fromField
  }

  /** The keys the primary-key branch of `To` considers. */
  function ReferencingKeys(toTable: Metadata.MetadataTable, fromTable: Metadata.MetadataTable,
                           fromField: Metadata.MetadataColumn): (r: set<Metadata.ForeignKey>)
    ensures forall fk :: fk in r <==> fk in toTable.foreignKeys.Values && PointsBack(fk, fromTable, fromField)
  {
    set fk | fk in toTable.foreignKeys.Values && PointsBack(fk, fromTable, fromField)
  }

  /** The constant a reference whose name starts with a double quote stands
      for: the name without its quotes, as a decimal when it parses as one. */
  function ReferenceConstant(name: string, culture: Culture): (r: Value)
    ensures r.DecimalValue? <==> culture.parseDecimal(Trim(name, '"')).Some?
    ensures r.DecimalValue? ==> r.d == culture.parseDecimal(Trim(name, '"')).value
    ensures !r.DecimalValue? ==> r == StringValue(Trim(name, '"'))
  {
    var text := Trim(name, '"');
    match culture.parseDecimal(text)
    case Some(d) => DecimalValue(d)
    case None => StringValue(text)
  }

  /** The join group of `j` holds `n` conditions, all equalities, the first
      unlinked and the others linked with AND. */
  ghost predicate EqualityChain(a: Arena, j: JoinId, n: nat)
    requires Valid(a) && j < |a.joins|
  {
    var cs := a.groups[a.joins[j].conditions].conditions;
    |cs| == n && n > 0 && cs[0].link == NoLink
    && (forall i :: 0 <= i < |cs| ==> cs[i].op == Equal)
    && (forall i :: 1 <= i < |cs| ==> cs[i].link == AndLink)
  }

  /** `r` is `a` with `k` more conditions at the end of group `g`, all
      equalities linked with AND; the joins and the group's other parts are
      as they were. */
  ghost predicate GrewBy(a: Arena, r: Arena, g: GroupId, k: nat)
    requires g < |a.groups|
  {
    Valid(r) && |r.groups| == |a.groups| && r.joins == a.joins && FieldsKept(a, r)
    && r.groups[g] == a.groups[g].(conditions := r.groups[g].conditions)
    && |r.groups[g].conditions| == |a.groups[g].conditions| + k
    && r.groups[g].conditions[..|a.groups[g].conditions|] == a.groups[g].conditions
    && (forall i :: |a.groups[g].conditions| <= i < |r.groups[g].conditions| ==>
          r.groups[g].conditions[i].link == AndLink && r.groups[g].conditions[i].op == Equal)
  }

  lemma GrewByNothing(a: Arena, g: GroupId)
    requires Valid(a) && g < |a.groups|
    ensures GrewBy(a, a, g, 0)
  {
    assert a.groups[g].conditions[..|a.groups[g].conditions|] == a.groups[g].conditions;
    assert a.fields[..|a.fields|] == a.fields;
  }

  lemma GrewByOneMore(a: Arena, a1: Arena, r: Arena, g: GroupId, k: nat)
    requires g < |a.groups|
    requires ConditionAppended(a, a1, g, AndLink, Equal) && GrewBy(a1, r, g, k)
    ensures GrewBy(a, r, g, k + 1)
  {
    PrefixTrans(a.fields, a1.fields, r.fields);
    var n := |a.groups[g].conditions|;
    assert r.groups[g].conditions[..n] == a.groups[g].conditions by {
      assert r.groups[g].conditions[..n] == r.groups[g].conditions[..n + 1][..n];
    }
    assert r.groups[g].conditions[n] == a1.groups[g].conditions[n] by {
      assert r.groups[g].conditions[..n + 1] == a1.groups[g].conditions;
    }
  }

  /** Condition `c` of join `j` in `a` is what column reference `ref` asks
      for: for a `"..."` reference, the referenced column of a table named
      as the join's target equals the reference's constant; otherwise the
      pair's column of the source table equals its referenced column of the
      target table. */
  ghost predicate ComparesRef(a: Arena, mdb: Option<Metadata.MetadataDatabase>, j: JoinId, c: Condition,
                              ref: Metadata.ColumnReference, culture: Culture)
    requires Valid(a)
  {
    c.op == Equal
    && if Text.StartsWith(ref.name, "\"") then
         var v := ReferenceConstant(ref.name, culture);
         j < |a.joins| && a.joins[j].to < |a.tables| && c.right.None? && c.left < |a.fields|
         && var f := a.fields[c.left];
            f.table.Some? && f.table.value < |a.tables| && f.value == v
            && NamedAs(a.tables[f.table.value], Alias(a.tables[a.joins[j].to]))
            && f == MadeField(a, mdb, ValueField(TypeOf(v)), f.table.value, ref.referencedColumn.name, v)
       else JoinCompares(a, mdb, j, c, ref.column.name, ref.referencedColumn.name)
  }

  /** Adding fields and conditions keeps what a condition compares. */
  lemma ComparesRefKept(a: Arena, r: Arena, mdb: Option<Metadata.MetadataDatabase>, j: JoinId, c: Condition,
                        ref: Metadata.ColumnReference, culture: Culture)
    requires Valid(a) && Valid(r) && FieldsKept(a, r) && r.joins == a.joins
    requires ComparesRef(a, mdb, j, c, ref, culture)
    ensures ComparesRef(r, mdb, j, c, ref, culture)
  {
    if Text.StartsWith(ref.name, "\"") {
      assert r.fields[c.left] == r.fields[..|a.fields|][c.left];
    } else {
      JoinComparesKept(a, r, mdb, j, c, ref.column.name, ref.referencedColumn.name);
    }
  }

  /** From position `start` on, the conditions of join group `g` of `a` are,
      in order, what `refs` ask for, and there are no others. */
  ghost predicate RefsFollow(a: Arena, mdb: Option<Metadata.MetadataDatabase>, g: GroupId, start: nat,
                             refs: seq<Metadata.ColumnReference>, culture: Culture)
    requires Valid(a)
    decreases |refs|
  {
    g < |a.groups| && a.groups[g].kind.JoinGroup? && start + |refs| == |a.groups[g].conditions|
    && (|refs| > 0 ==>
          ComparesRef(a, mdb, a.groups[g].kind.join, a.groups[g].conditions[start], refs[0], culture)
          && RefsFollow(a, mdb, g, start + 1, refs[1..], culture))
  }

  /** A condition for the first reference, followed by conditions for the
      others, follows all of them. */
  lemma RefsFollowOneMore(a: Arena, a1: Arena, r: Arena, mdb: Option<Metadata.MetadataDatabase>, g: GroupId,
                          refs: seq<Metadata.ColumnReference>, culture: Culture)
    requires Valid(a1) && g < |a.groups| && a.groups[g].kind.JoinGroup? && |refs| > 0
    requires ConditionAppended(a, a1, g, AndLink, Equal)
    requires ComparesRef(a1, mdb, a.groups[g].kind.join, a1.groups[g].conditions[|a.groups[g].conditions|], refs[0], culture)
    requires GrewBy(a1, r, g, |refs| - 1)
    requires RefsFollow(r, mdb, g, |a1.groups[g].conditions|, refs[1..], culture)
    ensures RefsFollow(r, mdb, g, |a.groups[g].conditions|, refs, culture)
  {
    var n := |a.groups[g].conditions|;
    assert r.groups[g].conditions[n] == a1.groups[g].conditions[n] by {
      assert r.groups[g].conditions[..n + 1] == a1.groups[g].conditions;
    }
    ComparesRefKept(a1, r, mdb, a.groups[g].kind.join, a1.groups[g].conditions[n], refs[0], culture);
  }

  /** One condition after the first one of a foreign-key join: a value
      equality on the referenced column for a `"..."` reference, otherwise an
      equality between the two columns of the pair; linked with AND. */
  function NextCondition(a: Arena, mdb: Option<Metadata.MetadataDatabase>, g: GroupId,
                         ref: Metadata.ColumnReference, culture: Culture): (r: Result<Arena>)
    requires Valid(a) && g < |a.groups| && a.groups[g].kind.JoinGroup? && |a.groups[g].conditions| > 0
    ensures r.Ok? ==> ConditionAppended(a, r.value, g, AndLink, Equal)
    ensures r.Ok? ==> ComparesRef(r.value, mdb, a.groups[g].kind.join, r.value.groups[g].conditions[|a.groups[g].conditions|], ref, culture)
  {
    if Text.StartsWith(ref.name, "\"") then
      JoinValueCondition(a, mdb, g, ref.referencedColumn.name, Equal, ReferenceConstant(ref.name, culture), "")
    else
      JoinFieldCondition(a, mdb, g, ref.column.name, Equal, ref.referencedColumn.name, AndLink)
  }

  /** The conditions after the first one of a foreign-key join, one per
      column pair, in order. */
  function MoreConditions(a: Arena, mdb: Option<Metadata.MetadataDatabase>, g: GroupId,
                          refs: seq<Metadata.ColumnReference>, culture: Culture): (r: Result<Arena>)
    requires Valid(a) && g < |a.groups| && a.groups[g].kind.JoinGroup? && |a.groups[g].conditions| > 0
    ensures r.Ok? ==> GrewBy(a, r.value, g, |refs|)
    ensures r.Ok? ==> RefsFollow(r.value, mdb, g, |a.groups[g].conditions|, refs, culture)
    decreases |refs|
  {
    if |refs| == 0 then GrewByNothing(a, g); Ok(a)
    else
      var a1 :- NextCondition(a, mdb, g, refs[0], culture);
      var r :- MoreConditions(a1, mdb, g, refs[1..], culture);
      GrewByOneMore(a, a1, r, g, |refs| - 1);
      RefsFollowOneMore(a, a1, r, mdb, g, refs, culture);
      Ok(r)
  }

  /** The first ON condition of a join made on an empty group starts an
      equality chain, and more conditions extend it. */
  lemma ChainStarts(a1: Arena, a2: Arena, j: JoinId)
    requires Valid(a1) && j < |a1.joins| && |a1.groups[a1.joins[j].conditions].conditions| == 0
    requires ConditionAppended(a1, a2, a1.joins[j].conditions, NoLink, Equal)
    ensures EqualityChain(a2, j, 1)
  {
  }

  lemma ChainExtends(a2: Arena, a3: Arena, j: JoinId, k: nat)
    requires Valid(a2) && j < |a2.joins| && EqualityChain(a2, j, 1)
    requires GrewBy(a2, a3, a2.joins[j].conditions, k)
    ensures EqualityChain(a3, j, k + 1)
  {
    var g := a2.joins[j].conditions;
    assert a3.groups[g].conditions[..1] == a2.groups[g].conditions;
  }

  /** The primary-key branch of `To`: the one foreign key of the target table
      pointing back at `fromField` gives a join with the single condition
      `fromField = <its first reference's name>`. */
  function PrimaryKeyJoin(a: Arena, mdb: Option<Metadata.MetadataDatabase>, from: TableId, fromTable: Metadata.MetadataTable,
                          fromField: Metadata.MetadataColumn, toTable: Metadata.MetadataTable, kind: JoinType): (r: Result<(Arena, JoinId)>)
    requires Valid(a) && from < |a.tables|
    ensures |ReferencingKeys(toTable, fromTable, fromField)| != 1 ==> r == Err(InvalidOperation)
    ensures r.Ok? ==>
      (Valid(r.value.0) && r.value.1 == |a.joins| && |r.value.0.joins| == |a.joins| + 1
       && r.value.0.joins[r.value.1].kind == kind && r.value.0.joins[r.value.1].from == from
       && EqualityChain(r.value.0, r.value.1, 1))
    ensures r.Ok? ==>
      var fk := TheOne(ReferencingKeys(toTable, fromTable, fromField));
      var (a2, j) := r.value;
      |fk.references| > 0 && j < |a2.joins| && a2.joins[j].conditions < |a2.groups| && |a2.groups[a2.joins[j].conditions].conditions| == 1
      && JoinCompares(a2, mdb, j, a2.groups[a2.joins[j].conditions].conditions[0], fromField.name, fk.references[0].name)
  {
    var fks := ReferencingKeys(toTable, fromTable, fromField);
    if |fks| != 1 then Err(InvalidOperation)
    else
      var fk := TheOne(fks);
      var (a1, j) :- MakeJoin(a, kind, from, toTable.name, None, SchemaArgument(toTable.schema));
      var a2 :- On(a1, mdb, j, fromField.name, Equal, fk.references[0].name);
      ChainStarts(a1, a2, j);
      Ok((a2, j))
  }

  /** The foreign-key branch of `To`: the one foreign key on `fromField`
      pointing at the target table gives a join with one equality per column
      pair, in order. */
  function ForeignKeyJoin(a: Arena, mdb: Option<Metadata.MetadataDatabase>, from: TableId, fromTable: Metadata.MetadataTable,
                          fromField: Metadata.MetadataColumn, toTable: Metadata.MetadataTable, kind: JoinType,
                          culture: Culture): (r: Result<(Arena, JoinId)>)
    requires Valid(a) && from < |a.tables|
    ensures |Metadata.FindForeignKeys(fromTable, fromField, Some(toTable.name))| != 1 ==> r == Err(InvalidOperation)
    ensures r.Ok? ==>
      (Valid(r.value.0) && r.value.1 == |a.joins| && |r.value.0.joins| == |a.joins| + 1
       && r.value.0.joins[r.value.1].kind == kind && r.value.0.joins[r.value.1].from == from
       && |Metadata.FindForeignKeys(fromTable, fromField, Some(toTable.name))| == 1
       && EqualityChain(r.value.0, r.value.1, |TheOne(Metadata.FindForeignKeys(fromTable, fromField, Some(toTable.name))).references|))
    ensures r.Ok? ==>
      var fk := TheOne(Metadata.FindForeignKeys(fromTable, fromField, Some(toTable.name)));
      var (a3, j) := r.value;
      var g := a3.joins[j].conditions;
      |fk.references| > 0 && g < |a3.groups| && a3.groups[g].kind == JoinGroup(j) && |a3.groups[g].conditions| > 0
      && JoinCompares(a3, mdb, j, a3.groups[g].conditions[0], fromField.name, fk.references[0].referencedColumn.name)
      && RefsFollow(a3, mdb, g, 1, fk.references[1..], culture)
  {
    var fks := Metadata.FindForeignKeys(fromTable, fromField, Some(toTable.name));
    if |fks| != 1 then Err(InvalidOperation)
    else
      var fk := TheOne(fks);
      var (a1, j) :- MakeJoin(a, kind, from, toTable.name, None, SchemaArgument(toTable.schema));
      var g := a1.joins[j].conditions;
      var a2 :- On(a1, mdb, j, fromField.name, Equal, fk.references[0].referencedColumn.name);
      ChainStarts(a1, a2, j);
      var a3 :- MoreConditions(a2, mdb, g, fk.references[1..], culture);
      ChainExtends(a2, a3, j, |fk.references| - 1);
      assert a3.groups[g].conditions[0] == a2.groups[g].conditions[0] by {
        assert a3.groups[g].conditions[..1] == a2.groups[g].conditions;
      }
      JoinComparesKept(a2, a3, mdb, j, a2.groups[g].conditions[0], fromField.name, fk.references[0].referencedColumn.name);
      Ok((a3, j))
  }

  /** `To`: a primary key not preferred as a foreign key joins through the
      target's key pointing back at it, a foreign key through itself; any
      other column is refused. A missing target table is dereferenced. */
  function To(a: Arena, mdb: Option<Metadata.MetadataDatabase>, from: TableId, fromTable: Metadata.MetadataTable,
              fromField: Metadata.MetadataColumn, toTable: Option<Metadata.MetadataTable>, kind: JoinType,
              preferForeignKey: bool, culture: Culture): (r: Result<(Arena, JoinId)>)
    requires Valid(a) && from < |a.tables|
    ensures !fromField.isPrimaryKey && !fromField.isForeignKey ==> r == Err(ArgumentError)
    ensures (fromField.isPrimaryKey || fromField.isForeignKey) && toTable.None? ==> r == Err(NullReference)
    ensures fromField.isPrimaryKey && (!fromField.isForeignKey || !preferForeignKey) && toTable.Some? ==>
      r == PrimaryKeyJoin(a, mdb, from, fromTable, fromField, toTable.value, kind)
    ensures fromField.isForeignKey && !(fromField.isPrimaryKey && !preferForeignKey) && toTable.Some? ==>
      r == ForeignKeyJoin(a, mdb, from, fromTable, fromField, toTable.value, kind, culture)
    ensures r.Ok? ==>
      (Valid(r.value.0) && r.value.1 == |a.joins| && |r.value.0.joins| == |a.joins| + 1
       && r.value.0.joins[r.value.1].kind == kind && r.value.0.joins[r.value.1].from == from)
  {
    if fromField.isPrimaryKey && (!fromField.isForeignKey || !preferForeignKey) then
      match toTable
      case None => Err(NullReference)
      case Some(t) => PrimaryKeyJoin(a, mdb, from, fromTable, fromField, t, kind)
    else if fromField.isForeignKey then
      match toTable
      case None => Err(NullReference)
      case Some(t) => ForeignKeyJoin(a, mdb, from, fromTable, fromField, t, kind, culture)
    else Err(ArgumentError)
  }

  // ---------------------------------------------------------------------------
  // Included columns

  /** How an `IncludeColumns` entry reads: `name=alias` when it has an `=`
      after its first character (the alias ends at the next `=`), otherwise a
      column name whose alias is the joining column's name, `_`, and the
      name. */
  datatype Include = Include(name: string, alias: string)

  function IncludeSpec(entry: string, fromName: string): (r: Include)
    ensures (IndexOf(entry, '=').Some? && IndexOf(entry, '=').value > 0) ==>
      ('=' !in r.name && '=' !in r.alias && |r.name| > 0 && Text.StartsWith(entry, r.name + "=" + r.alias))
    ensures !(IndexOf(entry, '=').Some? && IndexOf(entry, '=').value > 0) ==>
      r == Include(entry, fromName + "_" + entry)
  {
    match IndexOf(entry, '=')
    case Some(k) =>
      if k > 0 then
        var rest := entry[k + 1..];
        var alias := match IndexOf(rest, '=') case Some(m) => rest[..m] case None => rest;
        assert entry[..k + 1 + |alias|] == entry[..k] + "=" + alias;
        Include(entry[..k], alias)
      else Include(entry, fromName + "_" + entry)
    case None => Include(entry, fromName + "_" + entry)
  }

  /** An entry with a single `=` splits into exactly its two sides. */
  lemma IncludeSpecSplits(name: string, alias: string, fromName: string)
    requires |name| > 0 && '=' !in name && '=' !in alias
    ensures IncludeSpec(name + "=" + alias, fromName) == Include(name, alias)
  {
    var entry := name + "=" + alias;
    assert entry[|name|] == '=' && '=' !in entry[..|name|] by {
      assert entry[..|name|] == name;
    }
    assert IndexOf(entry, '=') == Some(|name|);
    assert entry[|name| + 1..] == alias;
  }

  /** `r` is `a` with one column field per entry appended to table `t` (and
      to the arena's fields), each the column its entry names, aliased as
      the entry says; nothing else changes. */
  ghost predicate IncludedColumns(a: Arena, r: Arena, mdb: Option<Metadata.MetadataDatabase>, t: TableId,
                                  fromName: string, entries: seq<string>)
    requires t < |a.tables|
  {
    AppendedShape(a, r, t, |entries|) && AppendedIncludes(a, r, mdb, t, fromName, entries)
  }

  ghost predicate AppendedShape(a: Arena, r: Arena, t: TableId, k: nat)
    requires t < |a.tables|
  {
    r.joins == a.joins && r.builders == a.builders && r.groups == a.groups
    && |r.tables| == |a.tables| && |r.fields| == |a.fields| + k && r.fields[..|a.fields|] == a.fields
    && |r.tables[t].fields| == |a.tables[t].fields| + k && r.tables[t].fields[..|a.tables[t].fields|] == a.tables[t].fields
  }

  /** The column field `Table.Column` makes for an entry: named as the entry
      says (or as the catalogue spells it, typed from the catalogue), and
      aliased as the entry says. */
  function IncludedField(a: Arena, mdb: Option<Metadata.MetadataDatabase>, t: TableId, spec: Include): Field
    requires t < |a.tables|
  {
    Populated(mdb, FullName(a.tables[t]), NewField(ColumnField, spec.name, Some(spec.alias), Some(t), NullValue))
  }

  ghost predicate AppendedIncludes(a: Arena, r: Arena, mdb: Option<Metadata.MetadataDatabase>, t: TableId,
                                   fromName: string, entries: seq<string>)
    requires t < |a.tables| && AppendedShape(a, r, t, |entries|)
  {
    var ids := r.tables[t].fields[|a.tables[t].fields|..];
    var added := r.fields[|a.fields|..];
    forall i :: 0 <= i < |entries| ==>
      ids[i] == |a.fields| + i && added[i].kind == ColumnField
      && added[i].alias == Some(IncludeSpec(entries[i], fromName).alias)
      && added[i] == IncludedField(a, mdb, t, IncludeSpec(entries[i], fromName))
  }

  lemma IncludedNone(a: Arena, mdb: Option<Metadata.MetadataDatabase>, t: TableId, fromName: string)
    requires Valid(a) && t < |a.tables|
    ensures IncludedColumns(a, a, mdb, t, fromName, [])
  {
    assert a.fields[..|a.fields|] == a.fields;
    assert a.tables[t].fields[..|a.tables[t].fields|] == a.tables[t].fields;
  }

  lemma ShapeOneMore(a: Arena, a1: Arena, r: Arena, t: TableId, k: nat)
    requires t < |a.tables|
    requires a1 == a.(fields := a1.fields, tables := a.tables[t := a.tables[t].(fields := a.tables[t].fields + [|a.fields|])])
    requires |a1.fields| == |a.fields| + 1 && a1.fields[..|a.fields|] == a.fields
    requires AppendedShape(a1, r, t, k)
    ensures AppendedShape(a, r, t, k + 1)
    ensures r.tables[t].fields[|a.tables[t].fields|] == |a.fields| && r.fields[|a.fields|] == a1.fields[|a.fields|]
  {
    var n := |a.fields|;
    var m := |a.tables[t].fields|;
    assert r.fields[..n] == a.fields by {
      assert r.fields[..n] == r.fields[..n + 1][..n];
    }
    assert r.fields[n] == a1.fields[n] by {
      assert r.fields[..n + 1] == a1.fields;
    }
    assert r.tables[t].fields[..m] == a.tables[t].fields by {
      assert r.tables[t].fields[..m] == r.tables[t].fields[..m + 1][..m];
    }
    assert r.tables[t].fields[m] == n by {
      assert r.tables[t].fields[..m + 1] == a1.tables[t].fields;
    }
  }

  lemma IncludedOneMore(a: Arena, a1: Arena, r: Arena, mdb: Option<Metadata.MetadataDatabase>, t: TableId,
                        fromName: string, entries: seq<string>)
    requires t < |a.tables| && |entries| > 0
    requires a1 == a.(fields := a1.fields, tables := a.tables[t := a.tables[t].(fields := a.tables[t].fields + [|a.fields|])])
    requires |a1.fields| == |a.fields| + 1 && a1.fields[..|a.fields|] == a.fields
    requires a1.fields[|a.fields|].kind == ColumnField
    requires a1.fields[|a.fields|].alias == Some(IncludeSpec(entries[0], fromName).alias)
    requires a1.fields[|a.fields|] == IncludedField(a, mdb, t, IncludeSpec(entries[0], fromName))
    requires IncludedColumns(a1, r, mdb, t, fromName, entries[1..])
    ensures IncludedColumns(a, r, mdb, t, fromName, entries)
  {
    ShapeOneMore(a, a1, r, t, |entries| - 1);
    IncludesOneMore(a, a1, r, mdb, t, fromName, entries);
  }

  lemma IncludesOneMore(a: Arena, a1: Arena, r: Arena, mdb: Option<Metadata.MetadataDatabase>, t: TableId,
                        fromName: string, entries: seq<string>)
    requires t < |a.tables| && |entries| > 0 && t < |a1.tables| && FullName(a1.tables[t]) == FullName(a.tables[t])
    requires |a1.fields| == |a.fields| + 1 && |a1.tables[t].fields| == |a.tables[t].fields| + 1
    requires AppendedShape(a, r, t, |entries|) && AppendedShape(a1, r, t, |entries| - 1)
    requires r.tables[t].fields[|a.tables[t].fields|] == |a.fields| && r.fields[|a.fields|] == a1.fields[|a.fields|]
    requires a1.fields[|a.fields|].kind == ColumnField
    requires a1.fields[|a.fields|].alias == Some(IncludeSpec(entries[0], fromName).alias)
    requires a1.fields[|a.fields|] == IncludedField(a, mdb, t, IncludeSpec(entries[0], fromName))
    requires AppendedIncludes(a1, r, mdb, t, fromName, entries[1..])
    ensures AppendedIncludes(a, r, mdb, t, fromName, entries)
  {
    var ids := r.tables[t].fields[|a.tables[t].fields|..];
    var added := r.fields[|a.fields|..];
    var ids1 := r.tables[t].fields[|a1.tables[t].fields|..];
    var added1 := r.fields[|a1.fields|..];
    forall i | 0 <= i < |entries|
      ensures ids[i] == |a.fields| + i && added[i].kind == ColumnField
        && added[i].alias == Some(IncludeSpec(entries[i], fromName).alias)
        && added[i] == IncludedField(a, mdb, t, IncludeSpec(entries[i], fromName))
    {
      if i > 0 {
        var j := i - 1;
        assert 0 <= j < |entries[1..]|;
        assert ids1[j] == |a1.fields| + j && added1[j].kind == ColumnField
          && added1[j].alias == Some(IncludeSpec(entries[1..][j], fromName).alias)
          && added1[j] == IncludedField(a1, mdb, t, IncludeSpec(entries[1..][j], fromName));
        assert ids[i] == ids1[j] && added[i] == added1[j];
        assert entries[i] == entries[1..][j];
      }
    }
  }

  /** The columns `JoinInternal` adds to the joined table for the joining
      column's `IncludeColumns`, one per entry, in order. */
  function IncludeColumns(a: Arena, mdb: Option<Metadata.MetadataDatabase>, t: TableId, fromName: string,
                          entries: seq<string>): (r: Result<Arena>)
    requires Valid(a) && t < |a.tables|
    ensures |entries| > 0 && a.tables[t].builder.None? ==> r == Err(NullReference)
    ensures r.Ok? ==> Valid(r.value) && IncludedColumns(a, r.value, mdb, t, fromName, entries)
    decreases |entries|
  {
    if |entries| == 0 then IncludedNone(a, mdb, t, fromName); Ok(a)
    else
      var spec := IncludeSpec(entries[0], fromName);
      var a1 :- Statements.Column(a, mdb, t, spec.name, Some(spec.alias));
      var r :- IncludeColumns(a1, mdb, t, fromName, entries[1..]);
      IncludedOneMore(a, a1, r, mdb, t, fromName, entries);
      Ok(r)
  }

  // ---------------------------------------------------------------------------
  // Joins by column and by table

  /** Facts every successful metadata join promises: one new join of the
      requested kind from the helper's table, to the table returned. */
  ghost predicate JoinedTo(a: Arena, r: (Arena, TableId), from: TableId, kind: JoinType)
  {
    Valid(r.0) && |r.0.joins| == |a.joins| + 1 && r.1 < |r.0.tables|
    && r.0.joins[|a.joins|].kind == kind && r.0.joins[|a.joins|].from == from && r.0.joins[|a.joins|].to == r.1
  }

  /** `JoinInternal(helper, foreignKeyField, joinType)`: joins along the one
      foreign key of the named column to the table it references (looked up
      in the catalogue by schema and name), then adds the column's included
      columns to the joined table. */
  function JoinOnColumn(a: Arena, mdb: Option<Metadata.MetadataDatabase>, h: Helper, column: string,
                        kind: JoinType, culture: Culture): (r: Result<(Arena, TableId)>)
    requires Valid(a) && h.table < |a.tables|
    ensures column !in h.model.columns ==> r == Err(ArgumentError)
    ensures column in h.model.columns && |Metadata.FindForeignKeys(h.model, h.model.columns[column], None)| != 1
            ==> r == Err(ArgumentError)
    ensures r.Ok? ==> JoinedTo(a, r.value, h.table, kind)
    ensures r.Ok? ==>
      var fromField := h.model.columns[column];
      var fk := TheOne(Metadata.FindForeignKeys(h.model, fromField, None));
      mdb.Some? && Metadata.FindTable(mdb.value, fk.referencedSchema + "." + fk.referencedTable, true).Some?
  {
    if column !in h.model.columns then Err(ArgumentError)
    else
      var fromField := h.model.columns[column];
      var fks := Metadata.FindForeignKeys(h.model, fromField, None);
      if |fks| != 1 then Err(ArgumentError)
      else
        var fk := TheOne(fks);
        var name := fk.referencedSchema + "." + fk.referencedTable;
        if a.tables[h.table].builder.None? || mdb.None? then Err(NullReference)
        else
          var toTable := Metadata.FindTable(mdb.value, name, true);
          if toTable.None? then Err(InvalidOperation)
          else
            var (a1, j) :- To(a, mdb, h.table, h.model, fromField, toTable, kind, true, culture);
            var t := a1.joins[j].to;
            assert JoinOk(SizesOf(a1), a1.joins[j]);
            var a2 :- IncludeColumns(a1, mdb, t, fromField.name, fromField.includeColumns.GetOr([]));
            Ok((a2, t))
  }

  /** `AutoJoin`: a LEFT OUTER join for a nullable column, an INNER join
      otherwise. */
  function AutoJoin(a: Arena, mdb: Option<Metadata.MetadataDatabase>, h: Helper, column: string,
                    culture: Culture): (r: Result<(Arena, TableId)>)
    requires Valid(a) && h.table < |a.tables|
    ensures column !in h.model.columns ==> r == Err(ArgumentError)
    ensures r.Ok? ==> (column in h.model.columns
      && JoinedTo(a, r.value, h.table, if h.model.columns[column].nullable then LeftOuter else Inner))
  {
    if column !in h.model.columns then Err(ArgumentError)
    else JoinOnColumn(a, mdb, h, column, if h.model.columns[column].nullable then LeftOuter else Inner, culture)
  }

  /** The join `AutoJoin` adds is a LEFT OUTER join exactly when the column
      is nullable. */
  lemma AutoJoinKind(a: Arena, mdb: Option<Metadata.MetadataDatabase>, h: Helper, column: string, culture: Culture)
    requires Valid(a) && h.table < |a.tables|
    requires AutoJoin(a, mdb, h, column, culture).Ok?
    ensures var r := AutoJoin(a, mdb, h, column, culture).value;
            (r.0.joins[|a.joins|].kind == LeftOuter <==> h.model.columns[column].nullable)
            && (r.0.joins[|a.joins|].kind == Inner <==> !h.model.columns[column].nullable)
  {
  }

  /** `JoinInternal(helper, toTable, toSchema, joinType)`: joins the
      helper's table, through its single primary-key column, to a catalogue
      table named by schema (`dbo` by default) and name. */
  ghost function JoinToTable(a: Arena, mdb: Option<Metadata.MetadataDatabase>, h: Helper, toTable: string,
                             toSchema: Option<string>, kind: JoinType, culture: Culture): (r: Result<(Arena, TableId)>)
    requires Valid(a) && h.table < |a.tables|
    ensures Metadata.PrimaryKey(h.model).None? ==> r == Err(NullReference)
    ensures Metadata.PrimaryKey(h.model).Some? && |Metadata.PrimaryKey(h.model).value.columns| != 1 ==> r == Err(InvalidOperation)
    ensures r.Ok? ==> JoinedTo(a, r.value, h.table, kind)
    ensures r.Ok? ==>
      var key := Metadata.PrimaryKey(h.model).value.columns[0];
      mdb.Some? && (key.isPrimaryKey || key.isForeignKey)
      && Metadata.FindTable(mdb.value, toSchema.GetOr("dbo") + "." + toTable, true).Some?
  {
    match Metadata.PrimaryKey(h.model)
    case None => Err(NullReference)
    case Some(pk) =>
      if |pk.columns| != 1 then Err(InvalidOperation)
      else if a.tables[h.table].builder.None? || mdb.None? then Err(NullReference)
      else
        var mt := Metadata.FindTable(mdb.value, toSchema.GetOr("dbo") + "." + toTable, true);
        var (a1, j) :- To(a, mdb, h.table, h.model, pk.columns[0], mt, kind, false, culture);
        assert JoinOk(SizesOf(a1), a1.joins[j]);
        Ok((a1, a1.joins[j].to))
  }

  /** Joining to a table by name from a primary key that is flagged as such
      gives a single ON condition. */
  lemma JoinToTableSingleCondition(a: Arena, mdb: Option<Metadata.MetadataDatabase>, h: Helper, toTable: string,
                                   toSchema: Option<string>, kind: JoinType, culture: Culture)
    requires Valid(a) && h.table < |a.tables|
    requires JoinToTable(a, mdb, h, toTable, toSchema, kind, culture).Ok?
    requires Metadata.PrimaryKey(h.model).value.columns[0].isPrimaryKey
    ensures var r := JoinToTable(a, mdb, h, toTable, toSchema, kind, culture).value.0;
            EqualityChain(r, |a.joins|, 1)
  {
    var pk := Metadata.PrimaryKey(h.model).value;
    var mt := Metadata.FindTable(mdb.value, toSchema.GetOr("dbo") + "." + toTable, true);
    assert To(a, mdb, h.table, h.model, pk.columns[0], mt, kind, false, culture)
        == PrimaryKeyJoin(a, mdb, h.table, h.model, pk.columns[0], mt.value, kind);
  }

  // ---------------------------------------------------------------------------
  // Primary-key conditions

  /** Condition `c` of `a` is `column = key` as `WhereInternal` builds it:
      its field is on a table `tableName` names (by name, alias or full
      name), holds `key`, and is that table's column `column`, spelt as the
      table's own field of that name or alias when it has one and typed from
      the catalogue. */
  ghost predicate KeyCompared(a: Arena, mdb: Option<Metadata.MetadataDatabase>, c: Condition, tableName: string,
                              column: string, key: Value)
    requires Valid(a)
  {
    c.op == Equal && c.right.None? && c.left < |a.fields|
    && var f := a.fields[c.left];
       f.table.Some? && f.table.value < |a.tables| && WhereTableMatch(a.tables[f.table.value], tableName) && f.value == key
       && f == Populated(mdb, FullName(a.tables[f.table.value]),
                         MadeField(a, mdb, ValueField(TypeOf(key)), f.table.value, WhereFieldName(a, f.table.value, column), key))
  }

  /** Adding fields and conditions keeps what a key condition compares. */
  lemma KeyComparedKept(a: Arena, r: Arena, mdb: Option<Metadata.MetadataDatabase>, c: Condition, tableName: string,
                        column: string, key: Value)
    requires Valid(a) && Valid(r) && FieldsKept(a, r)
    requires KeyCompared(a, mdb, c, tableName, column, key)
    ensures KeyCompared(r, mdb, c, tableName, column, key)
  {
    assert r.fields[c.left] == r.fields[..|a.fields|][c.left];
    WhereFieldNameKept(a, r, a.fields[c.left].table.value, column);
  }

  /** The condition a successful `WhereInternal` appends compares as asked. */
  lemma KeyComparedAdded(a: Arena, r: Arena, mdb: Option<Metadata.MetadataDatabase>, c: Condition, tableName: string,
                         column: string, key: Value)
    requires Valid(a) && Valid(r) && FieldsKept(a, r) && c.left == |a.fields| && c.op == Equal && c.right.None?
    requires WhereFieldAdded(a, r, mdb, column, key)
    requires WhereTableMatch(a.tables[r.fields[|a.fields|].table.value], tableName)
    ensures KeyCompared(r, mdb, c, tableName, column, key)
  {
    WhereFieldNameKept(a, r, r.fields[|a.fields|].table.value, column);
  }

  /** From position `start` on, the conditions of group `w` of `a` compare,
      in order, the key columns `cols[i..]` with the values at the same
      positions of `keys`, and there are no others. */
  ghost predicate KeysCompared(a: Arena, mdb: Option<Metadata.MetadataDatabase>, w: GroupId, start: nat, tableName: string,
                               cols: seq<Metadata.MetadataColumn>, keys: seq<Value>, i: nat)
    requires Valid(a)
    decreases |cols| - i
  {
    w < |a.groups| && start <= |a.groups[w].conditions|
    && if i < |cols| then
         start < |a.groups[w].conditions| && i < |keys|
         && KeyCompared(a, mdb, a.groups[w].conditions[start], tableName, cols[i].name, keys[i])
         && KeysCompared(a, mdb, w, start + 1, tableName, cols, keys, i + 1)
       else start == |a.groups[w].conditions|
  }

  /** A key condition followed by conditions for the later keys compares all
      of them. */
  lemma KeysComparedOneMore(a: Arena, a1: Arena, r: Arena, mdb: Option<Metadata.MetadataDatabase>, w: GroupId, tableName: string,
                            cols: seq<Metadata.MetadataColumn>, keys: seq<Value>, i: nat)
    requires Valid(a1) && w < |a.groups| && w < |a1.groups| && i < |cols| && i < |keys|
    requires |a1.groups[w].conditions| == |a.groups[w].conditions| + 1
    requires KeyCompared(a1, mdb, a1.groups[w].conditions[|a.groups[w].conditions|], tableName, cols[i].name, keys[i])
    requires GrewBy(a1, r, w, |cols| - i - 1)
    requires KeysCompared(r, mdb, w, |a1.groups[w].conditions|, tableName, cols, keys, i + 1)
    ensures KeysCompared(r, mdb, w, |a.groups[w].conditions|, tableName, cols, keys, i)
  {
    var n := |a.groups[w].conditions|;
    assert r.groups[w].conditions[n] == a1.groups[w].conditions[n] by {
      assert r.groups[w].conditions[..n + 1] == a1.groups[w].conditions;
    }
    KeyComparedKept(a1, r, mdb, a1.groups[w].conditions[n], tableName, cols[i].name, keys[i]);
  }

  /** One AND-linked key equality. */
  function KeyCondition(a: Arena, mdb: Option<Metadata.MetadataDatabase>, w: GroupId, tableName: string,
                        column: string, key: Value): (r: Result<Arena>)
    requires Valid(a) && w < |a.groups| && |a.groups[w].conditions| > 0
    ensures r.Ok? ==> ConditionAppended(a, r.value, w, AndLink, Equal)
    ensures r.Ok? ==> KeyCompared(r.value, mdb, r.value.groups[w].conditions[|a.groups[w].conditions|], tableName, column, key)
  {
    var r := AndOr(a, mdb, w, tableName, column, Equal, key, AndLink);
    if r.Ok? then
      ValueConditionAppended(a, r.value, w, AndLink, Equal);
      KeyComparedAdded(a, r.value, mdb, r.value.groups[w].conditions[|a.groups[w].conditions|], tableName, column, key);
      r
    else r
  }

  /** The primary-key columns from position `i` on: one AND-linked equality
      each with the key value at the same position. */
  function AndKeys(a: Arena, mdb: Option<Metadata.MetadataDatabase>, w: GroupId, tableName: string,
                   cols: seq<Metadata.MetadataColumn>, keys: seq<Value>, i: nat): (r: Result<Arena>)
    requires Valid(a) && w < |a.groups| && |a.groups[w].conditions| > 0
    ensures |keys| < |cols| && i < |cols| ==> r.Err?
    ensures r.Ok? ==> GrewBy(a, r.value, w, if i < |cols| then |cols| - i else 0)
    ensures r.Ok? ==> KeysCompared(r.value, mdb, w, |a.groups[w].conditions|, tableName, cols, keys, i)
    decreases |cols| - i
  {
    if i >= |cols| then GrewByNothing(a, w); Ok(a)
    else if i >= |keys| then Err(IndexOutOfRange)
    else
      var a1 :- KeyCondition(a, mdb, w, tableName, cols[i].name, keys[i]);
      var r :- AndKeys(a1, mdb, w, tableName, cols, keys, i + 1);
      GrewByOneMore(a, a1, r, w, |cols| - i - 1);
      KeysComparedOneMore(a, a1, r, mdb, w, tableName, cols, keys, i);
      Ok(r)
  }

  /** A value condition appended to a group leaves the group's earlier
      conditions and its other parts alone. */
  lemma AppendedKeepsGroup(a: Arena, r: Arena, g: GroupId, c: Condition)
    requires Valid(a) && g < |a.groups|
    requires AppendedTo(a.(fields := r.fields), r, g, c)
    ensures |r.groups| == |a.groups| && r.groups[g] == a.groups[g].(conditions := a.groups[g].conditions + [c])
  {
    assert GroupOk(SizesOf(a), g, a.groups[g]);
  }

  /** The first key equality on an empty WHERE group, followed by the others. */
  lemma FirstKeyThenOthers(a: Arena, a1: Arena, r: Arena, w: GroupId, k: nat)
    requires Valid(a) && w < |a.groups| && |a.groups[w].conditions| == 0
    requires |a1.groups| == |a.groups| && a1.groups[w] == a.groups[w].(conditions := [Condition(NoLink, |a.fields|, Equal, None)])
    requires GrewBy(a1, r, w, k)
    ensures |r.groups[w].conditions| == k + 1 && r.groups[w].conditions[0].link == NoLink
    ensures forall i :: 0 <= i < |r.groups[w].conditions| ==> r.groups[w].conditions[i].op == Equal
    ensures forall i :: 1 <= i < |r.groups[w].conditions| ==> r.groups[w].conditions[i].link == AndLink
  {
    assert r.groups[w].conditions[..1] == a1.groups[w].conditions;
  }

  /** `WherePrimaryKey`: on an empty WHERE group, an equality for every
      primary-key column with the key value at its position, the first
      unlinked; on a non-empty one the first key column is skipped and the
      others are added with AND. */
  ghost function WherePrimaryKey(a: Arena, mdb: Option<Metadata.MetadataDatabase>, h: Helper, keys: seq<Value>): (r: Result<Arena>)
    requires Valid(a) && h.table < |a.tables|
    ensures Metadata.PrimaryKey(h.model).None? ==> r == Err(NullReference)
    ensures r.Ok? ==>
      (Valid(r.value) && Metadata.PrimaryKey(h.model).Some? && a.tables[h.table].builder.Some?
       && a.builders[a.tables[h.table].builder.value].where.Some?)
    ensures r.Ok? ==>
      var cols := Metadata.PrimaryKey(h.model).value.columns;
      var b := a.tables[h.table].builder.value;
      var w := a.builders[b].where.value;
      (|cols| > 0 && w < |a.groups| && w < |r.value.groups|
       && (|a.groups[w].conditions| > 0 ==> GrewBy(a, r.value, w, |cols| - 1))
       && (|a.groups[w].conditions| == 0 ==>
             var cs := r.value.groups[w].conditions;
             (|cs| == |cols| && cs[0].link == NoLink
              && (forall k :: 0 <= k < |cs| ==> cs[k].op == Equal)
              && (forall k :: 1 <= k < |cs| ==> cs[k].link == AndLink))))
    ensures r.Ok? ==>
      var w := a.builders[a.tables[h.table].builder.value].where.value;
      KeysCompared(r.value, mdb, w, |a.groups[w].conditions|, h.model.name, Metadata.PrimaryKey(h.model).value.columns, keys,
                   if |a.groups[w].conditions| == 0 then 0 else 1)
    ensures Metadata.PrimaryKey(h.model).Some? ==>
      (var cols := Metadata.PrimaryKey(h.model).value.columns;
       |keys| < |cols| && |cols| > 1 ==> r.Err?)
  {
    match Metadata.PrimaryKey(h.model)
    case None => Err(NullReference)
    case Some(pk) =>
      if |pk.columns| == 0 then Err(InvalidOperation)
      else match a.tables[h.table].builder
      case None => Err(NullReference)
      case Some(b) =>
        match a.builders[b].where
        case None => Err(NullReference)
        case Some(w) =>
          assert BuilderOk(SizesOf(a), a.builders[b]);
          if |a.groups[w].conditions| == 0 then KeysOnEmptyWhere(a, mdb, h, w, pk.columns, keys)
          else AndKeys(a, mdb, w, h.model.name, pk.columns, keys, 1)
  }

  /** The empty-group branch of `WherePrimaryKey`: the first key column with
      `Table.Where`, unlinked, then the others with AND. */
  ghost function KeysOnEmptyWhere(a: Arena, mdb: Option<Metadata.MetadataDatabase>, h: Helper, w: GroupId,
                                  cols: seq<Metadata.MetadataColumn>, keys: seq<Value>): (r: Result<Arena>)
    requires Valid(a) && h.table < |a.tables| && a.tables[h.table].builder.Some?
    requires a.builders[a.tables[h.table].builder.value].where == Some(w) && w < |a.groups|
    requires |a.groups[w].conditions| == 0 && |cols| > 0
    ensures |keys| < |cols| ==> r.Err?
    ensures r.Ok? ==>
      Valid(r.value) && w < |r.value.groups|
      && var cs := r.value.groups[w].conditions;
         |cs| == |cols| && cs[0].link == NoLink
         && (forall k :: 0 <= k < |cs| ==> cs[k].op == Equal)
         && (forall k :: 1 <= k < |cs| ==> cs[k].link == AndLink)
    ensures r.Ok? ==> KeysCompared(r.value, mdb, w, 0, h.model.name, cols, keys, 0)
  {
    if |keys| == 0 then Err(IndexOutOfRange)
    else
      var a1 :- Where(a, mdb, h.table, h.model.name, cols[0].name, Equal, keys[0]);
      AppendedKeepsGroup(a, a1, w, Condition(NoLink, |a.fields|, Equal, None));
      KeyComparedAdded(a, a1, mdb, a1.groups[w].conditions[0], h.model.name, cols[0].name, keys[0]);
      var r :- AndKeys(a1, mdb, w, h.model.name, cols, keys, 1);
      FirstKeyThenOthers(a, a1, r, w, |cols| - 1);
      KeysComparedOneMore(a, a1, r, mdb, w, h.model.name, cols, keys, 0);
      Ok(r)
  }

  // ---------------------------------------------------------------------------
  // Title column

  /** The words `GuessTitleColumn` looks for in column names, in order. */
  const TitleWords: seq<string> := ["name", "title", "description", "fullname", "navn", "titel", "beskrivelse"]

  /** `name.IndexOf(word, OrdinalIgnoreCase) >= 0`. */
  predicate ContainsIgnoreCase(name: string, word: string) {
    Occurs(Fold(word), Fold(name))
  }

  /** Some column of `cols` has a name containing `word`. */
  predicate SomeColumnContains(cols: seq<Metadata.MetadataColumn>, word: string) {
    exists i :: 0 <= i < |cols| && ContainsIgnoreCase(cols[i].name, word)
  }

  /** The first column (in `cols`) whose name contains the first word of
      `words` that any column contains. */
  function TitleByWords(cols: seq<Metadata.MetadataColumn>, words: seq<string>): (r: Option<string>)
    ensures r.None? <==> forall j :: 0 <= j < |words| ==> !SomeColumnContains(cols, words[j])
    ensures r.Some? ==> exists i :: 0 <= i < |cols| && cols[i].name == r.value
    ensures r.Some? ==>
      exists j :: (0 <= j < |words| && ContainsIgnoreCase(r.value, words[j])
                   && forall k :: 0 <= k < j ==> !SomeColumnContains(cols, words[k]))
  {
    match FirstIndex(words, (w: string) => SomeColumnContains(cols, w))
    case Some(j) =>
      var i := FirstIndex(cols, (c: Metadata.MetadataColumn) => ContainsIgnoreCase(c.name, words[j]));
      assert i.Some?;
      Some(cols[i.value].name)
    case None => None
  }

  /** `GuessTitleColumn`: the table's title column when one is set; else the
      first column (in the dictionary's order) whose name contains the first
      title word any column contains; else the first primary-key column. */
  ghost function GuessTitleColumn(t: Metadata.MetadataTable): (r: Result<string>)
    ensures t.titleColumn.Some? && t.titleColumn.value != "" ==> r == Ok(t.titleColumn.value)
    ensures !(t.titleColumn.Some? && t.titleColumn.value != "") && TitleByWords(ValuesInOrder(t.columns), TitleWords).Some? ==>
      (r == Ok(TitleByWords(ValuesInOrder(t.columns), TitleWords).value)
       && exists c :: c in t.columns.Values && c.name == r.value)
    ensures !(t.titleColumn.Some? && t.titleColumn.value != "") && TitleByWords(ValuesInOrder(t.columns), TitleWords).None? ==>
      (Metadata.PrimaryKey(t).None? ==> r == Err(NullReference))
      && (Metadata.PrimaryKey(t).Some? && |Metadata.PrimaryKey(t).value.columns| == 0 ==> r == Err(InvalidOperation))
      && (Metadata.PrimaryKey(t).Some? && |Metadata.PrimaryKey(t).value.columns| > 0 ==>
            r == Ok(Metadata.PrimaryKey(t).value.columns[0].name))
  {
    if t.titleColumn.Some? && t.titleColumn.value != "" then Ok(t.titleColumn.value)
    else
      match TitleByWords(ValuesInOrder(t.columns), TitleWords)
      case Some(name) => Ok(name)
      case None =>
        match Metadata.PrimaryKey(t)
        case None => Err(NullReference)
        case Some(pk) => if |pk.columns| == 0 then Err(InvalidOperation) else Ok(pk.columns[0].name)
  }
}
