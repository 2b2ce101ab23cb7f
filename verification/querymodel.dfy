/** The in-memory query model a `SqlBuilder` accumulates: tables, fields,
    condition groups, joins and builders. The library links these objects by
    reference, with cycles (field to table to builder, group to builder,
    builder to parent builder); the model keeps each kind of object in a
    sequence of an `Arena` and links them by position. */
module QueryModel {
  import opened Outcomes
  import opened Text
  import opened SqlTypes
  import opened Values
  import opened Collections
  import Metadata

  type TableId = nat
  type FieldId = nat
  type GroupId = nat
  type JoinId = nat
  type BuilderId = nat

  /** `OrderBy`: a field and a direction. */
  datatype OrderBy = OrderBy(field: FieldId, direction: OrderDirection)

  /** The table classes: plain `Table`, the `TempTable` of a `SELECT ... INTO`,
      and the target tables of INSERT and UPDATE with their `Output` parameter
      (`None` while it is still the empty default one). */
  datatype TableKind =
    | PlainTable
    | TempTable(orderBy: seq<OrderBy>, outputTable: bool)
    | InsertIntoTable(insertOutput: Option<FieldId>)
    | UpdateTable(updateOutput: Option<FieldId>)

  /** `Table`: `alias` is the explicitly set alias (`_Alias`), `None` when
      none was set. */
  datatype Table = Table(
    kind: TableKind,
    name: string,
    schema: Option<string>,
    alias: Option<string>,
    fields: seq<FieldId>,
    builder: Option<BuilderId>)

  /** The field classes: a plain column `Field`, a `ValueField` holding a
      literal, a `ParameterField` (a T-SQL variable) and a
      `TableParameterField` (a table variable filled by `OUTPUT ... INTO`). */
  datatype FieldKind =
    | ColumnField
    | ValueField(dataType: Option<ClrType>)
    | ParameterField(parameterName: string, isOutput: bool, paramType: Option<ClrType>)
    | TableParameterField(tableParameterName: string, parameterTable: TableId)

  datatype Field = Field(
    kind: FieldKind,
    name: string,
    alias: Option<string>,
    table: Option<TableId>,
    value: Value,
    sqlType: SqlDbType,
    maxLength: int,
    precision: int,
    scale: int)

  /** `FieldCondition`: `left` compared with the field `right`, or with the
      value `left` holds when `right` is `None`. */
  datatype Condition = Condition(link: BoolOperator, left: FieldId, op: SqlOperator, right: Option<FieldId>)

  datatype GroupKind =
    | WhereGroup
    | JoinGroup(join: JoinId)
    | IfElseGroup
    | ExistsGroup(inTable: TableId, fromTable: Option<string>, negated: bool)

  /** `ConditionGroup` and its subclasses. */
  datatype Group = Group(
    kind: GroupKind,
    link: BoolOperator,
    conditions: seq<Condition>,
    subGroups: seq<GroupId>,
    parent: Option<GroupId>,
    builder: Option<BuilderId>)

  datatype Join = Join(kind: JoinType, from: TableId, to: TableId, conditions: GroupId, builder: Option<BuilderId>)

  /** `StoredProcedure`; it belongs to the builder that holds it. */
  datatype Procedure = Procedure(name: string, schema: Option<string>, parameters: seq<FieldId>)

  /** The parts an `IfStatement` adds to a builder: its branch kind, its body
      builder, its condition group and its ELSE branches (themselves
      `IfStatement` builders). */
  datatype IfPart = IfPart(branch: BranchStatement, body: BuilderId, conditions: GroupId, branches: seq<BuilderId>)

  /** `SqlBuilder`; `where` is `None` once `WhereConditions` has been replaced
      by a null group. */
  datatype Builder = Builder(
    kind: StatementType,
    tables: seq<TableId>,
    joins: seq<JoinId>,
    where: Option<GroupId>,
    orderBy: seq<OrderBy>,
    subQueries: map<string, BuilderId>,
    parent: Option<BuilderId>,
    declarations: map<string, string>,
    top: Option<int>,
    distinct: bool,
    name: Option<string>,
    selectInto: Option<TableId>,
    procedure: Option<Procedure>,
    ifPart: Option<IfPart>)

  datatype Arena = Arena(
    tables: seq<Table>,
    fields: seq<Field>,
    groups: seq<Group>,
    joins: seq<Join>,
    builders: seq<Builder>)

  // ---------------------------------------------------------------------------
  // Well-formedness: every link points at an existing object, and a group's
  // sub-groups were created after it.

  datatype Sizes = Sizes(tables: nat, fields: nat, groups: nat, joins: nat, builders: nat)

  function SizesOf(a: Arena): Sizes {
    Sizes(|a.tables|, |a.fields|, |a.groups|, |a.joins|, |a.builders|)
  }

  predicate OptIn(o: Option<nat>, n: nat) {
    o.Some? ==> o.value < n
  }

  predicate AllIn(ids: seq<nat>, n: nat) {
    forall i :: 0 <= i < |ids| ==> ids[i] < n
  }

  predicate OrderByOk(s: Sizes, orderBy: seq<OrderBy>) {
    forall i :: 0 <= i < |orderBy| ==> orderBy[i].field < s.fields
  }

  lemma OrderByAppendOk(s: Sizes, orderBy: seq<OrderBy>, e: OrderBy)
    requires OrderByOk(s, orderBy) && e.field < s.fields
    ensures OrderByOk(s, orderBy + [e])
  {
    assert forall i :: 0 <= i < |orderBy| ==> (orderBy + [e])[i] == orderBy[i];
  }

  predicate TableOk(s: Sizes, t: Table) {
    AllIn(t.fields, s.fields) && OptIn(t.builder, s.builders)
    && match t.kind
       case PlainTable => true
       case TempTable(orderBy, _) => OrderByOk(s, orderBy)
       case InsertIntoTable(o) => OptIn(o, s.fields)
       case UpdateTable(o) => OptIn(o, s.fields)
  }

  predicate FieldOk(s: Sizes, f: Field) {
    OptIn(f.table, s.tables)
    && (f.kind.TableParameterField? ==> f.kind.parameterTable < s.tables)
  }

  predicate ConditionsOk(s: Sizes, cs: seq<Condition>) {
    forall i :: 0 <= i < |cs| ==> cs[i].left < s.fields && OptIn(cs[i].right, s.fields)
  }

  predicate GroupOk(s: Sizes, id: nat, g: Group) {
    ConditionsOk(s, g.conditions)
    && (forall i :: 0 <= i < |g.subGroups| ==> id < g.subGroups[i] < s.groups)
    && OptIn(g.parent, s.groups) && OptIn(g.builder, s.builders)
    && (g.kind.JoinGroup? ==> g.kind.join < s.joins)
    && (g.kind.ExistsGroup? ==> g.kind.inTable < s.tables)
  }

  predicate JoinOk(s: Sizes, j: Join) {
    j.from < s.tables && j.to < s.tables && j.conditions < s.groups && OptIn(j.builder, s.builders)
  }

  predicate BuilderOk(s: Sizes, b: Builder) {
    AllIn(b.tables, s.tables) && AllIn(b.joins, s.joins) && OptIn(b.where, s.groups)
    && OrderByOk(s, b.orderBy)
    && (forall k :: k in b.subQueries ==> b.subQueries[k] < s.builders)
    && OptIn(b.parent, s.builders) && OptIn(b.selectInto, s.tables)
    && (b.procedure.Some? ==> AllIn(b.procedure.value.parameters, s.fields))
    && (b.ifPart.Some? ==>
          b.ifPart.value.body < s.builders && b.ifPart.value.conditions < s.groups
          && AllIn(b.ifPart.value.branches, s.builders))
  }

  predicate Valid(a: Arena) {
    var s := SizesOf(a);
    (forall i :: 0 <= i < |a.tables| ==> TableOk(s, a.tables[i]))
    && (forall i :: 0 <= i < |a.fields| ==> FieldOk(s, a.fields[i]))
    && (forall i :: 0 <= i < |a.groups| ==> GroupOk(s, i, a.groups[i]))
    && (forall i :: 0 <= i < |a.joins| ==> JoinOk(s, a.joins[i]))
    && (forall i :: 0 <= i < |a.builders| ==> BuilderOk(s, a.builders[i]))
  }

  predicate Grown(s: Sizes, t: Sizes) {
    s.tables <= t.tables && s.fields <= t.fields && s.groups <= t.groups
    && s.joins <= t.joins && s.builders <= t.builders
  }

  /** An arena that only grew keeps every link of the old objects valid. */
  lemma GrownKeepsOk(s: Sizes, t: Sizes, a: Arena)
    requires Grown(s, t)
    ensures forall x :: TableOk(s, x) ==> TableOk(t, x)
    ensures forall x :: FieldOk(s, x) ==> FieldOk(t, x)
    ensures forall id, x :: GroupOk(s, id, x) ==> GroupOk(t, id, x)
    ensures forall x :: JoinOk(s, x) ==> JoinOk(t, x)
    ensures forall x :: BuilderOk(s, x) ==> BuilderOk(t, x)
  {
  }

  // ---------------------------------------------------------------------------
  // Adding and replacing objects

  function AddTable(a: Arena, t: Table): (r: (Arena, TableId))
    requires Valid(a) && TableOk(SizesOf(a), t)
    ensures Valid(r.0) && r.1 == |a.tables| && r.0 == a.(tables := a.tables + [t])
  {
    GrownKeepsOk(SizesOf(a), SizesOf(a.(tables := a.tables + [t])), a);
    (a.(tables := a.tables + [t]), |a.tables|)
  }

  function AddField(a: Arena, f: Field): (r: (Arena, FieldId))
    requires Valid(a) && FieldOk(SizesOf(a), f)
    ensures Valid(r.0) && r.1 == |a.fields| && r.0 == a.(fields := a.fields + [f])
  {
    GrownKeepsOk(SizesOf(a), SizesOf(a.(fields := a.fields + [f])), a);
    (a.(fields := a.fields + [f]), |a.fields|)
  }

  function AddGroup(a: Arena, g: Group): (r: (Arena, GroupId))
    requires Valid(a) && GroupOk(SizesOf(a).(groups := |a.groups| + 1), |a.groups|, g)
    ensures Valid(r.0) && r.1 == |a.groups| && r.0 == a.(groups := a.groups + [g])
  {
    GrownKeepsOk(SizesOf(a), SizesOf(a.(groups := a.groups + [g])), a);
    (a.(groups := a.groups + [g]), |a.groups|)
  }

  function AddJoin(a: Arena, j: Join): (r: (Arena, JoinId))
    requires Valid(a) && JoinOk(SizesOf(a), j)
    ensures Valid(r.0) && r.1 == |a.joins| && r.0 == a.(joins := a.joins + [j])
  {
    GrownKeepsOk(SizesOf(a), SizesOf(a.(joins := a.joins + [j])), a);
    (a.(joins := a.joins + [j]), |a.joins|)
  }

  function AddBuilder(a: Arena, b: Builder): (r: (Arena, BuilderId))
    requires Valid(a) && BuilderOk(SizesOf(a).(builders := |a.builders| + 1), b)
    ensures Valid(r.0) && r.1 == |a.builders| && r.0 == a.(builders := a.builders + [b])
  {
    GrownKeepsOk(SizesOf(a), SizesOf(a.(builders := a.builders + [b])), a);
    (a.(builders := a.builders + [b]), |a.builders|)
  }

  function SetTable(a: Arena, id: TableId, t: Table): (r: Arena)
    requires Valid(a) && id < |a.tables| && TableOk(SizesOf(a), t)
    ensures Valid(r) && r == a.(tables := a.tables[id := t])
  {
    a.(tables := a.tables[id := t])
  }

  function SetField(a: Arena, id: FieldId, f: Field): (r: Arena)
    requires Valid(a) && id < |a.fields| && FieldOk(SizesOf(a), f)
    ensures Valid(r) && r == a.(fields := a.fields[id := f])
  {
    a.(fields := a.fields[id := f])
  }

  function SetGroup(a: Arena, id: GroupId, g: Group): (r: Arena)
    requires Valid(a) && id < |a.groups| && GroupOk(SizesOf(a), id, g)
    ensures Valid(r) && r == a.(groups := a.groups[id := g])
  {
    a.(groups := a.groups[id := g])
  }

  function SetBuilder(a: Arena, id: BuilderId, b: Builder): (r: Arena)
    requires Valid(a) && id < |a.builders| && BuilderOk(SizesOf(a), b)
    ensures Valid(r) && r == a.(builders := a.builders[id := b])
  {
    a.(builders := a.builders[id := b])
  }

  /** Appends a new table to the builder. */
  function AppendTable(a: Arena, b: BuilderId, t: Table): (r: (Arena, TableId))
    requires Valid(a) && b < |a.builders| && TableOk(SizesOf(a), t)
    ensures Valid(r.0) && r.1 == |a.tables|
    ensures r.0 == a.(tables := a.tables + [t], builders := a.builders[b := a.builders[b].(tables := a.builders[b].tables + [|a.tables|])])
  {
    var (a1, id) := AddTable(a, t);
    (SetBuilder(a1, b, a1.builders[b].(tables := a1.builders[b].tables + [id])), id)
  }

  // ---------------------------------------------------------------------------
  // Table naming

  predicate NonEmpty(o: Option<string>) {
    o.Some? && o.value != ""
  }

  /** `Table.FullName`: the schema-qualified name when the schema is neither
      null nor empty. */
  function FullName(t: Table): string {
    (if NonEmpty(t.schema) then t.schema.value + "." else "") + t.name
  }

  /** `Table.Alias`: the explicit alias, defaulting to the full name (to
      `#name` for a temporary table). */
  function Alias(t: Table): string {
    if t.alias.Some? then t.alias.value
    else if t.kind.TempTable? then "#" + t.name
    else FullName(t)
  }

  /** `Table.ReferenceName`: how FROM, JOIN and INTO name the table. A
      temporary table is `#name`, an INSERT target its bare name; any other
      table is prefixed by its schema whenever one is set (even an empty one)
      and followed by its alias only when an explicit non-empty alias was
      set. */
  function ReferenceName(t: Table): string {
    match t.kind
    case TempTable(_, _) => "#" + t.name
    case InsertIntoTable(_) => t.name
    case _ =>
      (if t.schema.Some? then t.schema.value + "." else "") + t.name
      + (if NonEmpty(t.alias) then " " + Alias(t) else "")
  }

  /** The table name rules: the full name is the catalogue's full name of the
      same schema and name, the alias defaults to it, and the reference name
      ends with " <alias>" exactly when an explicit alias was set. */
  lemma TableNaming(t: Table, mt: Metadata.MetadataTable)
    requires t.kind.PlainTable? || t.kind.UpdateTable?
    requires t.name == mt.name && t.schema == Some(mt.schema)
    ensures FullName(t) == Metadata.Fullname(mt)
    ensures t.alias.None? ==> Alias(t) == FullName(t)
    ensures NonEmpty(t.alias) <==>
      ReferenceName(t) == (if t.schema.Some? then t.schema.value + "." else "") + t.name + " " + Alias(t)
  {
    var base := (if t.schema.Some? then t.schema.value + "." else "") + t.name;
    if !NonEmpty(t.alias) {
      assert |ReferenceName(t)| < |base + " " + Alias(t)|;
    }
  }

  /** `MetadataExtensions.GetMetaTableName`: the full name, with `dbo.` added
      when it has no schema. */
  function GetMetaTableName(t: Table): (r: string)
    ensures '.' in r
    ensures NonEmpty(t.schema) ==> r == FullName(t)
    ensures r == Metadata.LookupKey(FullName(t))
  {
    var s := FullName(t);
    if '.' in s then s else "dbo." + s
  }

  // ---------------------------------------------------------------------------
  // Field naming

  /** `Field.DeclarationName`: `<table alias>.[<name>]`; a field without a
      table has none (the library dereferences null). */
  function DeclarationName(a: Arena, f: Field): (r: Result<string>)
    requires FieldOk(SizesOf(a), f)
    ensures r.Err? <==> f.table.None?
    ensures r.Ok? ==> r.value == Alias(a.tables[f.table.value]) + ".[" + f.name + "]"
  {
    match f.table
    case None => Err(NullReference)
    case Some(t) => Ok(Alias(a.tables[t]) + ".[" + f.name + "]")
  }

  function AliasOrName(f: Field): string {
    if f.alias.Some? then f.alias.value else f.name
  }

  predicate IsParameter(f: Field) {
    f.kind.ParameterField? || f.kind.TableParameterField?
  }

  /** `Field.ReferenceName`: `<table alias>.[<alias or name>]`; a parameter is
      referred to by its alias or name alone. */
  function FieldReferenceName(a: Arena, f: Field): (r: Result<string>)
    requires FieldOk(SizesOf(a), f)
    ensures IsParameter(f) ==> r == Ok(AliasOrName(f))
    ensures !IsParameter(f) ==> (r.Err? <==> f.table.None?)
  {
    if IsParameter(f) then Ok(AliasOrName(f))
    else match f.table
      case None => Err(NullReference)
      case Some(t) => Ok(Alias(a.tables[t]) + ".[" + AliasOrName(f) + "]")
  }

  /** A column field's reference name and declaration name agree exactly when
      the field has no alias of its own. */
  lemma ReferenceAndDeclarationName(a: Arena, f: Field)
    requires FieldOk(SizesOf(a), f) && !IsParameter(f) && f.table.Some?
    ensures FieldReferenceName(a, f) == DeclarationName(a, f) <==> (f.alias.None? || f.alias.value == f.name)
  {
    var t := Alias(a.tables[f.table.value]);
    if FieldReferenceName(a, f) == DeclarationName(a, f) {
      var x := t + ".[" + AliasOrName(f) + "]";
      var y := t + ".[" + f.name + "]";
      assert x[|t| + 2..|x| - 1] == AliasOrName(f);
      assert y[|t| + 2..|y| - 1] == f.name;
    }
  }

  // ---------------------------------------------------------------------------
  // The parent chain

  /** `SqlBuilder.TopBuilder`, following at most `fuel` parent links; a chain
      that does not end within them is a cycle, on which the library's loop
      never ends. */
  function TopFrom(a: Arena, b: BuilderId, fuel: nat): (r: Result<BuilderId>)
    requires Valid(a) && b < |a.builders|
    ensures r.Ok? ==> r.value < |a.builders| && a.builders[r.value].parent.None?
    ensures a.builders[b].parent.None? ==> r == Ok(b)
    ensures r.Err? ==> r.error == Diverges
    decreases fuel
  {
    match a.builders[b].parent
    case None => Ok(b)
    case Some(p) => if fuel == 0 then Err(Diverges) else TopFrom(a, p, fuel - 1)
  }

  /** `TopBuilder`: the root of the parent chain; a chain longer than the
      number of builders must revisit one, so it is reported as `Diverges`. */
  function TopBuilder(a: Arena, b: BuilderId): (r: Result<BuilderId>)
    requires Valid(a) && b < |a.builders|
    ensures r.Ok? ==> r.value < |a.builders| && a.builders[r.value].parent.None?
    ensures a.builders[b].parent.None? ==> r == Ok(b)
  {
    TopFrom(a, b, |a.builders|)
  }

  /** More fuel never changes an answer the chain already gave. */
  lemma {:induction false} TopFromMoreFuel(a: Arena, b: BuilderId, n: nat, m: nat)
    requires Valid(a) && b < |a.builders| && n <= m
    requires TopFrom(a, b, n).Ok?
    ensures TopFrom(a, b, m) == TopFrom(a, b, n)
    decreases n
  {
    match a.builders[b].parent
    case None =>
    case Some(p) => TopFromMoreFuel(a, p, n - 1, m - 1);
  }

  /** A builder and its parent share their top builder. */
  lemma TopBuilderOfChild(a: Arena, b: BuilderId)
    requires Valid(a) && b < |a.builders| && a.builders[b].parent.Some?
    requires TopBuilder(a, b).Ok?
    ensures TopBuilder(a, a.builders[b].parent.value) == TopBuilder(a, b)
  {
    var p := a.builders[b].parent.value;
    TopFromMoreFuel(a, p, |a.builders| - 1, |a.builders|);
  }

  /** `c` is the parent chain from `c[0]` up to a builder without a parent. */
  predicate ParentChain(a: Arena, c: seq<BuilderId>) {
    |c| > 0 && (forall i :: 0 <= i < |c| ==> c[i] < |a.builders|)
    && (forall i :: 0 <= i < |c| - 1 ==> a.builders[c[i]].parent == Some(c[i + 1]))
    && a.builders[c[|c| - 1]].parent.None?
  }

  /** Following a parent chain of `n` links takes `n` steps of fuel. */
  lemma {:induction false} TopFromChain(a: Arena, c: seq<BuilderId>)
    requires Valid(a) && ParentChain(a, c)
    ensures TopFrom(a, c[0], |c| - 1) == Ok(c[|c| - 1])
    decreases |c|
  {
    if |c| > 1 {
      var rest := c[1..];
      assert ParentChain(a, rest) by {
        forall i | 0 <= i < |rest| - 1 ensures a.builders[rest[i]].parent == Some(rest[i + 1]) {
          assert rest[i] == c[i + 1] && rest[i + 1] == c[i + 2];
        }
      }
      TopFromChain(a, rest);
    }
  }

  /** The fuel of `TopBuilder` is enough for every parent chain that visits
      no builder twice: such a chain ends at its last builder. */
  lemma TopBuilderOfChain(a: Arena, c: seq<BuilderId>)
    requires Valid(a) && ParentChain(a, c) && Distinct(c)
    ensures TopBuilder(a, c[0]) == Ok(c[|c| - 1])
  {
    TopFromChain(a, c);
    DistinctBounded(c, |a.builders|);
    TopFromMoreFuel(a, c[0], |c| - 1, |a.builders|);
  }

  /** A builder that is its own parent has no top builder. */
  lemma {:induction false} TopBuilderSelfCycle(a: Arena, b: BuilderId, fuel: nat)
    requires Valid(a) && b < |a.builders| && a.builders[b].parent == Some(b)
    ensures TopFrom(a, b, fuel) == Err(Diverges)
    decreases fuel
  {
    if fuel > 0 {
      TopBuilderSelfCycle(a, b, fuel - 1);
    }
  }
}
