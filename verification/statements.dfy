/** Creating statements and filling them in: the `SqlBuilder` factories, the
    stored-procedure parameters, the UPDATE and INSERT targets with their SET
    values and OUTPUT tables, the select list, ORDER BY, the IF/ELSE branch
    state machine, sub-queries and parameter declarations. */
module Statements {
  import opened Outcomes
  import opened Text
  import opened Collections
  import opened Values
  import opened SqlTypes
  import opened QueryModel
  import opened Lookup
  import Metadata

  // ---------------------------------------------------------------------------
  // Factories

  /** A builder of the given kind with nothing in it yet but its WHERE group. */
  function EmptyBuilder(kind: StatementType, where: GroupId, parent: Option<BuilderId>, top: Option<int>, distinct: bool): Builder {
    Builder(kind, [], [], Some(where), [], map[], parent, map[], top, distinct, None, None, None, None)
  }

  /** Adds a builder made by `make` from its own WHERE group, together with
      that (empty) group. */
  function AddStatement(a: Arena, bld: Builder): (r: (Arena, BuilderId))
    requires Valid(a) && bld.where == Some(|a.groups|)
    requires BuilderOk(SizesOf(a).(groups := |a.groups| + 1, builders := |a.builders| + 1), bld)
    ensures Valid(r.0) && r.1 == |a.builders|
    ensures r.0 == a.(groups := a.groups + [Group(WhereGroup, NoLink, [], [], None, Some(|a.builders|))],
                      builders := a.builders + [bld])
  {
    var a1 := a.(groups := a.groups + [Group(WhereGroup, NoLink, [], [], None, Some(|a.builders|))],
                 builders := a.builders + [bld]);
    GrownKeepsOk(SizesOf(a), SizesOf(a1), a);
    (a1, |a.builders|)
  }

  /** `SqlBuilder.Select` / `Insert` / `Update` / `Delete`: a new top-level
      builder of that kind with an empty WHERE group that belongs to it. */
  function NewStatement(a: Arena, kind: StatementType, top: Option<int>, distinct: bool): (r: (Arena, BuilderId))
    requires Valid(a)
    ensures Valid(r.0) && r.1 == |a.builders| && |r.0.builders| == |a.builders| + 1
    ensures var b := r.0.builders[r.1];
            b.kind == kind && b.top == top && b.distinct == distinct && b.parent.None?
            && b.tables == [] && b.joins == [] && b.orderBy == [] && b.subQueries == map[] && b.declarations == map[]
            && b.where.Some? && b.where.value < |r.0.groups|
            && r.0.groups[b.where.value] == Group(WhereGroup, NoLink, [], [], None, Some(r.1))
    ensures r.0.tables == a.tables && r.0.fields == a.fields && r.0.joins == a.joins
    ensures r.0.builders[..|a.builders|] == a.builders
  {
    AddStatement(a, EmptyBuilder(kind, |a.groups|, None, top, distinct))
  }

  /** `SqlBuilder.StoredProcedure`: a procedure builder holding an empty call. */
  function StoredProcedure(a: Arena, name: string, schema: Option<string>): (r: (Arena, BuilderId))
    requires Valid(a)
    ensures Valid(r.0) && r.1 == |a.builders| && |r.0.builders| == |a.builders| + 1
    ensures r.0.builders[r.1].kind == ProcedureStatement
    ensures r.0.builders[r.1].procedure == Some(Procedure(name, schema, []))
    ensures r.0.builders[r.1].parent.None?
  {
    AddStatement(a, EmptyBuilder(ProcedureStatement, |a.groups|, None, None, false).(procedure := Some(Procedure(name, schema, []))))
  }

  /** `StoredProcedure.Parameter`: appends the parameter `@name`; when a
      table is named, its type is copied from the catalogue column, but the
      parameter keeps its own name. */
  function Parameter(a: Arena, mdb: Option<Metadata.MetadataDatabase>, b: BuilderId, name: string, sqlType: SqlDbType,
                     value: Value, dataType: Option<ClrType>, maxLength: int, scale: int, precision: int,
                     isOutput: bool, tableName: string, fieldName: string): (r: Arena)
    requires Valid(a) && b < |a.builders| && a.builders[b].procedure.Some?
    ensures Valid(r) && |r.fields| == |a.fields| + 1 && |r.builders| == |a.builders| && r.builders[b].procedure.Some?
    ensures r.builders[b].procedure.value.parameters == a.builders[b].procedure.value.parameters + [|a.fields|]
    ensures var p := r.fields[|a.fields|];
            p.kind == ParameterField("@" + name, isOutput, dataType) && p.name == name
            && p.value == value && p.table.None? && p.alias.None?
    ensures tableName == "" || mdb.None? ==>
      r.fields[|a.fields|] == Field(ParameterField("@" + name, isOutput, dataType), name, None, None, value, sqlType, maxLength, precision, scale)
  {
    var p := Field(ParameterField("@" + name, isOutput, dataType), name, None, None, value, sqlType, maxLength, precision, scale);
    var p1 := if tableName == "" then p
              else
                var (q, populated) := TryPopulateField(a, mdb, p, tableName, fieldName).value;
                if populated then q.(name := name) else q;
    var (a1, id) := AddField(a, p1);
    var bl := a1.builders[b];
    var proc := bl.procedure.value;
    SetBuilder(a1, b, bl.(procedure := Some(proc.(parameters := proc.parameters + [id]))))
  }

  /** The three builders and three groups of a new `IfStatement`: the IF
      builder with its WHERE group and its condition group, and the body
      builder (whose parent is the IF builder) with its WHERE group. */
  function AddIfStatement(a: Arena, kind: StatementType, branch: BranchStatement, parent: Option<BuilderId>): (r: (Arena, BuilderId))
    requires Valid(a) && OptIn(parent, |a.builders|)
    ensures Valid(r.0) && r.1 == |a.builders| && |r.0.builders| == |a.builders| + 2
    ensures |r.0.groups| == |a.groups| + 3
    ensures r.0.builders[..|a.builders|] == a.builders && r.0.groups[..|a.groups|] == a.groups
    ensures r.0.tables == a.tables && r.0.fields == a.fields && r.0.joins == a.joins
    ensures var s := r.0.builders[r.1];
            s.kind == kind && s.parent == parent && s.tables == []
            && s.ifPart == Some(IfPart(branch, r.1 + 1, |a.groups| + 2, []))
    ensures var body := r.0.builders[r.1 + 1];
            body.kind == NoStatement && body.parent == Some(r.1) && body.ifPart.None? && body.tables == []
    ensures r.0.groups[|a.groups| + 2] == Group(IfElseGroup, NoLink, [], [], None, Some(r.1))
  {
    var G := |a.groups|;
    var B := |a.builders|;
    var ifBuilder := EmptyBuilder(kind, G, parent, None, false).(ifPart := Some(IfPart(branch, B + 1, G + 2, [])));
    var body := EmptyBuilder(NoStatement, G + 1, Some(B), None, false);
    var a1 := a.(groups := a.groups + [Group(WhereGroup, NoLink, [], [], None, Some(B)),
                                       Group(WhereGroup, NoLink, [], [], None, Some(B + 1)),
                                       Group(IfElseGroup, NoLink, [], [], None, Some(B))],
                 builders := a.builders + [ifBuilder, body]);
    GrownKeepsOk(SizesOf(a), SizesOf(a1), a);
    assert a1.builders[..|a.builders|] == a.builders;
    assert a1.groups[..|a.groups|] == a.groups;
    (a1, B)
  }

  /** `SqlBuilder.If`: a top-level IF statement. */
  function If(a: Arena): (r: (Arena, BuilderId))
    requires Valid(a)
    ensures Valid(r.0) && r.1 + 1 < |r.0.builders|
    ensures r.0.builders[r.1].kind == IfStatementKind && r.0.builders[r.1].parent.None?
    ensures r.0.builders[r.1].ifPart.Some? && r.0.builders[r.1].ifPart.value.branch == IfBranch
    ensures r.0.builders[r.1].ifPart.value.body == r.1 + 1 && r.0.builders[r.1 + 1].parent == Some(r.1)
    ensures r.0.builders[r.1].ifPart.value.branches == []
  {
    AddIfStatement(a, IfStatementKind, IfBranch, None)
  }

  /** `IfStatement.Begin`: gives the body its statement kind and returns it. */
  function Begin(a: Arena, s: BuilderId, kind: StatementType): (r: (Arena, BuilderId))
    requires Valid(a) && s < |a.builders| && a.builders[s].ifPart.Some?
    ensures Valid(r.0) && r.1 == a.builders[s].ifPart.value.body
    ensures r.0 == a.(builders := a.builders[r.1 := a.builders[r.1].(kind := kind)])
  {
    var body := a.builders[s].ifPart.value.body;
    (SetBuilder(a, body, a.builders[body].(kind := kind)), body)
  }

  /** `ConditionGroup.Begin`: only the condition group of an IF statement
      can begin its body. */
  function BeginFromGroup(a: Arena, g: GroupId, kind: StatementType): (r: Result<(Arena, BuilderId)>)
    requires Valid(a) && g < |a.groups|
    ensures r.Err? <==> (a.groups[g].builder.None? || a.builders[a.groups[g].builder.value].ifPart.None?)
    ensures r.Err? ==> r.error == ArgumentError
    ensures r.Ok? ==> r.value == Begin(a, a.groups[g].builder.value, kind)
  {
    match a.groups[g].builder
    case None => Err(ArgumentError)
    case Some(b) => if a.builders[b].ifPart.Some? then Ok(Begin(a, b, kind)) else Err(ArgumentError)
  }

  /** The statement `End` stops at: an IF statement in the `If` branch. */
  predicate IsIfBranch(b: Builder) {
    b.ifPart.Some? && b.ifPart.value.branch == IfBranch
  }

  /** The walk of `End` from `sb` up the parent chain. */
  function EndFrom(a: Arena, sb: Option<BuilderId>, fuel: nat): (r: Result<BuilderId>)
    requires Valid(a) && OptIn(sb, |a.builders|)
    ensures r.Ok? ==> r.value < |a.builders| && IsIfBranch(a.builders[r.value])
    ensures sb.None? ==> r == Err(ArgumentError)
    ensures sb.Some? && IsIfBranch(a.builders[sb.value]) ==> r == Ok(sb.value)
    ensures r.Err? ==> r.error == ArgumentError || r.error == Diverges
    decreases fuel
  {
    match sb
    case None => Err(ArgumentError)
    case Some(x) =>
      if IsIfBranch(a.builders[x]) then Ok(x)
      else if fuel == 0 then Err(Diverges)
      else EndFrom(a, a.builders[x].parent, fuel - 1)
  }

  /** `SqlBuilder.End`: the nearest ancestor that is an IF statement in the
      `If` branch; `ArgumentError` when the chain ends without one. */
  function End(a: Arena, b: BuilderId): (r: Result<BuilderId>)
    requires Valid(a) && b < |a.builders|
    ensures r.Ok? ==> r.value < |a.builders| && IsIfBranch(a.builders[r.value])
    ensures a.builders[b].parent.None? ==> r == Err(ArgumentError)
    ensures r.Err? ==> r.error == ArgumentError || r.error == Diverges
  {
    EndFrom(a, a.builders[b].parent, |a.builders|)
  }

  /** `BranchInternal`: appends a new IF statement of the given branch kind,
      whose parent is `s`, to the ELSE branches of `s`. */
  function BranchInternal(a: Arena, s: BuilderId, branch: BranchStatement): (r: (Arena, BuilderId))
    requires Valid(a) && s < |a.builders| && a.builders[s].ifPart.Some?
    ensures Valid(r.0) && r.1 == |a.builders| && |r.0.builders| == |a.builders| + 2
    ensures r.0.builders[s].ifPart.Some?
    ensures r.0.builders[s].ifPart.value.branches == a.builders[s].ifPart.value.branches + [r.1]
    ensures r.0.builders[s] == a.builders[s].(ifPart := r.0.builders[s].ifPart)
    ensures r.0.builders[s].ifPart.value == a.builders[s].ifPart.value.(branches := r.0.builders[s].ifPart.value.branches)
    ensures var e := r.0.builders[r.1];
            e.ifPart.Some? && e.ifPart.value.branch == branch && e.parent == Some(s) && e.kind == NoStatement
            && e.ifPart.value.body == r.1 + 1 && r.0.builders[r.1 + 1].parent == Some(r.1)
  {
    var (a1, e) := AddIfStatement(a, NoStatement, branch, Some(s));
    var bl := a1.builders[s];
    var ip := bl.ifPart.value;
    (SetBuilder(a1, s, bl.(ifPart := Some(ip.(branches := ip.branches + [e])))), e)
  }

  /** `IfStatement.Else`. */
  function Else(a: Arena, s: BuilderId): (r: (Arena, BuilderId))
    requires Valid(a) && s < |a.builders| && a.builders[s].ifPart.Some?
    ensures Valid(r.0) && r.1 < |r.0.builders|
    ensures r.0.builders[r.1].ifPart.Some? && r.0.builders[r.1].ifPart.value.branch == ElseBranch
    ensures |r.0.builders| == |a.builders| + 2 && r.0.builders[s].ifPart.Some?
    ensures r.0.builders[s].ifPart.value.branches == a.builders[s].ifPart.value.branches + [r.1]
  {
    BranchInternal(a, s, ElseBranch)
  }

  /** `IfStatement.ElseIf` as written: it passes the `Else` branch kind, so
      the branch it adds is an ELSE branch. */
  function ElseIfAsWritten(a: Arena, s: BuilderId): (r: (Arena, BuilderId))
    requires Valid(a) && s < |a.builders| && a.builders[s].ifPart.Some?
    ensures Valid(r.0) && r.1 < |r.0.builders|
    ensures r.0.builders[r.1].ifPart.Some? && r.0.builders[r.1].ifPart.value.branch == ElseBranch
  {
    BranchInternal(a, s, ElseBranch)
  }

  /** `ElseIf` adds exactly what `Else` adds: an ELSE-IF branch cannot be made. */
  lemma ElseIfIsElse(a: Arena, s: BuilderId)
    requires Valid(a) && s < |a.builders| && a.builders[s].ifPart.Some?
    ensures ElseIfAsWritten(a, s) == Else(a, s)
    ensures ElseIfAsWritten(a, s).0.builders[ElseIfAsWritten(a, s).1].ifPart.value.branch != ElseIfBranch
  {
  }

  /** `ElseIf` as intended: the branch it adds is an ELSE IF branch. */
  function ElseIf(a: Arena, s: BuilderId): (r: (Arena, BuilderId))
    requires Valid(a) && s < |a.builders| && a.builders[s].ifPart.Some?
    ensures Valid(r.0) && r.1 < |r.0.builders|
    ensures r.0.builders[r.1].ifPart.Some? && r.0.builders[r.1].ifPart.value.branch == ElseIfBranch
    ensures |r.0.builders| == |a.builders| + 2 && r.0.builders[s].ifPart.Some?
    ensures r.0.builders[s].ifPart.value.branches == a.builders[s].ifPart.value.branches + [r.1]
  {
    BranchInternal(a, s, ElseIfBranch)
  }

  /** `End` on the body of an IF statement, or on the body of one of its
      ELSE / ELSE IF branches, returns the IF statement. */
  lemma {:induction false} EndOfBranchBody(a: Arena, branch: BranchStatement)
    requires Valid(a) && branch != IfBranch
    ensures var (a1, s) := If(a);
            var (a2, e) := BranchInternal(a1, s, branch);
            End(a1, s + 1) == Ok(s) && End(a2, e + 1) == Ok(s)
  {
    var (a1, s) := If(a);
    var (a2, e) := BranchInternal(a1, s, branch);
    assert a1.builders[s + 1].parent == Some(s) && IsIfBranch(a1.builders[s]);
    assert End(a1, s + 1) == EndFrom(a1, Some(s), |a1.builders|);
    assert a2.builders[e + 1].parent == Some(e);
    assert !IsIfBranch(a2.builders[e]) && a2.builders[e].parent == Some(s);
    assert IsIfBranch(a2.builders[s]);
    var n := |a2.builders|;
    assert EndFrom(a2, Some(e), n) == EndFrom(a2, Some(s), n - 1);
  }

  // ---------------------------------------------------------------------------
  // Sub-queries and declarations

  /** `SqlBuilder.AddSubQuery`: registers `child` under `name`, replacing an
      earlier sub-query of that name; the child's parent becomes `b` unless it
      is an INSERT or UPDATE (which keep their own declarations). */
  function AddSubQuery(a: Arena, b: BuilderId, name: string, child: BuilderId): (r: (Arena, BuilderId))
    requires Valid(a) && b < |a.builders| && child < |a.builders|
    ensures Valid(r.0) && r.1 == child && |r.0.builders| == |a.builders|
    ensures r.0.builders[b].subQueries == a.builders[b].subQueries[name := child]
    ensures a.builders[child].kind != InsertStatement && a.builders[child].kind != UpdateStatement
            ==> r.0.builders[child].parent == Some(b)
    ensures a.builders[child].kind == InsertStatement || a.builders[child].kind == UpdateStatement
            ==> r.0.builders[child].parent == a.builders[child].parent
    ensures forall k :: 0 <= k < |a.builders| && k != b && k != child ==> r.0.builders[k] == a.builders[k]
    ensures r.0.tables == a.tables && r.0.fields == a.fields && r.0.groups == a.groups && r.0.joins == a.joins
  {
    var a1 := if a.builders[child].kind != InsertStatement && a.builders[child].kind != UpdateStatement
              then SetBuilder(a, child, a.builders[child].(parent := Some(b)))
              else a;
    var bl := a1.builders[b];
    (SetBuilder(a1, b, bl.(subQueries := bl.subQueries[name := child])), child)
  }

  /** A SELECT sub-query of a top-level builder has that builder as its top
      builder, so its declarations are printed by it. */
  lemma SubQueryTopBuilder(a: Arena, b: BuilderId, name: string, child: BuilderId)
    requires Valid(a) && b < |a.builders| && child < |a.builders| && b != child
    requires a.builders[b].parent.None? && a.builders[child].kind == SelectStatement
    ensures var (a1, _) := AddSubQuery(a, b, name, child);
            TopBuilder(a1, child) == Ok(b)
  {
    var (a1, _) := AddSubQuery(a, b, name, child);
    assert TopFrom(a1, child, |a1.builders|) == TopFrom(a1, b, |a1.builders| - 1);
  }

  /** `SqlBuilder.AddDeclaration`: the first body registered under a name
      wins; adding the name again changes nothing and reports `false`. */
  function AddDeclaration(a: Arena, b: BuilderId, name: string, body: string): (r: (Arena, bool))
    requires Valid(a) && b < |a.builders|
    ensures Valid(r.0)
    ensures r.1 <==> name !in a.builders[b].declarations
    ensures !r.1 ==> r.0 == a
    ensures r.1 ==> r.0 == a.(builders := a.builders[b := a.builders[b].(declarations := a.builders[b].declarations[name := body])])
    ensures name in r.0.builders[b].declarations
    ensures r.0.builders[b].declarations[name] ==
            (if name in a.builders[b].declarations then a.builders[b].declarations[name] else body)
  {
    var bl := a.builders[b];
    if name in bl.declarations then (a, false)
    else (SetBuilder(a, b, bl.(declarations := bl.declarations[name := body])), true)
  }

  /** Registering a second body under a name already registered keeps the
      first one. */
  lemma {:induction false} AddDeclarationFirstWins(a: Arena, b: BuilderId, name: string, first: string, second: string)
    requires Valid(a) && b < |a.builders|
    ensures var (a1, _) := AddDeclaration(a, b, name, first);
            var (a2, added) := AddDeclaration(a1, b, name, second);
            !added && a2 == a1 && a2.builders[b].declarations[name] == a1.builders[b].declarations[name]
  {
    var (a1, _) := AddDeclaration(a, b, name, first);
    assert name in a1.builders[b].declarations;
  }

  /** `SqlBuilder.BaseTable`: the first table, if any; an IF statement
      answers for its body. */
  function BaseTable(a: Arena, b: BuilderId): (r: Option<TableId>)
    requires Valid(a) && b < |a.builders|
    ensures a.builders[b].ifPart.None? ==>
      (r.Some? <==> |a.builders[b].tables| > 0) && (r.Some? ==> r.value == a.builders[b].tables[0])
    ensures r.Some? ==> r.value < |a.tables|
  {
    var s := if a.builders[b].ifPart.Some? then a.builders[b].ifPart.value.body else b;
    if |a.builders[s].tables| > 0 then Some(a.builders[s].tables[0]) else None
  }

  // ---------------------------------------------------------------------------
  // UPDATE and INSERT targets

  /** `SqlBuilder.Table` (UPDATE): the base table when the builder has tables
      and its base table already is an UPDATE target; otherwise a new UPDATE
      target is appended to the builder's own tables. On an IF statement the
      base table is its body's, so a body that updates is updated in place. */
  function UpdateTableOf(a: Arena, b: BuilderId, name: string, schema: Option<string>): (r: (Arena, TableId))
    requires Valid(a) && b < |a.builders|
    ensures Valid(r.0) && r.1 < |r.0.tables| && r.0.tables[r.1].kind.UpdateTable? && |r.0.builders| == |a.builders|
    ensures a.builders[b].ifPart.None? ==> r.1 in r.0.builders[b].tables
    ensures r.1 in r.0.builders[b].tables || (a.builders[b].ifPart.Some? && r.1 in r.0.builders[a.builders[b].ifPart.value.body].tables)
    ensures |a.builders[b].tables| > 0 && BaseTable(a, b).Some? && a.tables[BaseTable(a, b).value].kind.UpdateTable? ==>
      r == (a, BaseTable(a, b).value)
    ensures !(|a.builders[b].tables| > 0 && BaseTable(a, b).Some? && a.tables[BaseTable(a, b).value].kind.UpdateTable?) ==>
      r == AppendTable(a, b, Table(UpdateTable(None), name, schema, None, [], Some(b)))
  {
    var base := BaseTable(a, b);
    if |a.builders[b].tables| > 0 && base.Some? && a.tables[base.value].kind.UpdateTable? then (a, base.value)
    else AppendTable(a, b, Table(UpdateTable(None), name, schema, None, [], Some(b)))
  }

  /** On a builder that has no tables yet (or whose base already is the
      UPDATE target), asking again for the UPDATE target changes nothing. */
  lemma UpdateTableOfAgain(a: Arena, b: BuilderId, name: string, schema: Option<string>, name2: string, schema2: Option<string>)
    requires Valid(a) && b < |a.builders| && a.builders[b].ifPart.None?
    requires |a.builders[b].tables| == 0 || a.tables[a.builders[b].tables[0]].kind.UpdateTable?
    ensures var (a1, t) := UpdateTableOf(a, b, name, schema);
            UpdateTableOf(a1, b, name2, schema2) == (a1, t)
  {
  }

  /** `SqlBuilder.Into` (INSERT): the base table when it already is an
      INSERT target; otherwise a new INSERT target is appended. */
  function Into(a: Arena, b: BuilderId, name: string, schema: Option<string>): (r: (Arena, TableId))
    requires Valid(a) && b < |a.builders|
    ensures Valid(r.0) && r.1 < |r.0.tables| && r.0.tables[r.1].kind.InsertIntoTable? && |r.0.builders| == |a.builders|
    ensures a.builders[b].ifPart.None? ==> r.1 in r.0.builders[b].tables
    ensures r.1 in r.0.builders[b].tables || (a.builders[b].ifPart.Some? && r.1 in r.0.builders[a.builders[b].ifPart.value.body].tables)
    ensures |a.builders[b].tables| > 0 && BaseTable(a, b).Some? && a.tables[BaseTable(a, b).value].kind.InsertIntoTable? ==>
      r == (a, BaseTable(a, b).value)
    ensures !(|a.builders[b].tables| > 0 && BaseTable(a, b).Some? && a.tables[BaseTable(a, b).value].kind.InsertIntoTable?) ==>
      r == AppendTable(a, b, Table(InsertIntoTable(None), name, schema, None, [], Some(b)))
  {
    var base := BaseTable(a, b);
    if |a.builders[b].tables| > 0 && base.Some? && a.tables[base.value].kind.InsertIntoTable? then (a, base.value)
    else AppendTable(a, b, Table(InsertIntoTable(None), name, schema, None, [], Some(b)))
  }

  lemma IntoAgain(a: Arena, b: BuilderId, name: string, schema: Option<string>, name2: string, schema2: Option<string>)
    requires Valid(a) && b < |a.builders| && a.builders[b].ifPart.None?
    requires |a.builders[b].tables| == 0 || a.tables[a.builders[b].tables[0]].kind.InsertIntoTable?
    ensures var (a1, t) := Into(a, b, name, schema);
            Into(a1, b, name2, schema2) == (a1, t)
  {
  }

  /** Adds field `f` to the arena and appends it to table `t`'s fields. */
  function AppendField(a: Arena, t: TableId, f: Field): (r: (Arena, FieldId))
    requires Valid(a) && t < |a.tables| && FieldOk(SizesOf(a), f)
    ensures Valid(r.0) && r.1 == |a.fields|
    ensures r.0 == a.(fields := a.fields + [f], tables := a.tables[t := a.tables[t].(fields := a.tables[t].fields + [|a.fields|])])
  {
    var (a1, id) := AddField(a, f);
    (SetTable(a1, t, a1.tables[t].(fields := a1.tables[t].fields + [id])), id)
  }

  /** What appending one populated field to a table promises. */
  ghost predicate FieldAppended(a: Arena, r: Result<(Arena, FieldId)>, t: TableId, f: Field)
    requires Valid(a) && t < |a.tables|
  {
    (r.Err? <==> (f.table.Some? && f.table.value < |a.tables| && a.tables[f.table.value].builder.None?))
    && (r.Err? ==> r.error == NullReference)
    && (r.Ok? ==>
          Valid(r.value.0) && r.value.1 == |a.fields| && |r.value.0.fields| == |a.fields| + 1 && |r.value.0.tables| == |a.tables|
          && r.value.0.tables[t].fields == a.tables[t].fields + [r.value.1]
          && r.value.0 == a.(fields := r.value.0.fields, tables := a.tables[t := a.tables[t].(fields := a.tables[t].fields + [r.value.1])])
          && r.value.0.fields[..|a.fields|] == a.fields
          && var g := r.value.0.fields[r.value.1];
             g.kind == f.kind && g.alias == f.alias && g.table == f.table && g.value == f.value)
  }

  /** Types `f` from the catalogue and appends it to table `t`. */
  function AppendPopulated(a: Arena, mdb: Option<Metadata.MetadataDatabase>, t: TableId, f: Field): (r: Result<(Arena, FieldId)>)
    requires Valid(a) && t < |a.tables| && FieldOk(SizesOf(a), f)
    ensures FieldAppended(a, r, t, f)
    ensures r.Ok? && f.table.None? ==> r.value.0.fields[r.value.1] == f
    ensures r.Ok? && f.table.Some? ==> r.value.0.fields[r.value.1] == Populated(mdb, FullName(a.tables[f.table.value]), f)
  {
    var g :- Populate(a, mdb, f);
    Ok(AppendField(a, t, g))
  }

  /** `UpdateTable.Set`: a parameter `@fieldName` holding the new value,
      appended to the UPDATE target and typed from the catalogue. */
  function Set(a: Arena, mdb: Option<Metadata.MetadataDatabase>, t: TableId, fieldName: string, value: Value,
               sqlType: SqlDbType, dataType: Option<ClrType>, maxLength: int, precision: int, scale: int): (r: Result<(Arena, FieldId)>)
    requires Valid(a) && t < |a.tables| && a.tables[t].kind.UpdateTable?
    ensures FieldAppended(a, r, t, Field(ParameterField("@" + fieldName, false, dataType), fieldName, None, Some(t), value, sqlType, maxLength, precision, scale))
    ensures r.Ok? ==> var f := r.value.0.fields[r.value.1];
      match BuilderColumn(mdb, FullName(a.tables[t]), fieldName)
      case Some(c) => f.sqlType == c.sqlType && f.maxLength == c.length && f.precision == c.precision && f.scale == c.scale
      case None => f.sqlType == sqlType && f.maxLength == maxLength && f.precision == precision && f.scale == scale
  {
    AppendPopulated(a, mdb, t, Field(ParameterField("@" + fieldName, false, dataType), fieldName, None, Some(t), value, sqlType, maxLength, precision, scale))
  }

  /** `InsertIntoTable.Value`: a parameter `@fieldName` holding the value,
      typed as the value is, appended to the INSERT target. */
  function InsertValue(a: Arena, mdb: Option<Metadata.MetadataDatabase>, t: TableId, fieldName: string, value: Value): (r: Result<(Arena, FieldId)>)
    requires Valid(a) && t < |a.tables| && a.tables[t].kind.InsertIntoTable?
    ensures FieldAppended(a, r, t, NewField(ParameterField("@" + fieldName, false, TypeOf(value)), fieldName, None, Some(t), value))
  {
    AppendPopulated(a, mdb, t, NewField(ParameterField("@" + fieldName, false, TypeOf(value)), fieldName, None, Some(t), value))
  }

  /** `UpdateTable.Set<T>`: as `Set`, but the parameter is typed as the
      value is, so a null value is a null reference, and its precision
      keeps the default. */
  function SetTyped(a: Arena, mdb: Option<Metadata.MetadataDatabase>, t: TableId, fieldName: string, value: Value,
                    sqlType: SqlDbType, maxLength: int, scale: int): (r: Result<(Arena, FieldId)>)
    requires Valid(a) && t < |a.tables| && a.tables[t].kind.UpdateTable?
    ensures value.NullValue? ==> r == Err(NullReference)
    ensures !value.NullValue? ==> r == Set(a, mdb, t, fieldName, value, sqlType, TypeOf(value), maxLength, -1, scale)
    ensures r.Ok? ==> r.value.0.fields[r.value.1].kind == ParameterField("@" + fieldName, false, TypeOf(value))
                      && TypeOf(value).Some?
  {
    match TypeOf(value)
    case None => Err(NullReference)
    case Some(clr) =>
      AppendPopulated(a, mdb, t, Field(ParameterField("@" + fieldName, false, Some(clr)), fieldName, None, Some(t), value, sqlType, maxLength, -1, scale))
  }

  /** `InsertIntoTable.Value<T>`: a parameter `@fieldName` of the declared
      type `declared`, appended to the INSERT target without a table, so
      the catalogue never types it and the call cannot fail. */
  function InsertValueTyped(a: Arena, mdb: Option<Metadata.MetadataDatabase>, t: TableId, fieldName: string, value: Value,
                            declared: ClrType, sqlType: SqlDbType, maxLength: int, scale: int): (r: Result<(Arena, FieldId)>)
    requires Valid(a) && t < |a.tables| && a.tables[t].kind.InsertIntoTable?
    ensures r.Ok?
    ensures Valid(r.value.0) && |r.value.0.tables| == |a.tables| && r.value.1 == |a.fields| < |r.value.0.fields|
    ensures r.value.0.tables[t].fields == a.tables[t].fields + [r.value.1]
    ensures var f := r.value.0.fields[r.value.1];
      f.kind == ParameterField("@" + fieldName, false, Some(declared)) && f.name == fieldName && f.table.None?
      && f.value == value && f.sqlType == sqlType && f.maxLength == maxLength && f.precision == -1 && f.scale == scale
  {
    AppendPopulated(a, mdb, t, Field(ParameterField("@" + fieldName, false, Some(declared)), fieldName, None, None, value, sqlType, maxLength, -1, scale))
  }

  /** Unlike `InsertValue`, the typed overload reads nothing from the
      catalogue: any two catalogues give the same arena. */
  lemma InsertValueTypedIgnoresCatalogue(a: Arena, mdb: Option<Metadata.MetadataDatabase>, mdb2: Option<Metadata.MetadataDatabase>,
                                         t: TableId, fieldName: string, value: Value,
                                         declared: ClrType, sqlType: SqlDbType, maxLength: int, scale: int)
    requires Valid(a) && t < |a.tables| && a.tables[t].kind.InsertIntoTable?
    ensures InsertValueTyped(a, mdb, t, fieldName, value, declared, sqlType, maxLength, scale)
         == InsertValueTyped(a, mdb2, t, fieldName, value, declared, sqlType, maxLength, scale)
  {
    var r1 := InsertValueTyped(a, mdb, t, fieldName, value, declared, sqlType, maxLength, scale);
    var r2 := InsertValueTyped(a, mdb2, t, fieldName, value, declared, sqlType, maxLength, scale);
    assert r1.value.0.fields == a.fields + [r1.value.0.fields[|a.fields|]];
    assert r2.value.0.fields == a.fields + [r2.value.0.fields[|a.fields|]];
  }

  /** The name of the OUTPUT table variable when none is given. */
  function DefaultOutputName(t: Table): (r: string)
    ensures t.kind.UpdateTable? ==> '.' !in r
  {
    if t.kind.UpdateTable? then "output" + RemoveChars(t.name, {'.'})
    else "output" + t.name
  }

  /** The OUTPUT table variable of an UPDATE or INSERT target: a table
      parameter `@<name>` over a new, empty `inserted` table. */
  function OutputParameter(a: Arena, t: TableId, parameterName: Option<string>): (r: (Arena, FieldId))
    requires Valid(a) && t < |a.tables|
    ensures Valid(r.0) && r.1 == |a.fields| && |r.0.tables| == |a.tables| + 1
    ensures r.0.tables[..|a.tables|] == a.tables && r.0.builders == a.builders && r.0.groups == a.groups
    ensures r.0.tables[|a.tables|] == Table(PlainTable, "inserted", None, None, [], a.tables[t].builder)
    ensures r.0.fields == a.fields + [NewField(TableParameterField("@" + parameterName.GetOr(DefaultOutputName(a.tables[t])), |a.tables|),
                                               parameterName.GetOr(DefaultOutputName(a.tables[t])), None, Some(t), NullValue)]
  {
    var name := parameterName.GetOr(DefaultOutputName(a.tables[t]));
    var (a1, pt) := AddTable(a, Table(PlainTable, "inserted", None, None, [], a.tables[t].builder));
    assert a1.tables[..|a.tables|] == a.tables;
    AddField(a1, NewField(TableParameterField("@" + name, pt), name, None, Some(t), NullValue))
  }

  /** `UpdateTable.Output`: installs the OUTPUT table variable (named
      `output<table name without dots>` by default) and types it from the
      catalogue. */
  function UpdateOutput(a: Arena, mdb: Option<Metadata.MetadataDatabase>, t: TableId, parameterName: Option<string>): (r: Result<(Arena, FieldId)>)
    requires Valid(a) && t < |a.tables| && a.tables[t].kind.UpdateTable?
    ensures r.Err? <==> a.tables[t].builder.None?
    ensures r.Ok? ==>
      (Valid(r.value.0) && r.value.1 < |r.value.0.fields| && t < |r.value.0.tables|
       && r.value.0.tables[t].kind == UpdateTable(Some(r.value.1))
       && r.value.0.fields[r.value.1].kind.TableParameterField?
       && r.value.0.fields[r.value.1].kind.tableParameterName == "@" + parameterName.GetOr(DefaultOutputName(a.tables[t]))
       && r.value.0.tables[r.value.0.fields[r.value.1].kind.parameterTable].fields == [])
    ensures r.Ok? ==>
      (r.value.1 == |a.fields| && |r.value.0.fields| == |a.fields| + 1 && r.value.0.fields[..|a.fields|] == a.fields
       && |r.value.0.tables| == |a.tables| + 1
       && r.value.0.tables[..|a.tables|] == a.tables[t := a.tables[t].(kind := UpdateTable(Some(r.value.1)))]
       && r.value.0.fields[r.value.1].kind.TableParameterField?
       && r.value.0.fields[r.value.1].kind.parameterTable == |a.tables|
       && r.value.0.tables[|a.tables|] == Table(PlainTable, "inserted", None, None, [], a.tables[t].builder)
       && r.value.0.builders == a.builders && r.value.0.groups == a.groups && r.value.0.joins == a.joins)
  {
    var (a1, fid) := OutputParameter(a, t, parameterName);
    var f :- Populate(a1, mdb, a1.fields[fid]);
    var a2 := SetField(a1, fid, f);
    Ok((SetTable(a2, t, a2.tables[t].(kind := UpdateTable(Some(fid)))), fid))
  }

  /** `InsertIntoTable.Output`: installs the OUTPUT table variable, named
      `output<table name>` by default. */
  function InsertOutput(a: Arena, t: TableId, parameterName: Option<string>): (r: (Arena, FieldId))
    requires Valid(a) && t < |a.tables| && a.tables[t].kind.InsertIntoTable?
    ensures Valid(r.0) && r.1 < |r.0.fields| && t < |r.0.tables|
    ensures r.0.tables[t].kind == InsertIntoTable(Some(r.1))
    ensures r.0.fields[r.1].kind.TableParameterField?
    ensures r.0.fields[r.1].kind.tableParameterName == "@" + parameterName.GetOr("output" + a.tables[t].name)
    ensures r.0.tables[r.0.fields[r.1].kind.parameterTable].fields == []
  {
    var (a1, fid) := OutputParameter(a, t, parameterName);
    (SetTable(a1, t, a1.tables[t].(kind := InsertIntoTable(Some(fid)))), fid)
  }

  /** `TableParameterField.Column`: a column of the OUTPUT table variable. */
  function OutputColumn(a: Arena, mdb: Option<Metadata.MetadataDatabase>, p: FieldId, fieldName: string,
                        sqlType: SqlDbType, maxLength: int, precision: int, scale: int): (r: Result<(Arena, FieldId)>)
    requires Valid(a) && p < |a.fields| && a.fields[p].kind.TableParameterField?
    ensures FieldAppended(a, r, a.fields[p].kind.parameterTable,
                          Field(ColumnField, fieldName, None, Some(a.fields[p].kind.parameterTable), NullValue, sqlType, maxLength, precision, scale))
    ensures r.Ok? ==> var f := r.value.0.fields[r.value.1];
      match BuilderColumn(mdb, FullName(a.tables[a.fields[p].kind.parameterTable]), fieldName)
      case Some(c) => f.sqlType == c.sqlType && f.maxLength == c.length && f.precision == c.precision && f.scale == c.scale
      case None => f.sqlType == sqlType && f.maxLength == maxLength && f.precision == precision && f.scale == scale
  {
    var pt := a.fields[p].kind.parameterTable;
    AppendPopulated(a, mdb, pt, Field(ColumnField, fieldName, None, Some(pt), NullValue, sqlType, maxLength, precision, scale))
  }

  // ---------------------------------------------------------------------------
  // The select list

  /** `Table.Column`: appends a column, typed from the catalogue table of the
      same full name when it has a column of that name. */
  function Column(a: Arena, mdb: Option<Metadata.MetadataDatabase>, t: TableId, name: string, alias: Option<string>): (r: Result<Arena>)
    requires Valid(a) && t < |a.tables|
    ensures r.Err? <==> a.tables[t].builder.None?
    ensures r.Err? ==> r.error == NullReference
    ensures r.Ok? ==>
      (Valid(r.value) && |r.value.fields| == |a.fields| + 1
       && r.value == a.(fields := r.value.fields, tables := a.tables[t := a.tables[t].(fields := a.tables[t].fields + [|a.fields|])])
       && r.value.fields[..|a.fields|] == a.fields
       && var f := r.value.fields[|a.fields|];
          f.kind == ColumnField && f.alias == alias && f.table == Some(t) && f.value == NullValue)
    ensures r.Ok? && mdb.None? ==> r.value.fields[|a.fields|] == NewField(ColumnField, name, alias, Some(t), NullValue)
    ensures r.Ok? ==>
      r.value.fields[|a.fields|] == Populated(mdb, FullName(a.tables[t]), NewField(ColumnField, name, alias, Some(t), NullValue))
  {
    if a.tables[t].builder.None? then Err(NullReference)
    else
      var f := NewField(ColumnField, name, alias, Some(t), NullValue);
      var f1 := match mdb
        case None => f
        case Some(db) =>
          match Metadata.FindTable(db, FullName(a.tables[t]), true)
          case None => f
          case Some(mt) => if name in mt.columns then PopulateField(f, mt.columns[name]) else f;
      var (a1, _) := AppendField(a, t, f1);
      assert a1.fields[..|a.fields|] == a.fields;
      Ok(a1)
  }

  /** One step of `Table.Columns`: a column for the name unless `FindField`
      already finds it. */
  function AddMissingColumn(a: Arena, mdb: Option<Metadata.MetadataDatabase>, t: TableId, name: string): (r: Result<Arena>)
    requires Valid(a) && t < |a.tables|
    ensures FindField(a, t, name).Some? ==> r == Ok(a)
    ensures FindField(a, t, name).None? ==> r == Column(a, mdb, t, name, None)
    ensures r.Ok? && mdb.None? ==> FindField(r.value, t, name).Some?
    ensures r.Err? ==> r.error == NullReference && a.tables[t].builder.None?
    ensures r.Ok? ==> ColumnsGrew(a, r.value, t, 1)
  {
    if FindField(a, t, name).Some? then
      assert a.fields[..|a.fields|] == a.fields;
      assert a.tables[t].fields[..|a.tables[t].fields|] == a.tables[t].fields;
      Ok(a)
    else
      var r := Column(a, mdb, t, name, None);
      if r.Ok? && mdb.None? then ColumnIsFound(a, t, name); r else r
  }

  /** `r` is `a` with at most `k` fields appended to the arena and to table
      `t`; the builders and the other tables are as they were. */
  predicate ColumnsGrew(a: Arena, r: Arena, t: TableId, k: nat)
    requires t < |a.tables|
  {
    Valid(r) && |a.fields| <= |r.fields| && r.fields[..|a.fields|] == a.fields
    && |r.tables| == |a.tables| && r.builders == a.builders
    && |a.tables[t].fields| <= |r.tables[t].fields|
    && r.tables[t].fields[..|a.tables[t].fields|] == a.tables[t].fields
    && |r.tables[t].fields| <= |a.tables[t].fields| + k
    && (forall j :: 0 <= j < |a.tables| && j != t ==> r.tables[j] == a.tables[j])
  }

  /** `Table.Columns`: a column for every name `FindField` does not find yet. */
  function Columns(a: Arena, mdb: Option<Metadata.MetadataDatabase>, t: TableId, names: seq<string>): (r: Result<Arena>)
    requires Valid(a) && t < |a.tables|
    ensures r.Err? ==> r.error == NullReference && a.tables[t].builder.None?
    ensures r.Ok? ==> ColumnsGrew(a, r.value, t, |names|)
    decreases |names|
  {
    if |names| == 0 then Ok(a)
    else
      var a1 :- AddMissingColumn(a, mdb, t, names[0]);
      var r :- Columns(a1, mdb, t, names[1..]);
      PrefixTrans(a.fields, a1.fields, r.fields);
      PrefixTrans(a.tables[t].fields, a1.tables[t].fields, r.tables[t].fields);
      Ok(r)
  }

  /** Once `FindField` finds a name in a table, it still finds it after more
      fields are appended to the table. */
  lemma FindFieldStillFound(a: Arena, a1: Arena, t: TableId, name: string)
    requires Valid(a) && Valid(a1) && t < |a.tables| && t < |a1.tables|
    requires |a.fields| <= |a1.fields| && a1.fields[..|a.fields|] == a.fields
    requires |a.tables[t].fields| <= |a1.tables[t].fields|
    requires a1.tables[t].fields[..|a.tables[t].fields|] == a.tables[t].fields
    requires FindField(a, t, name).Some?
    ensures FindField(a1, t, name).Some?
  {
    var f := FindField(a, t, name).value;
    var i :| 0 <= i < |a.tables[t].fields| && a.tables[t].fields[i] == f;
    assert a1.tables[t].fields[i] == f;
    assert a1.fields[..|a.fields|][f] == a.fields[f];
    assert FieldNamedAs(a1.fields[a1.tables[t].fields[i]], name);
  }

  /** Without a catalogue, a column just added is found by its name. */
  lemma ColumnIsFound(a: Arena, t: TableId, name: string)
    requires Valid(a) && t < |a.tables| && Column(a, None, t, name, None).Ok?
    ensures FindField(Column(a, None, t, name, None).value, t, name).Some?
  {
    var a1 := Column(a, None, t, name, None).value;
    var n := |a.tables[t].fields|;
    assert a1.tables[t].fields[n] == |a.fields|;
    assert a1.fields[|a.fields|].name == name;
    assert FieldNamedAs(a1.fields[a1.tables[t].fields[n]], name);
  }

  /** Without a catalogue, every requested column is found by `FindField`
      after `Columns`. */
  lemma {:induction false} ColumnsFindsAll(a: Arena, t: TableId, names: seq<string>)
    requires Valid(a) && t < |a.tables|
    requires Columns(a, None, t, names).Ok?
    ensures forall k :: 0 <= k < |names| ==> FindField(Columns(a, None, t, names).value, t, names[k]).Some?
    decreases |names|
  {
    if |names| > 0 {
      var rest := names[1..];
      assert forall k :: 1 <= k < |names| ==> names[k] == rest[k - 1];
      var a1 := AddMissingColumn(a, None, t, names[0]).value;
      var r := Columns(a1, None, t, rest).value;
      assert Columns(a, None, t, names) == Ok(r);
      ColumnsFindsAll(a1, t, rest);
      FindFieldStillFound(a1, r, t, names[0]);
      forall k | 0 <= k < |names| ensures FindField(r, t, names[k]).Some? {
        if k > 0 { assert FindField(r, t, rest[k - 1]).Some?; }
      }
      assert Columns(a, None, t, names).value == r;
    }
  }

  /** Asking for columns the table already has changes nothing. */
  lemma {:induction false} ColumnsKnownNames(a: Arena, mdb: Option<Metadata.MetadataDatabase>, t: TableId, names: seq<string>)
    requires Valid(a) && t < |a.tables|
    requires forall k :: 0 <= k < |names| ==> FindField(a, t, names[k]).Some?
    ensures Columns(a, mdb, t, names) == Ok(a)
    decreases |names|
  {
    if |names| > 0 {
      ColumnsKnownNames(a, mdb, t, names[1..]);
    }
  }

  /** `Table.Into`: gives the builder a temporary table `#tempTable` holding
      all columns (`*`), unless it already has one. The temporary table is
      always output afterwards: the `outputTable` argument is never used. */
  function SelectInto(a: Arena, t: TableId, tempTable: string, outputTable: bool): (r: Result<Arena>)
    requires Valid(a) && t < |a.tables|
    ensures r.Err? <==> a.tables[t].builder.None?
    ensures r.Err? ==> r.error == NullReference
    ensures r.Ok? && a.builders[a.tables[t].builder.value].selectInto.Some? ==> r.value == a
    ensures r.Ok? && a.builders[a.tables[t].builder.value].selectInto.None? ==>
      var b := a.tables[t].builder.value;
      (Valid(r.value) && |r.value.builders| == |a.builders| && |r.value.tables| == |a.tables| + 1
       && |r.value.fields| == |a.fields| + 1 && r.value.builders[b].selectInto == Some(|a.tables|)
       && r.value.tables[|a.tables|] == Table(TempTable([], true), tempTable, None, None, [|a.fields|], Some(b))
       && r.value.fields[|a.fields|] == NewField(ColumnField, "*", None, Some(|a.tables|), NullValue))
  {
    match a.tables[t].builder
    case None => Err(NullReference)
    case Some(b) =>
      if a.builders[b].selectInto.Some? then Ok(a)
      else
        var (a1, tt) := AddTable(a, Table(TempTable([], true), tempTable, None, None, [], Some(b)));
        var (a2, _) := AppendField(a1, tt, NewField(ColumnField, "*", None, Some(tt), NullValue));
        Ok(SetBuilder(a2, b, a2.builders[b].(selectInto := Some(tt))))
  }

  // ---------------------------------------------------------------------------
  // ORDER BY

  /** The table has a field named exactly `*`. */
  predicate HasWildcard(a: Arena, t: TableId)
    requires Valid(a) && t < |a.tables|
  {
    exists i :: 0 <= i < |a.tables[t].fields| && a.fields[a.tables[t].fields[i]].name == "*"
  }

  /** The field an ORDER BY on `fieldName` sorts by: the table's field of that
      name, or a new one when the table selects `*`; unknown otherwise. */
  function OrderField(a: Arena, t: TableId, fieldName: string): (r: Result<(Arena, FieldId)>)
    requires Valid(a) && t < |a.tables|
    ensures FindField(a, t, fieldName).Some? ==> r == Ok((a, FindField(a, t, fieldName).value))
    ensures FindField(a, t, fieldName).None? && !HasWildcard(a, t) ==> r == Err(InvalidOperation)
    ensures FindField(a, t, fieldName).None? && HasWildcard(a, t) ==>
      r == Ok((a.(fields := a.fields + [NewField(ColumnField, fieldName, None, Some(t), NullValue)]), |a.fields|))
    ensures r.Ok? ==> Valid(r.value.0) && r.value.1 < |r.value.0.fields| && r.value.0 == a.(fields := r.value.0.fields)
    ensures r.Ok? ==> |a.fields| <= |r.value.0.fields| && r.value.0.fields[..|a.fields|] == a.fields
  {
    match FindField(a, t, fieldName)
    case Some(f) => Ok((a, f))
    case None =>
      if HasWildcard(a, t) then
        var (a1, f) := AddField(a, NewField(ColumnField, fieldName, None, Some(t), NullValue));
        assert a1.fields[..|a.fields|] == a.fields;
        Ok((a1, f))
      else Err(InvalidOperation)
  }

  /** The reference names of the fields of ORDER BY entries; each is a name
      or the failure computing it raises. */
  function RefNames(a: Arena, entries: seq<OrderBy>): (r: seq<Result<string>>)
    requires Valid(a) && OrderByOk(SizesOf(a), entries)
    ensures |r| == |entries|
    ensures forall i :: 0 <= i < |entries| ==> r[i] == FieldReferenceName(a, a.fields[entries[i].field])
  {
    seq(|entries|, i requires 0 <= i < |entries| => FieldReferenceName(a, a.fields[entries[i].field]))
  }

  /** `Any(x => x.Field.ReferenceName == field.ReferenceName)`, evaluated left
      to right: each entry's name first, then the new field's, which is
      therefore never computed when there is no entry. */
  function AnyEqual(names: seq<Result<string>>, name: Result<string>): (r: Result<bool>)
    ensures r == Ok(true) ==> name.Ok? && name in names
    ensures r == Ok(false) ==> name !in names
    ensures |names| == 0 ==> r == Ok(false)
    ensures r.Err? ==> (exists i :: 0 <= i < |names| && names[i].Err?) || name.Err?
  {
    if |names| == 0 then Ok(false)
    else
      var x :- names[0];
      var y :- name;
      if x == y then Ok(true)
      else
        var rest := AnyEqual(names[1..], name);
        assert names == [names[0]] + names[1..];
        assert rest.Err? ==> (exists i :: 0 <= i < |names[1..]| && names[1..][i].Err?) || name.Err?;
        assert forall i :: 0 <= i < |names[1..]| ==> names[1..][i] == names[i + 1];
        rest
  }

  /** Adding a name that was not yet there makes it found. */
  lemma {:induction false} AnyEqualAppend(names: seq<Result<string>>, name: Result<string>)
    requires AnyEqual(names, name) == Ok(false) && name.Ok?
    ensures AnyEqual(names + [name], name) == Ok(true)
  {
    if |names| > 0 {
      assert (names + [name])[1..] == names[1..] + [name];
      AnyEqualAppend(names[1..], name);
    }
  }

  /** No two ORDER BY entries of the list share a reference name. */
  predicate DistinctReferences(a: Arena, entries: seq<OrderBy>)
    requires Valid(a) && OrderByOk(SizesOf(a), entries)
  {
    Distinct(RefNames(a, entries))
  }

  /** Reference names only depend on the fields and on the tables' aliases. */
  lemma RefNamesAgree(a: Arena, b: Arena, entries: seq<OrderBy>)
    requires Valid(a) && Valid(b) && OrderByOk(SizesOf(a), entries)
    requires |a.fields| <= |b.fields| && b.fields[..|a.fields|] == a.fields
    requires |a.tables| == |b.tables|
    requires forall k :: 0 <= k < |a.tables| ==> Alias(b.tables[k]) == Alias(a.tables[k])
    ensures OrderByOk(SizesOf(b), entries) && RefNames(b, entries) == RefNames(a, entries)
  {
    forall i | 0 <= i < |entries|
      ensures b.fields[entries[i].field] == a.fields[entries[i].field]
    {
      assert b.fields[..|a.fields|][entries[i].field] == a.fields[entries[i].field];
    }
  }

  lemma DistinctAppend(names: seq<Result<string>>, name: Result<string>)
    requires Distinct(names) && name !in names
    ensures Distinct(names + [name])
  {
  }

  /** The same for a single field. */
  lemma RefNameAgree(a: Arena, b: Arena, f: Field)
    requires FieldOk(SizesOf(a), f) && |a.tables| == |b.tables|
    requires forall k :: 0 <= k < |a.tables| ==> Alias(b.tables[k]) == Alias(a.tables[k])
    ensures FieldOk(SizesOf(b), f) && FieldReferenceName(b, f) == FieldReferenceName(a, f)
  {
  }

  lemma RefNamesAppend(a: Arena, entries: seq<OrderBy>, e: OrderBy)
    requires Valid(a) && OrderByOk(SizesOf(a), entries) && e.field < |a.fields|
    ensures OrderByOk(SizesOf(a), entries + [e])
    ensures RefNames(a, entries + [e]) == RefNames(a, entries) + [FieldReferenceName(a, a.fields[e.field])]
  {
    assert forall i :: 0 <= i < |entries| ==> (entries + [e])[i] == entries[i];
  }

  /** Appends an ORDER BY entry to a temporary table. */
  function AddTempOrder(a: Arena, t: TableId, f: FieldId, direction: OrderDirection): (r: Arena)
    requires Valid(a) && t < |a.tables| && a.tables[t].kind.TempTable? && f < |a.fields|
    ensures Valid(r) && |r.tables| == |a.tables| && r.tables[t].kind.TempTable?
    ensures r == a.(tables := a.tables[t := a.tables[t].(kind := a.tables[t].kind.(orderBy := a.tables[t].kind.orderBy + [OrderBy(f, direction)]))])
    ensures forall k :: 0 <= k < |a.tables| ==> Alias(r.tables[k]) == Alias(a.tables[k])
  {
    var tb := a.tables[t];
    SetTable(a, t, tb.(kind := tb.kind.(orderBy := tb.kind.orderBy + [OrderBy(f, direction)])))
  }

  /** `TempTable.OrderBy`: sorts the temporary table's output by the field,
      unless an entry with the same reference name is already there. */
  function TempOrderBy(a: Arena, t: TableId, fieldName: string, direction: OrderDirection): (r: Result<Arena>)
    requires Valid(a) && t < |a.tables| && a.tables[t].kind.TempTable?
    ensures FindField(a, t, fieldName).None? && !HasWildcard(a, t) ==> r == Err(InvalidOperation)
    ensures r.Ok? ==>
      (Valid(r.value) && r.value.builders == a.builders && |r.value.tables| == |a.tables|
       && r.value.tables[t].kind.TempTable?
       && (forall k :: 0 <= k < |a.tables| && k != t ==> r.value.tables[k] == a.tables[k]))
    ensures r.Ok? ==>
      var before := a.tables[t].kind.orderBy;
      var after := r.value.tables[t].kind.orderBy;
      (after == before || (|after| == |before| + 1 && after[..|before|] == before && after[|before|].direction == direction))
    ensures r.Ok? && FindField(a, t, fieldName).Some? ==>
      var before := a.tables[t].kind.orderBy;
      var after := r.value.tables[t].kind.orderBy;
      (after == before || after == before + [OrderBy(FindField(a, t, fieldName).value, direction)])
  {
    var (a1, f) :- OrderField(a, t, fieldName);
    var dup :- AnyEqual(RefNames(a1, a1.tables[t].kind.orderBy), FieldReferenceName(a1, a1.fields[f]));
    if dup then Ok(a1) else Ok(AddTempOrder(a1, t, f, direction))
  }

  /** The duplicate check keeps the reference names of a temporary table's
      ORDER BY entries distinct: an entry is added exactly when its name is
      not among them yet. */
  lemma TempOrderByKeepsDistinct(a: Arena, t: TableId, fieldName: string, direction: OrderDirection)
    requires Valid(a) && t < |a.tables| && a.tables[t].kind.TempTable?
    requires DistinctReferences(a, a.tables[t].kind.orderBy)
    requires TempOrderBy(a, t, fieldName, direction).Ok?
    ensures var r := TempOrderBy(a, t, fieldName, direction).value;
            DistinctReferences(r, r.tables[t].kind.orderBy)
    ensures FindField(a, t, fieldName).Some? ==>
      var r := TempOrderBy(a, t, fieldName, direction).value;
      (r.tables[t].kind.orderBy == a.tables[t].kind.orderBy
       <==> FieldReferenceName(a, a.fields[FindField(a, t, fieldName).value]) in RefNames(a, a.tables[t].kind.orderBy))
  {
    var (a1, f) := OrderField(a, t, fieldName).value;
    var entries := a.tables[t].kind.orderBy;
    assert a1.tables == a.tables;
    RefNamesAgree(a, a1, entries);
    var name := FieldReferenceName(a1, a1.fields[f]);
    var dup := AnyEqual(RefNames(a1, entries), name).value;
    if !dup {
      var e := OrderBy(f, direction);
      var a2 := AddTempOrder(a1, t, f, direction);
      assert a2.tables[t].kind.orderBy == entries + [e];
      RefNamesAppend(a1, entries, e);
      RefNamesAgree(a1, a2, entries + [e]);
      DistinctAppend(RefNames(a1, entries), name);
    }
  }

  /** `Table.OrderBy`: appends an ORDER BY entry to the table's builder, with
      no check for an entry already there. */
  function TableOrderBy(a: Arena, t: TableId, fieldName: string, direction: OrderDirection): (r: Result<Arena>)
    requires Valid(a) && t < |a.tables|
    ensures FindField(a, t, fieldName).None? && !HasWildcard(a, t) ==> r == Err(InvalidOperation)
    ensures (FindField(a, t, fieldName).Some? || HasWildcard(a, t)) ==> (r.Err? <==> a.tables[t].builder.None?)
    ensures r.Ok? ==>
      var b := a.tables[t].builder.value;
      (a.tables[t].builder.Some? && Valid(r.value) && |r.value.builders| == |a.builders|
       && |r.value.builders[b].orderBy| == |a.builders[b].orderBy| + 1
       && r.value.builders[b].orderBy[..|a.builders[b].orderBy|] == a.builders[b].orderBy
       && r.value.builders[b].orderBy[|a.builders[b].orderBy|].direction == direction)
    ensures FindField(a, t, fieldName).Some? && a.tables[t].builder.Some? ==>
      r.Ok? && r.value.builders[a.tables[t].builder.value].orderBy ==
      a.builders[a.tables[t].builder.value].orderBy + [OrderBy(FindField(a, t, fieldName).value, direction)]
  {
    var (a1, f) :- OrderField(a, t, fieldName);
    match a1.tables[t].builder
    case None => Err(NullReference)
    case Some(b) =>
      var bl := a1.builders[b];
      assert BuilderOk(SizesOf(a1), bl);
      OrderByAppendOk(SizesOf(a1), bl.orderBy, OrderBy(f, direction));
      var a2 := SetBuilder(a1, b, bl.(orderBy := bl.orderBy + [OrderBy(f, direction)]));
      assert a2.builders[b].orderBy[..|a.builders[b].orderBy|] == a.builders[b].orderBy;
      Ok(a2)
  }

  /** Ordering a temporary table twice by the same known field adds one
      entry at most. */
  lemma TempOrderByTwice(a: Arena, t: TableId, fieldName: string, d1: OrderDirection, d2: OrderDirection)
    requires Valid(a) && t < |a.tables| && a.tables[t].kind.TempTable? && FindField(a, t, fieldName).Some?
    requires FieldReferenceName(a, a.fields[FindField(a, t, fieldName).value]).Ok?
    requires TempOrderBy(a, t, fieldName, d1).Ok?
    ensures var a1 := TempOrderBy(a, t, fieldName, d1).value;
            TempOrderBy(a1, t, fieldName, d2) == Ok(a1)
  {
    var a1 := TempOrderBy(a, t, fieldName, d1).value;
    var f := FindField(a, t, fieldName).value;
    var before := a.tables[t].kind.orderBy;
    var name := FieldReferenceName(a, a.fields[f]);
    assert OrderField(a, t, fieldName) == Ok((a, f));
    var dup := AnyEqual(RefNames(a, before), name).value;
    assert a1.fields == a.fields && a1.tables[t].fields == a.tables[t].fields;
    assert FieldsOf(a1, a1.tables[t].fields) == FieldsOf(a, a.tables[t].fields);
    assert FindField(a1, t, fieldName) == Some(f);
    assert OrderField(a1, t, fieldName) == Ok((a1, f));
    if !dup {
      var e := OrderBy(f, d1);
      assert a1 == AddTempOrder(a, t, f, d1);
      assert a1.tables[t].kind.orderBy == before + [e];
      RefNamesAppend(a, before, e);
      RefNamesAgree(a, a1, before + [e]);
      RefNameAgree(a, a1, a.fields[f]);
      AnyEqualAppend(RefNames(a, before), name);
    }
  }
}
