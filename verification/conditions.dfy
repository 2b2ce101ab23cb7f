/** Building condition trees: value conditions (`WhereInternal`,
    `WhereInternalAll` and the `Where`/`And`/`Or` entry points), field-to-field
    join conditions (`On`, `OnInternal`), nested groups (`AndGroup`,
    `OrGroup`) and EXISTS groups. */
module Conditions {
  import opened Outcomes
  import opened Text
  import opened Collections
  import opened Values
  import opened SqlTypes
  import opened QueryModel
  import opened Lookup
  import Metadata

  // ---------------------------------------------------------------------------
  // Appending a condition

  /** The link a condition appended to a group receives: none when it is the
      group's first condition. */
  function NewConditionLink(g: Group, link: BoolOperator): (r: BoolOperator)
    ensures r == NoLink <==> (|g.conditions| == 0 || link == NoLink)
  {
    if |g.conditions| > 0 then link else NoLink
  }

  /** `ConditionLink == None ? And : ConditionLink`, the fix applied to the
      first sub-group after a value condition is appended. */
  function LinkOrAnd(link: BoolOperator): (r: BoolOperator)
    ensures r != NoLink
    ensures link != NoLink ==> r == link
  {
    if link == NoLink then AndLink else link
  }

  /** `r` is `a` with condition `c` appended to group `g` and, when `g` has
      sub-groups, the first of them linked with AND if it had no link;
      nothing else differs. */
  ghost predicate AppendedTo(a: Arena, r: Arena, g: GroupId, c: Condition)
    requires g < |a.groups|
  {
    var og := a.groups[g];
    var withC := a.groups[g := og.(conditions := og.conditions + [c])];
    r.tables == a.tables && r.fields == a.fields && r.joins == a.joins && r.builders == a.builders
    && if |og.subGroups| == 0 then r.groups == withC
       else
         var s := og.subGroups[0];
         s < |a.groups| && r.groups == withC[s := a.groups[s].(link := LinkOrAnd(a.groups[s].link))]
  }

  /** Appends a value condition on field `fid` to group `g`, normalising the
      links as `WhereInternal` and `WhereInternalAll` do. */
  function AppendValueCondition(a: Arena, g: GroupId, fid: FieldId, op: SqlOperator, link: BoolOperator): (r: Arena)
    requires Valid(a) && g < |a.groups| && fid < |a.fields|
    ensures Valid(r)
    ensures AppendedTo(a, r, g, Condition(NewConditionLink(a.groups[g], link), fid, op, None))
  {
    var og := a.groups[g];
    var c := Condition(NewConditionLink(og, link), fid, op, None);
    var a1 := SetGroup(a, g, og.(conditions := og.conditions + [c]));
    if |og.subGroups| == 0 then a1
    else
      var s := og.subGroups[0];
      SetGroup(a1, s, a1.groups[s].(link := LinkOrAnd(a1.groups[s].link)))
  }

  /** `TryPopulateField` followed by `PopulateField` on the same field. */
  function PopulateTwice(a: Arena, mdb: Option<Metadata.MetadataDatabase>, f: Field): (r: Result<Field>)
    requires FieldOk(SizesOf(a), f)
    ensures r.Err? <==> (f.table.Some? && a.tables[f.table.value].builder.None?)
    ensures r.Ok? ==> r.value.kind == f.kind && r.value.alias == f.alias && r.value.table == f.table && r.value.value == f.value
    ensures r.Ok? ==> FieldOk(SizesOf(a), r.value)
    ensures r.Ok? && f.table.Some? ==>
      var name := FullName(a.tables[f.table.value]);
      r.value == Populated(mdb, name, Populated(mdb, name, f))
  {
    match Populate(a, mdb, f)
    case Err(e) => Err(e)
    case Ok(tried) => Populate(a, mdb, tried)
  }

  /** The table test of `WhereInternal`: name, alias or full name, ignoring case. */
  predicate WhereTableMatch(t: Table, tableName: string) {
    NamedAs(t, tableName) || EqualsIgnoreCase(FullName(t), tableName)
  }

  function FirstWhereTable(a: Arena, ids: seq<TableId>, tableName: string): (r: Option<TableId>)
    requires AllIn(ids, |a.tables|)
    ensures r.None? <==> forall i :: 0 <= i < |ids| ==> !WhereTableMatch(a.tables[ids[i]], tableName)
    ensures r.Some? ==> r.value in ids && r.value < |a.tables| && WhereTableMatch(a.tables[r.value], tableName)
  {
    match FirstIndex(TablesOf(a, ids), t => WhereTableMatch(t, tableName))
    case None => None
    case Some(i) => Some(ids[i])
  }

  function FirstNamedOption(a: Arena, ids: seq<TableId>, tableName: string): (r: Option<TableId>)
    requires AllIn(ids, |a.tables|)
    ensures r.None? <==> forall i :: 0 <= i < |ids| ==> !NamedAs(a.tables[ids[i]], tableName)
    ensures r.Some? ==> r.value in ids && r.value < |a.tables| && NamedAs(a.tables[r.value], tableName)
  {
    match FirstIndex(TablesOf(a, ids), t => NamedAs(t, tableName))
    case None => None
    case Some(i) => Some(ids[i])
  }

  /** The group's builder has a table satisfying the lookup test. */
  predicate HasWhereTable(a: Arena, g: GroupId, tableName: string, withFullName: bool)
    requires Valid(a) && g < |a.groups| && a.groups[g].builder.Some?
  {
    var ids := a.builders[a.groups[g].builder.value].tables;
    exists i :: 0 <= i < |ids| && (if withFullName then WhereTableMatch(a.tables[ids[i]], tableName)
                                   else NamedAs(a.tables[ids[i]], tableName))
  }

  /** What both value-condition builders promise. */
  ghost predicate ValueConditionAdded(a: Arena, r: Result<Arena>, g: GroupId, tableName: string,
                                      op: SqlOperator, value: Value, link: BoolOperator, withFullName: bool)
    requires Valid(a) && g < |a.groups|
  {
    (a.groups[g].builder.None? ==> r == Err(NullReference))
    && (a.groups[g].builder.Some? && !HasWhereTable(a, g, tableName, withFullName) ==> r == Err(InvalidOperation))
    && (a.groups[g].builder.Some? && HasWhereTable(a, g, tableName, withFullName) && value.NullValue?
        ==> r == Err(NullReference))
    && (r.Ok? ==> Valid(r.value) && |r.value.fields| == |a.fields| + 1 && a.groups[g].builder.Some?
                  && r.value.fields[..|a.fields|] == a.fields)
    && (r.Ok? && |r.value.fields| == |a.fields| + 1 && a.groups[g].builder.Some? ==>
          var fid := |a.fields|;
          var f := r.value.fields[fid];
          var b := a.groups[g].builder.value;
          f.table.Some? && f.table.value in a.builders[b].tables
          && (if withFullName then WhereTableMatch(a.tables[f.table.value], tableName)
              else NamedAs(a.tables[f.table.value], tableName))
          && f.kind == ValueField(TypeOf(value)) && f.value == value && f.alias.None?
          && AppendedTo(a.(fields := r.value.fields), r.value, g, Condition(NewConditionLink(a.groups[g], link), fid, op, None)))
  }

  /** The spelling `WhereInternal` gives the field of a condition on table
      `t`: that of the table's field of that name or alias, when it has one,
      otherwise the requested one. */
  function WhereFieldName(a: Arena, t: TableId, fieldName: string): string
    requires Valid(a) && t < |a.tables|
  {
    match FindField(a, t, fieldName)
    case Some(e) => a.fields[e].name
    case None => fieldName
  }

  /** The field `WhereInternal` builds for `fieldName` and `value` on table
      `t`: spelt as an existing field of the table of that name or alias, and
      typed from the catalogue twice. */
  function WhereFieldFor(a: Arena, mdb: Option<Metadata.MetadataDatabase>, t: TableId, fieldName: string, value: Value): (r: Result<Field>)
    requires Valid(a) && t < |a.tables|
    ensures r.Err? <==> a.tables[t].builder.None?
    ensures r.Ok? ==>
      r.value.kind == ValueField(TypeOf(value)) && r.value.alias.None? && r.value.table == Some(t) && r.value.value == value
      && FieldOk(SizesOf(a), r.value)
      && r.value == Populated(mdb, FullName(a.tables[t]), MadeField(a, mdb, ValueField(TypeOf(value)), t, WhereFieldName(a, t, fieldName), value))
  {
    PopulateTwice(a, mdb, NewField(ValueField(TypeOf(value)), WhereFieldName(a, t, fieldName), None, Some(t), value))
  }

  /** Adding fields does not change the spelling `WhereInternal` picks. */
  lemma WhereFieldNameKept(a: Arena, r: Arena, t: TableId, fieldName: string)
    requires Valid(a) && Valid(r) && t < |a.tables| && FieldsKept(a, r)
    ensures WhereFieldName(r, t, fieldName) == WhereFieldName(a, t, fieldName)
  {
    FindFieldAfterNewFields(a, r, t, fieldName);
    if FindField(a, t, fieldName).Some? {
      var e := FindField(a, t, fieldName).value;
      assert r.fields[e] == r.fields[..|a.fields|][e];
    }
  }

  /** The field `WhereInternal` adds for `fieldName` and `value` (the first
      field of `r` beyond `a`'s): on one of `a`'s tables, holding the value,
      spelt as `WhereFieldName` says and typed from the catalogue twice. */
  ghost predicate WhereFieldAdded(a: Arena, r: Arena, mdb: Option<Metadata.MetadataDatabase>, fieldName: string, value: Value)
    requires Valid(a)
  {
    |a.fields| < |r.fields|
    && var f := r.fields[|a.fields|];
       f.table.Some? && f.table.value < |a.tables| && f.value == value
       && f == Populated(mdb, FullName(a.tables[f.table.value]),
                         MadeField(a, mdb, ValueField(TypeOf(value)), f.table.value, WhereFieldName(a, f.table.value, fieldName), value))
  }

  /** The field `WhereInternalAll` adds for `fieldName` and `value`: on one of
      `a`'s tables, holding the value, with the requested name unless the
      catalogue types it. */
  ghost predicate ValueFieldAdded(a: Arena, r: Arena, mdb: Option<Metadata.MetadataDatabase>, fieldName: string, value: Value)
  {
    |a.fields| < |r.fields|
    && var f := r.fields[|a.fields|];
       f.table.Some? && f.table.value < |a.tables| && f.value == value
       && f == MadeField(a, mdb, ValueField(TypeOf(value)), f.table.value, fieldName, value)
  }

  /** `WhereInternal<T>`: a condition comparing `tableName.fieldName` with a
      value. The table is looked up among the group's builder's tables by
      name, alias or full name; the field takes the name of an existing field
      that matches and is then typed from the catalogue (twice, as the
      library does). */
  function WhereInternal(a: Arena, mdb: Option<Metadata.MetadataDatabase>, g: GroupId, tableName: string,
                         fieldName: string, op: SqlOperator, value: Value, link: BoolOperator): (r: Result<Arena>)
    requires Valid(a) && g < |a.groups|
    ensures ValueConditionAdded(a, r, g, tableName, op, value, link, true)
    ensures r.Ok? ==> WhereFieldAdded(a, r.value, mdb, fieldName, value)
  {
    if a.groups[g].builder.None? then Err(NullReference)
    else
      var b := a.groups[g].builder.value;
      match FirstWhereTable(a, a.builders[b].tables, tableName)
      case None => Err(InvalidOperation)
      case Some(t) =>
        if value.NullValue? then Err(NullReference)
        else
          var populated :- WhereFieldFor(a, mdb, t, fieldName, value);
          var (a1, fid) := AddField(a, populated);
          Ok(AppendValueCondition(a1, g, fid, op, link))
  }

  /** `WhereInternalAll`: as `WhereInternal`, but the table is matched by name
      or alias only and the field keeps the requested name until it is typed
      from the catalogue. */
  function WhereInternalAll(a: Arena, mdb: Option<Metadata.MetadataDatabase>, g: GroupId, tableName: string,
                            fieldName: string, op: SqlOperator, value: Value, link: BoolOperator): (r: Result<Arena>)
    requires Valid(a) && g < |a.groups|
    ensures ValueConditionAdded(a, r, g, tableName, op, value, link, false)
    ensures r.Ok? ==> ValueFieldAdded(a, r.value, mdb, fieldName, value)
  {
    if a.groups[g].builder.None? then Err(NullReference)
    else
      var b := a.groups[g].builder.value;
      match FirstNamedOption(a, a.builders[b].tables, tableName)
      case None => Err(InvalidOperation)
      case Some(t) =>
        if value.NullValue? then Err(NullReference)
        else
          var fv := NewField(ValueField(TypeOf(value)), fieldName, None, Some(t), value);
          var populated :- Populate(a, mdb, fv);
          var (a1, fid) := AddField(a, populated);
          Ok(AppendValueCondition(a1, g, fid, op, link))
  }

  /** What the generic `WhereInternalAll<T>` promises: the same table lookup
      and errors as the object overload except that a null value is
      accepted, and the new field keeps the caller's spelling, declares the
      type argument as its data type and is not typed from the catalogue. */
  ghost predicate TypedConditionAdded(a: Arena, r: Result<Arena>, g: GroupId, tableName: string, fieldName: string,
                                      op: SqlOperator, value: Value, dataType: ClrType, link: BoolOperator)
    requires Valid(a) && g < |a.groups|
  {
    (a.groups[g].builder.None? ==> r == Err(NullReference))
    && (a.groups[g].builder.Some? ==> (r.Ok? <==> HasWhereTable(a, g, tableName, false)))
    && (a.groups[g].builder.Some? && !HasWhereTable(a, g, tableName, false) ==> r == Err(InvalidOperation))
    && (r.Ok? ==> Valid(r.value) && |r.value.fields| == |a.fields| + 1 && a.groups[g].builder.Some?
                  && r.value.fields[..|a.fields|] == a.fields)
    && (r.Ok? && |r.value.fields| == |a.fields| + 1 && a.groups[g].builder.Some? ==>
          var fid := |a.fields|;
          var f := r.value.fields[fid];
          f.table.Some? && f.table.value in a.builders[a.groups[g].builder.value].tables
          && NamedAs(a.tables[f.table.value], tableName)
          && f == NewField(ValueField(Some(dataType)), fieldName, None, f.table, value)
          && AppendedTo(a.(fields := r.value.fields), r.value, g, Condition(NewConditionLink(a.groups[g], link), fid, op, None)))
  }

  /** `WhereInternalAll<T>`: the generic overload, where `dataType` is the
      type argument `T`. */
  function WhereInternalAllTyped(a: Arena, g: GroupId, tableName: string, fieldName: string,
                                 op: SqlOperator, value: Value, dataType: ClrType, link: BoolOperator): (r: Result<Arena>)
    requires Valid(a) && g < |a.groups|
    ensures TypedConditionAdded(a, r, g, tableName, fieldName, op, value, dataType, link)
  {
    if a.groups[g].builder.None? then Err(NullReference)
    else
      var b := a.groups[g].builder.value;
      match FirstNamedOption(a, a.builders[b].tables, tableName)
      case None => Err(InvalidOperation)
      case Some(t) =>
        var fv := NewField(ValueField(Some(dataType)), fieldName, None, Some(t), value);
        var (a1, fid) := AddField(a, fv);
        Ok(AppendValueCondition(a1, g, fid, op, link))
  }

  /** With a null value the object overload of `WhereInternalAll` fails and
      the generic one, whatever its type argument, does not. */
  lemma WhereInternalAllNull(a: Arena, mdb: Option<Metadata.MetadataDatabase>, g: GroupId, tableName: string,
                             fieldName: string, op: SqlOperator, link: BoolOperator, dataType: ClrType)
    requires Valid(a) && g < |a.groups| && a.groups[g].builder.Some? && HasWhereTable(a, g, tableName, false)
    ensures WhereInternalAll(a, mdb, g, tableName, fieldName, op, NullValue, link) == Err(NullReference)
    ensures WhereInternalAllTyped(a, g, tableName, fieldName, op, NullValue, dataType, link).Ok?
  {
  }

  /** With a value of type `T` on a table whose catalogue has no column of
      the requested name, the two overloads of `WhereInternalAll` build the
      same condition. */
  lemma WhereInternalAllAgrees(a: Arena, mdb: Option<Metadata.MetadataDatabase>, g: GroupId, tableName: string,
                               fieldName: string, op: SqlOperator, value: Value, link: BoolOperator)
    requires Valid(a) && g < |a.groups| && a.groups[g].builder.Some? && !value.NullValue?
    requires var t := FirstNamedOption(a, a.builders[a.groups[g].builder.value].tables, tableName);
             t.Some? ==> a.tables[t.value].builder.Some? && BuilderColumn(mdb, FullName(a.tables[t.value]), fieldName).None?
    ensures WhereInternalAll(a, mdb, g, tableName, fieldName, op, value, link)
            == WhereInternalAllTyped(a, g, tableName, fieldName, op, value, TypeOf(value).value, link)
  {
    var b := a.groups[g].builder.value;
    var t := FirstNamedOption(a, a.builders[b].tables, tableName);
    if t.Some? {
      var fv := NewField(ValueField(TypeOf(value)), fieldName, None, Some(t.value), value);
      assert fv == NewField(ValueField(Some(TypeOf(value).value)), fieldName, None, Some(t.value), value);
      assert Populate(a, mdb, fv) == Ok(fv);
    }
  }

  // ---------------------------------------------------------------------------
  // Entry points for value conditions

  /** `Table.Where`: a value condition in the WHERE group of the table's
      builder, passed with no link, so that it is unlinked even when the group
      already has conditions. */
  function Where(a: Arena, mdb: Option<Metadata.MetadataDatabase>, t: TableId, tableName: string,
                 fieldName: string, op: SqlOperator, value: Value): (r: Result<Arena>)
    requires Valid(a) && t < |a.tables|
    ensures a.tables[t].builder.None? ==> r == Err(NullReference)
    ensures a.tables[t].builder.Some? && a.builders[a.tables[t].builder.value].where.None? ==> r == Err(NullReference)
    ensures r.Ok? ==>
      (a.tables[t].builder.Some? && a.builders[a.tables[t].builder.value].where.Some?
       && ValueConditionAdded(a, r, a.builders[a.tables[t].builder.value].where.value, tableName, op, value, NoLink, true))
    ensures r.Ok? ==>
      var w := a.builders[a.tables[t].builder.value].where.value;
      (|r.value.groups| == |a.groups| && |r.value.groups[w].conditions| == |a.groups[w].conditions| + 1
       && r.value.groups[w].conditions[|a.groups[w].conditions|].link == NoLink)
    ensures r.Ok? ==> WhereFieldAdded(a, r.value, mdb, fieldName, value)
  {
    match a.tables[t].builder
    case None => Err(NullReference)
    case Some(b) =>
      match a.builders[b].where
      case None => Err(NullReference)
      case Some(w) => WhereInternal(a, mdb, w, tableName, fieldName, op, value, NoLink)
  }

  /** `ConditionGroup.And` / `Or`: a value condition linked with AND or OR,
      unlinked when it is the group's first. */
  function AndOr(a: Arena, mdb: Option<Metadata.MetadataDatabase>, g: GroupId, tableName: string,
                 fieldName: string, op: SqlOperator, value: Value, link: BoolOperator): (r: Result<Arena>)
    requires Valid(a) && g < |a.groups| && link != NoLink
    ensures ValueConditionAdded(a, r, g, tableName, op, value, link, true)
    ensures r.Ok? ==>
      (|r.value.groups| == |a.groups| && |r.value.groups[g].conditions| == |a.groups[g].conditions| + 1
       && (r.value.groups[g].conditions[|a.groups[g].conditions|].link == NoLink <==> |a.groups[g].conditions| == 0)
       && (|a.groups[g].conditions| > 0 ==> r.value.groups[g].conditions[|a.groups[g].conditions|].link == link))
    ensures r.Ok? ==> WhereFieldAdded(a, r.value, mdb, fieldName, value)
  {
    WhereInternal(a, mdb, g, tableName, fieldName, op, value, link)
  }

  /** The invariant the value-condition builders keep: a group's first
      condition has no link. */
  predicate FirstUnlinked(g: Group) {
    |g.conditions| > 0 ==> g.conditions[0].link == NoLink
  }

  predicate AllFirstUnlinked(a: Arena) {
    forall k :: 0 <= k < |a.groups| ==> FirstUnlinked(a.groups[k])
  }

  /** Appending value conditions keeps every group's first condition unlinked. */
  lemma {:induction false} WhereInternalKeepsFirstUnlinked(a: Arena, mdb: Option<Metadata.MetadataDatabase>, g: GroupId,
      tableName: string, fieldName: string, op: SqlOperator, value: Value, link: BoolOperator)
    requires Valid(a) && g < |a.groups| && AllFirstUnlinked(a)
    requires WhereInternal(a, mdb, g, tableName, fieldName, op, value, link).Ok?
    ensures AllFirstUnlinked(WhereInternal(a, mdb, g, tableName, fieldName, op, value, link).value)
  {
    var r := WhereInternal(a, mdb, g, tableName, fieldName, op, value, link).value;
    forall k | 0 <= k < |r.groups| ensures FirstUnlinked(r.groups[k]) {
      if k == g {
        assert FirstUnlinked(a.groups[g]);
        if |a.groups[g].conditions| > 0 {
          assert r.groups[g].conditions[0] == a.groups[g].conditions[0];
        }
      } else {
        assert r.groups[k].conditions == a.groups[k].conditions;
        assert FirstUnlinked(a.groups[k]);
      }
    }
  }

  // ---------------------------------------------------------------------------
  // Nested groups

  /** `WhereConditionGroup.AndGroup` / `OrGroup`: exactly one new, empty
      sub-group, linked with AND or OR, whose parent is the group; nothing
      else in the group changes. */
  function SubGroup(a: Arena, g: GroupId, link: BoolOperator): (r: (Arena, GroupId))
    requires Valid(a) && g < |a.groups| && link != NoLink
    requires a.groups[g].kind.WhereGroup? || a.groups[g].kind.IfElseGroup?
    ensures Valid(r.0) && r.1 == |a.groups| && |r.0.groups| == |a.groups| + 1
    ensures r.0.groups[r.1] == Group(WhereGroup, link, [], [], Some(g), a.groups[g].builder)
    ensures r.0.groups[g] == a.groups[g].(subGroups := a.groups[g].subGroups + [r.1])
    ensures forall k :: 0 <= k < |a.groups| && k != g ==> r.0.groups[k] == a.groups[k]
    ensures r.0.tables == a.tables && r.0.fields == a.fields && r.0.joins == a.joins && r.0.builders == a.builders
  {
    var og := a.groups[g];
    var (a1, n) := AddGroup(a, Group(WhereGroup, link, [], [], Some(g), og.builder));
    (SetGroup(a1, g, og.(subGroups := og.subGroups + [n])), n)
  }

  /** `JoinConditionGroup.AndGroup` / `OrGroup`: the new sub-group belongs to
      the same join and takes over the group's parent, not the group itself;
      it gets no builder, so value conditions cannot be added to it. */
  function JoinSubGroup(a: Arena, g: GroupId, link: BoolOperator): (r: (Arena, GroupId))
    requires Valid(a) && g < |a.groups| && link != NoLink
    requires a.groups[g].kind.JoinGroup?
    ensures Valid(r.0) && r.1 == |a.groups| && |r.0.groups| == |a.groups| + 1
    ensures r.0.groups[r.1] == Group(a.groups[g].kind, link, [], [], a.groups[g].parent, None)
    ensures r.0.groups[g] == a.groups[g].(subGroups := a.groups[g].subGroups + [r.1])
    ensures forall k :: 0 <= k < |a.groups| && k != g ==> r.0.groups[k] == a.groups[k]
    ensures r.0.tables == a.tables && r.0.fields == a.fields && r.0.joins == a.joins && r.0.builders == a.builders
  {
    var og := a.groups[g];
    var (a1, n) := AddGroup(a, Group(og.kind, link, [], [], og.parent, None));
    (SetGroup(a1, g, og.(subGroups := og.subGroups + [n])), n)
  }

  /** A value condition on a sub-group made by `JoinSubGroup` always fails:
      the sub-group has no builder to look the table up in. */
  lemma JoinSubGroupHasNoBuilder(a: Arena, mdb: Option<Metadata.MetadataDatabase>, g: GroupId, link: BoolOperator,
                                 tableName: string, fieldName: string, op: SqlOperator, value: Value)
    requires Valid(a) && g < |a.groups| && link != NoLink && a.groups[g].kind.JoinGroup?
    ensures var (a1, s) := JoinSubGroup(a, g, link);
            WhereInternalAll(a1, mdb, s, tableName, fieldName, op, value, AndLink) == Err(NullReference)
  {
  }

  // ---------------------------------------------------------------------------
  // Join conditions

  /** `r` has `a`'s tables as they were and `a`'s fields as a prefix of its
      own. */
  ghost predicate FieldsKept(a: Arena, r: Arena) {
    r.tables == a.tables && |a.fields| <= |r.fields| && r.fields[..|a.fields|] == a.fields
  }

  /** The field a condition makes for column `name` of table `t`: a new field
      of the given kind and value, typed from the builder's catalogue column
      of that name when there is one (which also gives it the catalogue's
      spelling of the name). */
  function MadeField(a: Arena, mdb: Option<Metadata.MetadataDatabase>, kind: FieldKind, t: TableId,
                     name: string, value: Value): Field
    requires t < |a.tables|
  {
    Populated(mdb, FullName(a.tables[t]), NewField(kind, name, None, Some(t), value))
  }

  /** Field `fid` of `a` is the one a join condition uses for column `name`
      of table `t`: the table's own field of that name or alias when it has
      one, otherwise a new column field made for it. */
  ghost predicate JoinColumn(a: Arena, mdb: Option<Metadata.MetadataDatabase>, fid: FieldId, t: TableId, name: string)
    requires Valid(a) && t < |a.tables|
  {
    fid < |a.fields|
    && match FindField(a, t, name)
       case Some(e) => fid == e
       case None => a.fields[fid] == MadeField(a, mdb, ColumnField, t, name, NullValue)
  }

  /** Adding fields keeps what a join condition's field stands for. */
  lemma JoinColumnKept(a: Arena, r: Arena, mdb: Option<Metadata.MetadataDatabase>, fid: FieldId, t: TableId, name: string)
    requires Valid(a) && Valid(r) && t < |a.tables| && FieldsKept(a, r)
    requires JoinColumn(a, mdb, fid, t, name)
    ensures JoinColumn(r, mdb, fid, t, name)
  {
    FindFieldAfterNewFields(a, r, t, name);
    assert r.fields[fid] == r.fields[..|a.fields|][fid];
  }

  /** One side of a join condition: the table's field found by `FindField`,
      or else a new column field of that table, typed from the catalogue when
      it can be. */
  function JoinSideField(a: Arena, mdb: Option<Metadata.MetadataDatabase>, t: TableId, name: string): (r: Result<(Arena, FieldId)>)
    requires Valid(a) && t < |a.tables|
    ensures r.Ok? ==>
      (Valid(r.value.0) && r.value.1 < |r.value.0.fields|
       && r.value.0 == a.(fields := r.value.0.fields) && |a.fields| <= |r.value.0.fields|
       && r.value.0.fields[..|a.fields|] == a.fields)
    ensures FindField(a, t, name).Some? ==> r == Ok((a, FindField(a, t, name).value))
    ensures FindField(a, t, name).None? ==> (r.Err? <==> a.tables[t].builder.None?)
    ensures r.Ok? && FindField(a, t, name).None? ==>
      (r.value.1 == |a.fields| && |r.value.0.fields| == |a.fields| + 1
       && r.value.0.fields[r.value.1].table == Some(t) && r.value.0.fields[r.value.1].kind == ColumnField
       && r.value.0.fields[r.value.1].alias.None?)
    ensures r.Ok? ==> JoinColumn(r.value.0, mdb, r.value.1, t, name)
  {
    match FindField(a, t, name)
    case Some(f) => Ok((a, f))
    case None =>
      var f :- Populate(a, mdb, NewField(ColumnField, name, None, Some(t), NullValue));
      var (a1, id) := AddField(a, f);
      FindFieldAfterNewFields(a, a1, t, name);
      Ok((a1, id))
  }

  /** Adding fields to the arena does not change what `FindField` finds. */
  lemma FindFieldAfterNewFields(a: Arena, a1: Arena, t: TableId, name: string)
    requires Valid(a) && Valid(a1) && t < |a.tables|
    requires FieldsKept(a, a1)
    ensures FindField(a1, t, name) == FindField(a, t, name)
  {
    var ids := a.tables[t].fields;
    assert forall i :: 0 <= i < |ids| ==> a1.fields[ids[i]] == a.fields[ids[i]] by {
      forall i | 0 <= i < |ids| ensures a1.fields[ids[i]] == a.fields[ids[i]] {
        assert a1.fields[..|a.fields|][ids[i]] == a.fields[ids[i]];
      }
    }
    assert FieldsOf(a1, ids) == FieldsOf(a, ids);
  }

  /** Appends condition `c` to group `g` as it is. */
  function AppendCondition(a: Arena, g: GroupId, c: Condition): (r: Arena)
    requires Valid(a) && g < |a.groups| && c.left < |a.fields| && OptIn(c.right, |a.fields|)
    ensures Valid(r) && r == a.(groups := a.groups[g := a.groups[g].(conditions := a.groups[g].conditions + [c])])
  {
    SetGroup(a, g, a.groups[g].(conditions := a.groups[g].conditions + [c]))
  }

  /** `r` is `a` with one more condition, linked with `link` and comparing
      with `op`, at the end of group `g`; the group's other parts, the joins,
      the tables and the builders are as they were. */
  ghost predicate ConditionAppended(a: Arena, r: Arena, g: GroupId, link: BoolOperator, op: SqlOperator)
    requires g < |a.groups|
  {
    Valid(r) && |r.groups| == |a.groups| && r.joins == a.joins && r.tables == a.tables && r.builders == a.builders
    && |r.groups[g].conditions| == |a.groups[g].conditions| + 1
    && r.groups[g] == a.groups[g].(conditions := r.groups[g].conditions)
    && r.groups[g].conditions[..|a.groups[g].conditions|] == a.groups[g].conditions
    && r.groups[g].conditions[|a.groups[g].conditions|].link == link
    && r.groups[g].conditions[|a.groups[g].conditions|].op == op
    && FieldsKept(a, r)
  }

  /** Condition `c` compares, in `a`, column `fromField` of join `j`'s source
      table with column `toField` of its target table. */
  ghost predicate JoinCompares(a: Arena, mdb: Option<Metadata.MetadataDatabase>, j: JoinId, c: Condition,
                               fromField: string, toField: string)
    requires Valid(a)
  {
    j < |a.joins| && a.joins[j].from < |a.tables| && a.joins[j].to < |a.tables| && c.right.Some?
    && JoinColumn(a, mdb, c.left, a.joins[j].from, fromField)
    && JoinColumn(a, mdb, c.right.value, a.joins[j].to, toField)
  }

  /** Adding fields and conditions keeps what a join condition compares. */
  lemma JoinComparesKept(a: Arena, r: Arena, mdb: Option<Metadata.MetadataDatabase>, j: JoinId, c: Condition,
                         fromField: string, toField: string)
    requires Valid(a) && Valid(r) && FieldsKept(a, r) && r.joins == a.joins
    requires JoinCompares(a, mdb, j, c, fromField, toField)
    ensures JoinCompares(r, mdb, j, c, fromField, toField)
  {
    JoinColumnKept(a, r, mdb, c.left, a.joins[j].from, fromField);
    JoinColumnKept(a, r, mdb, c.right.value, a.joins[j].to, toField);
  }

  /** `OnInternal`: appends `from.fromField <op> to.toField` to group `g`
      with the given link, as it is: no normalisation of the link and no
      change to the sub-groups. */
  function OnInternal(a: Arena, mdb: Option<Metadata.MetadataDatabase>, g: GroupId, j: JoinId,
                      fromField: string, op: SqlOperator, toField: string, link: BoolOperator): (r: Result<Arena>)
    requires Valid(a) && g < |a.groups| && j < |a.joins|
    ensures a.joins[j].from < |a.tables| && a.joins[j].to < |a.tables|
    ensures r.Ok? ==> ConditionAppended(a, r.value, g, link, op)
    ensures r.Ok? ==> forall k :: 0 <= k < |a.groups| && k != g ==> r.value.groups[k] == a.groups[k]
    ensures r.Ok? ==>
      var c := r.value.groups[g].conditions[|a.groups[g].conditions|];
      c.link == link && c.op == op && JoinCompares(r.value, mdb, j, c, fromField, toField)
  {
    assert JoinOk(SizesOf(a), a.joins[j]);
    var (a2, lf, rf) :- JoinFields(a, mdb, a.joins[j].from, fromField, a.joins[j].to, toField);
    var c := Condition(link, lf, op, Some(rf));
    var r := AppendCondition(a2, g, c);
    AppendedAfterNewFields(a, a2, r, g, c);
    JoinComparesKept(a2, r, mdb, j, c, fromField, toField);
    Ok(r)
  }

  /** A condition appended after adding fields is appended as it is. */
  lemma AppendedAfterNewFields(a: Arena, a2: Arena, r: Arena, g: GroupId, c: Condition)
    requires Valid(a) && Valid(a2) && Valid(r) && g < |a.groups|
    requires a2 == a.(fields := a2.fields) && |a.fields| <= |a2.fields| && a2.fields[..|a.fields|] == a.fields
    requires r == a2.(groups := a2.groups[g := a2.groups[g].(conditions := a2.groups[g].conditions + [c])])
    ensures ConditionAppended(a, r, g, c.link, c.op) && FieldsKept(a2, r)
    ensures r.groups[g].conditions[|a.groups[g].conditions|] == c
    ensures forall k :: 0 <= k < |a.groups| && k != g ==> r.groups[k] == a.groups[k]
  {
    assert r.fields[..|a2.fields|] == a2.fields;
    assert r.groups[g].conditions[..|a.groups[g].conditions|] == a.groups[g].conditions;
  }

  /** The two fields an ON condition compares: each found in its table by
      name, or else added to it. */
  function JoinFields(a: Arena, mdb: Option<Metadata.MetadataDatabase>, from: TableId, fromField: string,
                      to: TableId, toField: string): (r: Result<(Arena, FieldId, FieldId)>)
    requires Valid(a) && from < |a.tables| && to < |a.tables|
    ensures r.Ok? ==>
      (Valid(r.value.0) && r.value.0 == a.(fields := r.value.0.fields) && |a.fields| <= |r.value.0.fields|
       && r.value.0.fields[..|a.fields|] == a.fields
       && r.value.1 < |r.value.0.fields| && r.value.2 < |r.value.0.fields|)
    ensures r.Ok? ==>
      JoinColumn(r.value.0, mdb, r.value.1, from, fromField) && JoinColumn(r.value.0, mdb, r.value.2, to, toField)
    ensures r.Ok? ==>
      (FindField(a, from, fromField).Some? ==> r.value.1 == FindField(a, from, fromField).value)
      && (FindField(a, from, fromField).None? ==> r.value.0.fields[r.value.1].table == Some(from))
    ensures r.Ok? ==>
      (FindField(a, to, toField).Some? ==> r.value.2 == FindField(a, to, toField).value)
      && (FindField(a, to, toField).None? ==> r.value.0.fields[r.value.2].table == Some(to))
  {
    var (a1, lf) :- JoinSideField(a, mdb, from, fromField);
    FindFieldAfterNewFields(a, a1, to, toField);
    var (a2, rf) :- JoinSideField(a1, mdb, to, toField);
    PrefixAt(a1.fields, a2.fields, lf);
    PrefixTrans(a.fields, a1.fields, a2.fields);
    JoinColumnKept(a1, a2, mdb, lf, from, fromField);
    Ok((a2, lf, rf))
  }

  /** `Join.On`: the first ON condition, with no link. */
  function On(a: Arena, mdb: Option<Metadata.MetadataDatabase>, j: JoinId, fromField: string, op: SqlOperator, toField: string): (r: Result<Arena>)
    requires Valid(a) && j < |a.joins|
    ensures r.Ok? ==>
      var g := a.joins[j].conditions;
      (|r.value.groups| == |a.groups| && |r.value.groups[g].conditions| == |a.groups[g].conditions| + 1
       && r.value.groups[g].conditions[|a.groups[g].conditions|].link == NoLink
       && r.value.groups[g].conditions[|a.groups[g].conditions|].right.Some?)
    ensures r.Ok? ==> a.joins[j].conditions < |a.groups| && ConditionAppended(a, r.value, a.joins[j].conditions, NoLink, op)
    ensures r.Ok? ==>
      JoinCompares(r.value, mdb, j, r.value.groups[a.joins[j].conditions].conditions[|a.groups[a.joins[j].conditions].conditions|],
                   fromField, toField)
  {
    assert JoinOk(SizesOf(a), a.joins[j]);
    OnInternal(a, mdb, a.joins[j].conditions, j, fromField, op, toField, NoLink)
  }

  /** `JoinConditionGroup.And` / `Or` between two fields: linked with AND or
      OR even when it is the group's first condition. */
  function JoinFieldCondition(a: Arena, mdb: Option<Metadata.MetadataDatabase>, g: GroupId, fromField: string,
                              op: SqlOperator, toField: string, link: BoolOperator): (r: Result<Arena>)
    requires Valid(a) && g < |a.groups| && a.groups[g].kind.JoinGroup? && link != NoLink
    ensures r.Ok? ==> ConditionAppended(a, r.value, g, link, op)
    ensures r.Ok? ==>
      JoinCompares(r.value, mdb, a.groups[g].kind.join, r.value.groups[g].conditions[|a.groups[g].conditions|], fromField, toField)
  {
    assert GroupOk(SizesOf(a), g, a.groups[g]);
    OnInternal(a, mdb, g, a.groups[g].kind.join, fromField, op, toField, link)
  }

  /** `JoinConditionGroup.And` with a value of static type `object`: a
      `WhereInternalAll` condition linked with AND on the named table, by
      default the join's target table (named by its alias). */
  function JoinValueCondition(a: Arena, mdb: Option<Metadata.MetadataDatabase>, g: GroupId, fieldName: string,
                              op: SqlOperator, value: Value, tableName: string): (r: Result<Arena>)
    requires Valid(a) && g < |a.groups| && a.groups[g].kind.JoinGroup?
    ensures ValueConditionAdded(a, r, g, if tableName == "" then Alias(a.tables[a.joins[a.groups[g].kind.join].to]) else tableName,
                                op, value, AndLink, false)
    ensures r.Ok? && |a.groups[g].conditions| > 0 ==>
      ConditionAppended(a, r.value, g, AndLink, op)
      && r.value.groups[g].conditions[|a.groups[g].conditions|] == Condition(AndLink, |a.fields|, op, None)
    ensures r.Ok? ==> ValueFieldAdded(a, r.value, mdb, fieldName, value)
  {
    var name := if tableName == "" then Alias(a.tables[a.joins[a.groups[g].kind.join].to]) else tableName;
    var r := WhereInternalAll(a, mdb, g, name, fieldName, op, value, AndLink);
    if r.Ok? && |a.groups[g].conditions| > 0 then
      ValueConditionAppended(a, r.value, g, AndLink, op);
      r
    else r
  }

  /** A value condition appended to a non-empty group is appended as it is. */
  lemma ValueConditionAppended(a: Arena, r: Arena, g: GroupId, link: BoolOperator, op: SqlOperator)
    requires Valid(a) && Valid(r) && g < |a.groups| && |a.groups[g].conditions| > 0 && link != NoLink
    requires AppendedTo(a.(fields := r.fields), r, g, Condition(NewConditionLink(a.groups[g], link), |a.fields|, op, None))
    requires |a.fields| <= |r.fields| && r.fields[..|a.fields|] == a.fields
    ensures ConditionAppended(a, r, g, link, op)
    ensures r.groups[g].conditions[|a.groups[g].conditions|] == Condition(link, |a.fields|, op, None)
  {
    assert GroupOk(SizesOf(a), g, a.groups[g]);
    var c := Condition(link, |a.fields|, op, None);
    assert r.groups[g] == a.groups[g].(conditions := a.groups[g].conditions + [c]);
    assert r.groups[g].conditions[..|a.groups[g].conditions|] == a.groups[g].conditions;
  }

  /** `JoinConditionGroup.And<T>` and `Or<T>`: a `WhereInternalAll<T>`
      condition with the given link on the named table, by default the
      join's target table. */
  function JoinTypedCondition(a: Arena, g: GroupId, fieldName: string, op: SqlOperator, value: Value,
                              dataType: ClrType, tableName: string, link: BoolOperator): (r: Result<Arena>)
    requires Valid(a) && g < |a.groups| && a.groups[g].kind.JoinGroup? && link != NoLink
    ensures TypedConditionAdded(a, r, g, if tableName == "" then Alias(a.tables[a.joins[a.groups[g].kind.join].to]) else tableName,
                                fieldName, op, value, dataType, link)
    ensures r.Ok? && |a.groups[g].conditions| > 0 ==> ConditionAppended(a, r.value, g, link, op)
  {
    var name := if tableName == "" then Alias(a.tables[a.joins[a.groups[g].kind.join].to]) else tableName;
    var r := WhereInternalAllTyped(a, g, name, fieldName, op, value, dataType, link);
    if r.Ok? && |a.groups[g].conditions| > 0 then
      ValueConditionAppended(a, r.value, g, link, op);
      r
    else r
  }

  // ---------------------------------------------------------------------------
  // EXISTS groups

  /** `ExistsInternal`: a new EXISTS sub-group over a new table named
      `inTable` (the table is not added to the builder's tables). */
  function ExistsInternal(a: Arena, g: GroupId, inTable: string, fromTable: Option<string>,
                          link: BoolOperator, negated: bool): (r: (Arena, GroupId))
    requires Valid(a) && g < |a.groups|
    ensures Valid(r.0) && r.1 == |a.groups| && |r.0.groups| == |a.groups| + 1 && |r.0.tables| == |a.tables| + 1
    ensures r.0.groups[r.1] == Group(ExistsGroup(|a.tables|, fromTable, negated), link, [], [], Some(g), a.groups[g].builder)
    ensures r.0.tables[|a.tables|] == Table(PlainTable, inTable, None, None, [], a.groups[g].builder)
    ensures r.0.groups[g] == a.groups[g].(subGroups := a.groups[g].subGroups + [r.1])
    ensures forall k :: 0 <= k < |a.groups| && k != g ==> r.0.groups[k] == a.groups[k]
    ensures r.0.builders == a.builders
  {
    var og := a.groups[g];
    var (a1, t) := AddTable(a, Table(PlainTable, inTable, None, None, [], og.builder));
    var (a2, n) := AddGroup(a1, Group(ExistsGroup(t, fromTable, negated), link, [], [], Some(g), og.builder));
    (SetGroup(a2, g, og.(subGroups := og.subGroups + [n])), n)
  }

  /** `AndExists` / `AndNotExists`: linked with AND unless the group has no
      conditions yet. */
  function AndExists(a: Arena, g: GroupId, inTable: string, fromTable: Option<string>, negated: bool): (r: (Arena, GroupId))
    requires Valid(a) && g < |a.groups| && (a.groups[g].kind.WhereGroup? || a.groups[g].kind.IfElseGroup?)
    ensures Valid(r.0) && r.1 < |r.0.groups|
    ensures r.0.groups[r.1].link == (if |a.groups[g].conditions| > 0 then AndLink else NoLink)
    ensures r.0.groups[r.1].kind == ExistsGroup(|a.tables|, fromTable, negated)
  {
    ExistsInternal(a, g, inTable, fromTable, if |a.groups[g].conditions| > 0 then AndLink else NoLink, negated)
  }

  /** `Table.WhereExists` / `WhereNotExists`: an EXISTS group under the
      builder's WHERE group, correlated with the table's alias. */
  function WhereExists(a: Arena, t: TableId, inTable: string, negated: bool): (r: Result<(Arena, GroupId)>)
    requires Valid(a) && t < |a.tables|
    ensures a.tables[t].builder.None? ==> r == Err(NullReference)
    ensures r.Ok? ==>
      (Valid(r.value.0) && r.value.1 < |r.value.0.groups|
       && r.value.0.groups[r.value.1].kind == ExistsGroup(|a.tables|, Some(Alias(a.tables[t])), negated))
    ensures r.Err? ==> r.error == NullReference
  {
    match a.tables[t].builder
    case None => Err(NullReference)
    case Some(b) =>
      match a.builders[b].where
      case None => Err(NullReference)
      case Some(w) =>
        Ok(ExistsInternal(a, w, inTable, Some(Alias(a.tables[t])),
                          if |a.groups[w].conditions| > 0 then AndLink else NoLink, negated))
  }
}
