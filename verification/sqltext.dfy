/** The SQL text of the pieces a statement is made of: fields, field
    conditions, condition groups, joins, the column lists of the table
    classes, ORDER BY items and the declaration and assignment of T-SQL
    parameters. Every renderer returns the text or the exception the library
    would throw while producing it. */
module SqlText {
  import opened Outcomes
  import opened Text
  import opened Values
  import opened SqlTypes
  import opened Literals
  import opened QueryModel

  // ---------------------------------------------------------------------------
  // Fields

  /** The column part of `Field.ToSql`: `<table alias>.<name>`, the alias
      and its dot left out when the table's alias is empty. */
  function QualifiedColumn(t: Table, name: string): string {
    (if Alias(t) != "" then Alias(t) + "." else "") + name
  }

  /** `Field.ToSql` of a plain column: the qualified column, followed by
      ` AS [alias]` when the field has a non-empty alias and holds no value. */
  function ColumnSql(a: Arena, f: Field): (r: Result<string>)
    requires FieldOk(SizesOf(a), f)
    ensures r.Err? <==> f.table.None?
    ensures r.Ok? ==> Text.StartsWith(r.value, QualifiedColumn(a.tables[f.table.value], f.name))
    ensures r.Ok? ==>
      (r.value == QualifiedColumn(a.tables[f.table.value], f.name)
       <==> !(NonEmpty(f.alias) && f.value.NullValue?))
  {
    match f.table
    case None => Err(NullReference)
    case Some(t) =>
      var col := QualifiedColumn(a.tables[t], f.name);
      if NonEmpty(f.alias) && f.value.NullValue? then
        assert |col + " AS [" + f.alias.value + "]"| > |col|;
        Ok(col + " AS [" + f.alias.value + "]")
      else Ok(col)
  }

  predicate IsValueKind(k: FieldKind) {
    k.ValueField? || k.ParameterField? || k.TableParameterField?
  }

  /** `DataType ?? Value.GetType()`: the declared type of a value field, or
      else the type of the value it holds. */
  function ValueDataType(f: Field): (r: Result<ClrType>)
    requires IsValueKind(f.kind)
    ensures r.Err? <==> (DeclaredType(f).None? && f.value.NullValue?)
    ensures DeclaredType(f).Some? ==> r == Ok(DeclaredType(f).value)
    ensures DeclaredType(f).None? && r.Ok? ==> Some(r.value) == TypeOf(f.value)
  {
    match DeclaredType(f)
    case Some(t) => Ok(t)
    case None =>
      match TypeOf(f.value)
      case Some(t) => Ok(t)
      case None => Err(NullReference)
  }

  /** The `DataType` property of a value field; a table parameter has none. */
  function DeclaredType(f: Field): Option<ClrType> {
    match f.kind
    case ValueField(t) => t
    case ParameterField(_, _, t) => t
    case _ => None
  }

  /** `ValueField.Quotable`: the quote of the declared type for a typed value
      field, otherwise the quote of the held value's type (a null value is
      dereferenced); a plain column is not a value field at all. */
  function Quotable(f: Field): (r: Result<string>)
    ensures r.Ok? ==> r.value == "'" || r.value == ""
    ensures f.kind.ColumnField? ==> r == Err(InvalidCast)
    ensures f.kind.ValueField? && f.kind.dataType.Some? ==> r == Ok(GetQuotable(f.kind.dataType))
    ensures !f.kind.ColumnField? && !(f.kind.ValueField? && f.kind.dataType.Some?) ==>
      (r.Err? <==> f.value.NullValue?) && (r.Ok? ==> r.value == GetQuotable(TypeOf(f.value)))
  {
    if f.kind.ColumnField? then Err(InvalidCast)
    else if f.kind.ValueField? && f.kind.dataType.Some? then Ok(GetQuotable(f.kind.dataType))
    else if f.value.NullValue? then Err(NullReference)
    else Ok(GetQuotable(TypeOf(f.value)))
  }

  /** The aliased form of a literal: `q<text>q [<alias>]`, with an `N` in
      front when the quote is a single character. */
  function Aliased(q: string, text: string, alias: string): (r: string)
    ensures q == "'" ==> r == "N'" + text + "' [" + alias + "]"
    ensures q == "" ==> r == text + " [" + alias + "]"
  {
    var s := q + text + q + " [" + alias + "]";
    if |q| == 1 then "N" + s else s
  }

  /** `ValueField.ToSql`: the literal text of the value (`NULL` for a null
      string), in its aliased form when the field has an alias. */
  function ValueSql(f: Field, culture: Culture): (r: Result<string>)
    requires IsValueKind(f.kind)
    ensures r.Ok? ==> ValueDataType(f).Ok? && GetFieldValue(ValueDataType(f).value, f.value, culture).Ok?
    ensures r.Ok? && !NonEmpty(f.alias) ==> r.value == LiteralText(GetFieldValue(ValueDataType(f).value, f.value, culture).value)
    ensures r.Ok? && NonEmpty(f.alias) ==>
      Quotable(f).Ok?
      && r.value == Aliased(Quotable(f).value, LiteralText(GetFieldValue(ValueDataType(f).value, f.value, culture).value), f.alias.value)
    ensures r.Err? && ValueDataType(f).Ok? && GetFieldValue(ValueDataType(f).value, f.value, culture).Ok? ==>
      NonEmpty(f.alias) && Quotable(f).Err?
  {
    var dt :- ValueDataType(f);
    var o :- GetFieldValue(dt, f.value, culture);
    var text := LiteralText(o);
    if !NonEmpty(f.alias) then Ok(text)
    else
      var q :- Quotable(f);
      Ok(Aliased(q, text, f.alias.value))
  }

  /** The text of a literal: `NULL` stands for the null the conversion gives
      for a null string. */
  function LiteralText(o: Option<string>): string {
    if o.None? then "NULL" else o.value
  }

  /** `Field.ToSql`, dispatched on the field class; a table parameter writes
      its table's column list followed by `INTO <parameter>`. Rendering a
      table parameter nested more deeply than there are tables means a cycle
      among table parameters. */
  function FieldSql(a: Arena, f: Field, culture: Culture, fuel: nat): (r: Result<string>)
    requires Valid(a) && FieldOk(SizesOf(a), f)
    ensures f.kind.ColumnField? ==> r == ColumnSql(a, f)
    ensures f.kind.ValueField? || f.kind.ParameterField? ==> r == ValueSql(f, culture)
    ensures f.kind.TableParameterField? && r.Ok? ==>
      EndsWithOrdinal(r.value, " INTO " + f.kind.tableParameterName + " \r\n")
    decreases fuel, 0, 0
  {
    match f.kind
    case ColumnField => ColumnSql(a, f)
    case TableParameterField(pn, pt) =>
      if fuel == 0 then Err(Diverges)
      else
        var columns :- TableSql(a, pt, culture, fuel - 1);
        Ok(IntoParameter(columns, pn))
    case _ => ValueSql(f, culture)
  }

  /** `<columns> INTO <parameter>`, the OUTPUT clause of a table parameter. */
  function IntoParameter(columns: string, pn: string): (r: string)
    ensures EndsWithOrdinal(r, " INTO " + pn + " \r\n")
    ensures Text.StartsWith(r, columns)
  {
    var r := columns + " INTO " + pn + " \r\n";
    assert r[|r| - |" INTO " + pn + " \r\n"|..] == " INTO " + pn + " \r\n";
    assert r[..|columns|] == columns;
    r
  }

  /** The text of every field of the list, in order. */
  function FieldsSql(a: Arena, ids: seq<FieldId>, culture: Culture, fuel: nat): (r: Result<seq<string>>)
    requires Valid(a) && AllIn(ids, |a.fields|)
    ensures r.Ok? ==> |r.value| == |ids|
    ensures r.Ok? ==> forall i :: 0 <= i < |ids| ==> FieldSql(a, a.fields[ids[i]], culture, fuel) == Ok(r.value[i])
    ensures r.Err? ==> exists i :: 0 <= i < |ids| && FieldSql(a, a.fields[ids[i]], culture, fuel).Err?
    decreases fuel, 1, |ids|
  {
    if |ids| == 0 then Ok([])
    else
      var first :- FieldSql(a, a.fields[ids[0]], culture, fuel);
      var rest := FieldsSql(a, ids[1..], culture, fuel);
      if rest.Err? then
        var i :| 0 <= i < |ids[1..]| && FieldSql(a, a.fields[ids[1..][i]], culture, fuel).Err?;
        assert ids[1..][i] == ids[i + 1];
        Err(rest.error)
      else
        assert forall i :: 1 <= i < |ids| ==> ids[i] == ids[1..][i - 1];
        Ok([first] + rest.value)
  }

  /** `Table.ToSql` and its overrides: the SET list of an UPDATE target, the
      column list of an INSERT target, and otherwise every field's text
      joined by commas. */
  function TableSql(a: Arena, t: TableId, culture: Culture, fuel: nat): (r: Result<string>)
    requires Valid(a) && t < |a.tables|
    ensures a.tables[t].kind.UpdateTable? ==> r == UpdateSetList(a, t)
    ensures a.tables[t].kind.InsertIntoTable? ==> r == InsertColumnList(a, t)
    ensures (a.tables[t].kind.PlainTable? || a.tables[t].kind.TempTable?) ==>
      (|a.tables[t].fields| == 0 ==> r == Ok(""))
      && (r.Ok? ==> FieldsSql(a, a.tables[t].fields, culture, fuel).Ok?
                    && r.value == JoinWith(", ", FieldsSql(a, a.tables[t].fields, culture, fuel).value))
    decreases fuel, 2, 0
  {
    match a.tables[t].kind
    case UpdateTable(_) => UpdateSetList(a, t)
    case InsertIntoTable(_) => InsertColumnList(a, t)
    case _ =>
      var items :- FieldsSql(a, a.tables[t].fields, culture, fuel);
      Ok(JoinWith(", ", items))
  }

  // ---------------------------------------------------------------------------
  // Parameters

  /** `ParameterField.ParameterName`. */
  function ParameterName(f: Field): string
    requires IsParameter(f)
  {
    if f.kind.ParameterField? then f.kind.parameterName else f.kind.tableParameterName
  }

  /** `FieldList.OfType<ParameterField>()`: the parameter fields of the list,
      in order. */
  function ParameterIds(a: Arena, ids: seq<FieldId>): (r: seq<FieldId>)
    requires AllIn(ids, |a.fields|)
    ensures |r| <= |ids| && AllIn(r, |a.fields|)
    ensures forall x :: x in r <==> x in ids && IsParameter(a.fields[x])
    ensures (forall i :: 0 <= i < |ids| ==> IsParameter(a.fields[ids[i]])) ==> r == ids
  {
    if |ids| == 0 then []
    else
      var rest := ParameterIds(a, ids[1..]);
      assert forall x :: x in ids <==> x == ids[0] || x in ids[1..];
      if IsParameter(a.fields[ids[0]]) then [ids[0]] + rest else rest
  }

  /** One `<reference name> = <parameter name>` assignment per parameter. */
  function Assignments(a: Arena, ids: seq<FieldId>): (r: seq<string>)
    requires AllIn(ids, |a.fields|) && forall i :: 0 <= i < |ids| ==> IsParameter(a.fields[ids[i]])
    ensures |r| == |ids|
    ensures forall i :: 0 <= i < |ids| ==> r[i] == AliasOrName(a.fields[ids[i]]) + " = " + ParameterName(a.fields[ids[i]])
  {
    seq(|ids|, i requires 0 <= i < |ids| => AliasOrName(a.fields[ids[i]]) + " = " + ParameterName(a.fields[ids[i]]))
  }

  /** `UpdateTable.ToSql`: nothing for a table without fields; otherwise one
      assignment per parameter field, which must exist (`First()`). */
  function UpdateSetList(a: Arena, t: TableId): (r: Result<string>)
    requires Valid(a) && t < |a.tables|
    ensures |a.tables[t].fields| == 0 ==> r == Ok("")
    ensures r.Err? <==> |a.tables[t].fields| > 0 && |ParameterIds(a, a.tables[t].fields)| == 0
    ensures r.Err? ==> r.error == InvalidOperation
    ensures r.Ok? && |a.tables[t].fields| > 0 ==>
      r.value == JoinWith(", ", Assignments(a, ParameterIds(a, a.tables[t].fields)))
  {
    var ids := a.tables[t].fields;
    if |ids| == 0 then Ok("")
    else
      var ps := ParameterIds(a, ids);
      if |ps| == 0 then Err(InvalidOperation)
      else
        assert forall i :: 0 <= i < |ps| ==> ps[i] in ps;
        Ok(JoinWith(", ", Assignments(a, ps)))
  }

  /** The reference names of a list of fields, in order. */
  function ReferenceNames(a: Arena, ids: seq<FieldId>): (r: Result<seq<string>>)
    requires Valid(a) && AllIn(ids, |a.fields|)
    ensures r.Ok? <==> forall i :: 0 <= i < |ids| ==> FieldReferenceName(a, a.fields[ids[i]]).Ok?
    ensures r.Ok? ==> (|r.value| == |ids|
      && forall i :: 0 <= i < |ids| ==> r.value[i] == FieldReferenceName(a, a.fields[ids[i]]).value)
  {
    if |ids| == 0 then Ok([])
    else
      var first :- FieldReferenceName(a, a.fields[ids[0]]);
      var rest := ReferenceNames(a, ids[1..]);
      assert forall i :: 1 <= i < |ids| ==> ids[i] == ids[1..][i - 1];
      if rest.Err? then Err(rest.error) else Ok([first] + rest.value)
  }

  /** `InsertIntoTable.ToSql`: the fields' reference names joined by commas. */
  function InsertColumnList(a: Arena, t: TableId): (r: Result<string>)
    requires Valid(a) && t < |a.tables|
    ensures |a.tables[t].fields| == 0 ==> r == Ok("")
    ensures r.Ok? <==> ReferenceNames(a, a.tables[t].fields).Ok?
    ensures r.Ok? ==> r.value == JoinWith(", ", ReferenceNames(a, a.tables[t].fields).value)
  {
    var names :- ReferenceNames(a, a.tables[t].fields);
    Ok(JoinWith(", ", names))
  }

  /** `InsertIntoTable.FieldParameters`: every field must be a parameter
      (`Cast`), and there must be at least one (`First()`). */
  function FieldParameters(a: Arena, t: TableId): (r: Result<string>)
    requires Valid(a) && t < |a.tables|
    ensures (exists i :: 0 <= i < |a.tables[t].fields| && !IsParameter(a.fields[a.tables[t].fields[i]])) ==> r == Err(InvalidCast)
    ensures |a.tables[t].fields| == 0 ==> r == Err(InvalidOperation)
    ensures r.Ok? ==> |a.tables[t].fields| > 0 && ParameterIds(a, a.tables[t].fields) == a.tables[t].fields
    ensures r.Ok? ==> r.value == JoinWith(", ", ParameterNames(a, a.tables[t].fields))
  {
    var ids := a.tables[t].fields;
    if exists i :: 0 <= i < |ids| && !IsParameter(a.fields[ids[i]]) then Err(InvalidCast)
    else if |ids| == 0 then Err(InvalidOperation)
    else Ok(JoinWith(", ", ParameterNames(a, ids)))
  }

  function ParameterNames(a: Arena, ids: seq<FieldId>): (r: seq<string>)
    requires AllIn(ids, |a.fields|) && forall i :: 0 <= i < |ids| ==> IsParameter(a.fields[ids[i]])
    ensures |r| == |ids| && forall i :: 0 <= i < |ids| ==> r[i] == ParameterName(a.fields[ids[i]])
  {
    seq(|ids|, i requires 0 <= i < |ids| => ParameterName(a.fields[ids[i]]))
  }

  /** `<name> <type>` of each column of a table parameter. */
  function ColumnDeclarations(a: Arena, ids: seq<FieldId>): (r: Result<seq<string>>)
    requires AllIn(ids, |a.fields|)
    ensures r.Ok? ==> |r.value| == |ids|
    ensures r.Ok? ==> forall i :: 0 <= i < |ids| ==>
      var f := a.fields[ids[i]];
      GetSqlDataType(f.sqlType, f.maxLength, f.precision, f.scale, f.value).Ok?
      && r.value[i] == f.name + " " + GetSqlDataType(f.sqlType, f.maxLength, f.precision, f.scale, f.value).value
  {
    if |ids| == 0 then Ok([])
    else
      var f := a.fields[ids[0]];
      var ty :- GetSqlDataType(f.sqlType, f.maxLength, f.precision, f.scale, f.value);
      var rest :- ColumnDeclarations(a, ids[1..]);
      assert forall i :: 1 <= i < |ids| ==> ids[i] == ids[1..][i - 1];
      Ok([f.name + " " + ty] + rest)
  }

  /** `DeclareParameter`: `DECLARE <name> <type>` for a scalar parameter and
      `DECLARE <name> TABLE(<col> <type>,...)` for a table parameter, whose
      table needs a first column. */
  function DeclareParameter(a: Arena, f: Field): (r: Result<string>)
    requires Valid(a) && FieldOk(SizesOf(a), f) && IsParameter(f)
    ensures r.Ok? ==> Text.StartsWith(r.value, "DECLARE " + ParameterName(f) + " ")
    ensures f.kind.TableParameterField? ==>
      (r.Ok? <==> TableType(a, f.kind.parameterTable).Ok?)
      && (r.Ok? ==> r.value == "DECLARE " + ParameterName(f) + " " + TableType(a, f.kind.parameterTable).value)
    ensures f.kind.ParameterField? ==>
      (r.Ok? <==> GetSqlDataType(f.sqlType, f.maxLength, f.precision, f.scale, f.value).Ok?)
      && (r.Ok? ==> r.value == "DECLARE " + ParameterName(f) + " " + GetSqlDataType(f.sqlType, f.maxLength, f.precision, f.scale, f.value).value)
  {
    var ty :- match f.kind
      case TableParameterField(_, pt) => TableType(a, pt)
      case ParameterField(_, _, _) => GetSqlDataType(f.sqlType, f.maxLength, f.precision, f.scale, f.value);
    Ok(Prefixed("DECLARE " + ParameterName(f) + " ", ty))
  }

  /** The type of a table parameter: `TABLE(...)` over the declarations of the
      table's columns; a table without columns cannot be declared. */
  function TableType(a: Arena, t: TableId): (r: Result<string>)
    requires Valid(a) && t < |a.tables|
    ensures |a.tables[t].fields| == 0 ==> r == Err(InvalidOperation)
    ensures |a.tables[t].fields| > 0 ==> (r.Ok? <==> ColumnDeclarations(a, a.tables[t].fields).Ok?)
    ensures r.Ok? ==> Text.StartsWith(r.value, "TABLE(") && Text.EndsWithOrdinal(r.value, ")")
    ensures r.Ok? ==> r.value == "TABLE(" + JoinWith(",", ColumnDeclarations(a, a.tables[t].fields).value) + ")"
  {
    var ids := a.tables[t].fields;
    if |ids| == 0 then Err(InvalidOperation)
    else
      var columns :- ColumnDeclarations(a, ids);
      var r := "TABLE(" + JoinWith(",", columns) + ")";
      assert r[..6] == "TABLE(" && r[|r| - 1..] == ")";
      Ok(r)
  }

  /** `SetParameter`: a table parameter is read back with `SELECT  * FROM`; a
      null scalar is set to `NULL`; any other scalar is set to its literal,
      quoted (with `N'`) as its declared type requires. */
  function SetParameter(f: Field, culture: Culture): (r: Result<string>)
    requires IsParameter(f)
    ensures f.kind.TableParameterField? ==> r == Ok("SELECT  * FROM " + ParameterName(f))
    ensures f.kind.ParameterField? && f.value.NullValue? ==> r == Ok("SET  " + ParameterName(f) + " = NULL")
    ensures f.kind.ParameterField? && !f.value.NullValue? ==>
      (r.Ok? <==> ValueSql(f, culture).Ok?)
      && (r.Ok? ==> r.value == "SET " + ParameterName(f) + " = "
                              + (if GetQuotable(f.kind.paramType) == "'" then "N'" else "")
                              + ValueSql(f, culture).value + GetQuotable(f.kind.paramType))
  {
    match f.kind
    case TableParameterField(pn, _) => Ok("SELECT  * FROM " + pn)
    case ParameterField(pn, _, dt) =>
      if f.value.NullValue? then Ok("SET  " + pn + " = NULL")
      else
        var q := GetQuotable(dt);
        var v :- ValueSql(f, culture);
        Ok("SET " + pn + " = " + (if q == "'" then "N'" else "") + v + q)
  }

  /** A parameter holding a text value is assigned a Unicode literal, which
      reads back as the value: `SET @p = N'<text with quotes doubled>'`. */
  lemma {:induction false} SetTextParameter(f: Field, culture: Culture, s: string)
    requires f.kind.ParameterField? && f.kind.paramType == Some(StringType) && f.value == StringValue(s)
    requires !NonEmpty(f.alias)
    ensures var r := SetParameter(f, culture);
            r.Ok? && exists body :: r.value == "SET " + ParameterName(f) + " = N'" + body + "'" && UndoubleQuotes(body) == s
  {
    var body := GetFieldValue(StringType, f.value, culture).value.value;
    assert ValueSql(f, culture) == Ok(body);
    QuotableTypes(StringType);
    assert SetParameter(f, culture).value == "SET " + ParameterName(f) + " = N'" + body + "'";
  }

  // ---------------------------------------------------------------------------
  // Conditions and condition groups

  /** The link in front of a condition: nothing for the first one, otherwise
      ` AND ` or ` OR `. */
  function LinkPrefix(link: BoolOperator): (r: string)
    ensures r == "" <==> link == NoLink
    ensures link != NoLink ==> r == " " + LinkWord(link) + " "
  {
    if link != NoLink then " " + LinkWord(link) + " " else ""
  }

  /** The comparison operators written with a plain (optionally `N`-prefixed)
      literal on the right. */
  predicate IsComparison(op: SqlOperator) {
    op == Equal || op == NotEqual || op == GreaterThan || op == GreaterThanEqual
    || op == LessThan || op == LessThanEqual
  }

  /** The right-hand side of a comparison with the value the left field holds:
      a quoted literal for comparisons and a `LIKE` pattern with `%` wildcards
      for the pattern operators. */
  function ValueOperand(op: SqlOperator, q: string, v: string): (r: string)
    requires !op.IsNull? && !op.IsNotNull? && !op.In? && !op.NotIn?
    ensures IsComparison(op) && q == "'" ==> r == "N'" + v + "'"
    ensures IsComparison(op) && q == "" ==> r == v
    ensures op == SqlTypes.StartsWith ==> r == "'" + v + "%'"
    ensures op == EndsWith ==> r == "'%" + v + "'"
    ensures op == Contains ==> r == "'%" + v + "%'"
  {
    match op
    case StartsWith => "'" + v + "%'"
    case EndsWith => "'%" + v + "'"
    case Contains => "'%" + v + "%'"
    case _ => (if q == "'" then "N'" else "") + v + q
  }

  /** `FieldCondition.ToSql` without its link: `<left> IS [NOT] NULL`,
      `<left> [NOT] IN (<list>)`, `<left> <op> <right field>`, or the left
      field compared with the value it holds (the left field must then be a
      value field, and its quote is taken first). */
  function ConditionBody(a: Arena, c: Condition, culture: Culture): (r: Result<string>)
    requires Valid(a) && c.left < |a.fields| && OptIn(c.right, |a.fields|)
    ensures r.Ok? ==> (DeclarationName(a, a.fields[c.left]).Ok?
      && Text.StartsWith(r.value, DeclarationName(a, a.fields[c.left]).value + " " + OperatorText(c.op) + " "))
    ensures a.fields[c.left].table.None? ==> r.Err?
    ensures c.op.IsNull? || c.op.IsNotNull? ==>
      r.Ok? ==> r.value == DeclarationName(a, a.fields[c.left]).value + " " + OperatorText(c.op) + " NULL"
    ensures c.right.Some? && !(c.op.IsNull? || c.op.IsNotNull? || c.op.In? || c.op.NotIn?) ==>
      (r.Ok? <==> DeclarationName(a, a.fields[c.left]).Ok? && FieldReferenceName(a, a.fields[c.right.value]).Ok?)
      && (r.Ok? ==> r.value == DeclarationName(a, a.fields[c.left]).value + " " + OperatorText(c.op) + " "
                              + FieldReferenceName(a, a.fields[c.right.value]).value)
    ensures (c.right.None? && !(c.op.IsNull? || c.op.IsNotNull? || c.op.In? || c.op.NotIn?)
             && a.fields[c.left].kind.ColumnField?) ==> r == Err(InvalidCast)
  {
    var left := a.fields[c.left];
    var head := OperatorText(c.op);
    if c.op.IsNull? || c.op.IsNotNull? then
      var decl :- DeclarationName(a, left);
      Ok(Prefixed(decl + " " + head + " ", "NULL"))
    else if c.op.In? || c.op.NotIn? then
      var decl :- DeclarationName(a, left);
      var v :- FieldSql(a, left, culture, |a.tables|);
      Ok(Prefixed(decl + " " + head + " ", "(" + v + ")"))
    else if c.right.None? then
      var q :- Quotable(left);
      var decl :- DeclarationName(a, left);
      var v :- FieldSql(a, left, culture, |a.tables|);
      Ok(Prefixed(decl + " " + head + " ", ValueOperand(c.op, q, v)))
    else
      var decl :- DeclarationName(a, left);
      var rn :- FieldReferenceName(a, a.fields[c.right.value]);
      Ok(Prefixed(decl + " " + head + " ", rn))
  }

  function Prefixed(head: string, tail: string): (r: string)
    ensures r == head + tail && Text.StartsWith(r, head)
  {
    assert (head + tail)[..|head|] == head;
    head + tail
  }

  /** `FieldCondition.ToSql`: the link, then the condition. */
  function ConditionSql(a: Arena, c: Condition, culture: Culture): (r: Result<string>)
    requires Valid(a) && c.left < |a.fields| && OptIn(c.right, |a.fields|)
    ensures r.Ok? <==> ConditionBody(a, c, culture).Ok?
    ensures r.Ok? ==> r.value == LinkPrefix(c.link) + ConditionBody(a, c, culture).value && r.value != ""
  {
    var body :- ConditionBody(a, c, culture);
    Ok(LinkPrefix(c.link) + body)
  }

  /** A condition comparing a text column with a string value writes the value
      as a Unicode literal that reads back as exactly that string, whatever
      quotes it contains. */
  lemma {:induction false} TextComparisonReadsBack(a: Arena, c: Condition, culture: Culture, s: string)
    requires Valid(a) && c.left < |a.fields| && c.right.None? && IsComparison(c.op)
    requires a.fields[c.left].kind == ValueField(Some(StringType)) && a.fields[c.left].value == StringValue(s)
    requires a.fields[c.left].table.Some? && !NonEmpty(a.fields[c.left].alias)
    ensures ConditionBody(a, c, culture).Ok?
    ensures exists body :: (UndoubleQuotes(body) == s
      && ConditionBody(a, c, culture).value
         == DeclarationName(a, a.fields[c.left]).value + " " + OperatorText(c.op) + " " + ("N'" + body + "'"))
  {
    var f := a.fields[c.left];
    var body := GetFieldValue(StringType, f.value, culture).value.value;
    assert UndoubleQuotes(body) == s;
    assert ValueSql(f, culture) == Ok(body);
    assert FieldSql(a, f, culture, |a.tables|) == Ok(body);
    QuotableTypes(StringType);
    assert Quotable(f) == Ok("'");
    var decl := DeclarationName(a, f).value;
    assert ConditionBody(a, c, culture) == Ok(Prefixed(decl + " " + OperatorText(c.op) + " ", ValueOperand(c.op, "'", body)));
  }

  /** The conditions of a group, concatenated (each carries its own link). */
  function ConditionsSql(a: Arena, cs: seq<Condition>, culture: Culture): (r: Result<string>)
    requires Valid(a) && ConditionsOk(SizesOf(a), cs)
    ensures r.Ok? ==> (r.value == "" <==> |cs| == 0)
    ensures r.Ok? <==> forall i :: 0 <= i < |cs| ==> ConditionSql(a, cs[i], culture).Ok?
  {
    if |cs| == 0 then Ok("")
    else
      var first :- ConditionSql(a, cs[0], culture);
      var rest := ConditionsSql(a, cs[1..], culture);
      assert forall i :: 1 <= i < |cs| ==> cs[i] == cs[1..][i - 1];
      if rest.Err? then Err(rest.error) else Ok(first + rest.value)
  }

  /** `ConditionGroup.ToSql`, and the EXISTS override: an EXISTS group writes
      its link in front and its own body without a link, inside
      `[NOT ]EXISTS(SELECT 1 FROM <alias> WHERE ...)`. */
  function GroupSql(a: Arena, g: GroupId, culture: Culture): (r: Result<string>)
    requires Valid(a) && g < |a.groups|
    ensures !a.groups[g].kind.ExistsGroup? ==> r == GroupBody(a, g, a.groups[g].link, culture)
    ensures a.groups[g].kind.ExistsGroup? ==> (r.Ok? <==> GroupBody(a, g, NoLink, culture).Ok?)
    ensures a.groups[g].kind.ExistsGroup? && r.Ok? ==>
      r.value == LinkPrefix(a.groups[g].link) + (if a.groups[g].kind.negated then "NOT " else "")
                 + "EXISTS(SELECT 1 FROM " + Alias(a.tables[a.groups[g].kind.inTable]) + " WHERE "
                 + GroupBody(a, g, NoLink, culture).value + ")"
    decreases |a.groups| - g, 2
  {
    match a.groups[g].kind
    case ExistsGroup(inTable, _, negated) =>
      var body :- GroupBody(a, g, NoLink, culture);
      Ok(LinkPrefix(a.groups[g].link) + (if negated then "NOT " else "")
         + "EXISTS(SELECT 1 FROM " + Alias(a.tables[inTable]) + " WHERE " + body + ")")
    case _ => GroupBody(a, g, a.groups[g].link, culture)
  }

  /** The body of a group written with `link`: nothing when the group is
      empty, otherwise its conditions and then its sub-groups between
      parentheses, the opening one preceded by the link. */
  function GroupBody(a: Arena, g: GroupId, link: BoolOperator, culture: Culture): (r: Result<string>)
    requires Valid(a) && g < |a.groups|
    ensures r.Ok? ==> (r.value == "" <==> |a.groups[g].conditions| == 0 && |a.groups[g].subGroups| == 0)
    ensures r.Ok? && link == NoLink ==>
      (r.value == "()" <==> |a.groups[g].conditions| == 0 && |a.groups[g].subGroups| > 0
                            && SubGroupsSql(a, g, a.groups[g].subGroups, culture) == Ok(""))
    decreases |a.groups| - g, 1
  {
    var grp := a.groups[g];
    if |grp.conditions| == 0 && |grp.subGroups| == 0 then Ok("")
    else
      var open := if link != NoLink then " " + LinkWord(link) + " (" else "(";
      var cs :- ConditionsSql(a, grp.conditions, culture);
      var subs :- SubGroupsSql(a, g, grp.subGroups, culture);
      Ok(Parenthesised(open, cs + subs))
  }

  function Parenthesised(open: string, inner: string): (r: string)
    ensures r == open + inner + ")" && r != ""
    ensures open == "(" ==> (r == "()" <==> inner == "")
  {
    open + inner + ")"
  }

  /** The sub-groups of group `g` (those listed in `ids`), concatenated. */
  function SubGroupsSql(a: Arena, g: GroupId, ids: seq<GroupId>, culture: Culture): (r: Result<string>)
    requires Valid(a) && g < |a.groups|
    requires forall i :: 0 <= i < |ids| ==> g < ids[i] < |a.groups|
    ensures r.Ok? ==> (r.value == "" <==> forall i :: 0 <= i < |ids| ==> GroupSql(a, ids[i], culture) == Ok(""))
    decreases |a.groups| - g, 0, |ids|
  {
    if |ids| == 0 then Ok("")
    else
      var first :- GroupSql(a, ids[0], culture);
      var rest :- SubGroupsSql(a, g, ids[1..], culture);
      assert forall i :: 1 <= i < |ids| ==> ids[i] == ids[1..][i - 1];
      Ok(first + rest)
  }

  // ---------------------------------------------------------------------------
  // Joins and ORDER BY

  /** `Join.ToSql`: the join phrase and the joined table, followed for every
      join but a cross join by `ON` and its condition group. */
  function JoinSql(a: Arena, j: JoinId, culture: Culture): (r: Result<string>)
    requires Valid(a) && j < |a.joins|
    ensures r.Ok? ==> Text.StartsWith(r.value, JoinClause(a.joins[j].kind) + " " + ReferenceName(a.tables[a.joins[j].to]))
    ensures a.joins[j].kind == Cross ==> r == Ok(JoinClause(Cross) + " " + ReferenceName(a.tables[a.joins[j].to]))
    ensures a.joins[j].kind != Cross ==>
      (r.Ok? <==> GroupSql(a, a.joins[j].conditions, culture).Ok?)
      && (r.Ok? ==> r.value == JoinClause(a.joins[j].kind) + " " + ReferenceName(a.tables[a.joins[j].to])
                              + " ON " + GroupSql(a, a.joins[j].conditions, culture).value)
  {
    var jn := a.joins[j];
    var head := JoinClause(jn.kind) + " " + ReferenceName(a.tables[jn.to]);
    if jn.kind != Cross then
      var on :- GroupSql(a, jn.conditions, culture);
      Ok(Prefixed(head, " ON " + on))
    else
      assert head[..|head|] == head;
      Ok(head)
  }

  /** `OrderBy.ToSql`: the field's declaration name and the direction. */
  function OrderBySql(a: Arena, o: OrderBy): (r: Result<string>)
    requires o.field < |a.fields| && FieldOk(SizesOf(a), a.fields[o.field])
    ensures r.Err? <==> a.fields[o.field].table.None?
    ensures r.Ok? ==> r.value == DeclarationName(a, a.fields[o.field]).value + " " + DirectionWord(o.direction)
  {
    var f := a.fields[o.field];
    match f.table
    case None => Err(NullReference)
    case Some(t) => Ok(Alias(a.tables[t]) + ".[" + f.name + "] " + DirectionWord(o.direction))
  }

  function OrderByItems(a: Arena, items: seq<OrderBy>): (r: Result<seq<string>>)
    requires Valid(a) && OrderByOk(SizesOf(a), items)
    ensures r.Ok? <==> forall i :: 0 <= i < |items| ==> OrderBySql(a, items[i]).Ok?
    ensures r.Ok? ==> (|r.value| == |items|
      && forall i :: 0 <= i < |items| ==> r.value[i] == OrderBySql(a, items[i]).value)
  {
    if |items| == 0 then Ok([])
    else
      var first :- OrderBySql(a, items[0]);
      var rest := OrderByItems(a, items[1..]);
      assert forall i :: 1 <= i < |items| ==> items[i] == items[1..][i - 1];
      if rest.Err? then Err(rest.error) else Ok([first] + rest.value)
  }

  /** The ORDER BY clause of a SELECT: nothing without sort items, otherwise
      ` ORDER  BY ` and the items separated by commas, then a line break. */
  function OrderByClause(a: Arena, items: seq<OrderBy>): (r: Result<string>)
    requires Valid(a) && OrderByOk(SizesOf(a), items)
    ensures |items| == 0 ==> r == Ok("")
    ensures r.Ok? <==> OrderByItems(a, items).Ok?
    ensures r.Ok? && |items| > 0 ==>
      r.value == " ORDER  BY " + JoinWith(", ", OrderByItems(a, items).value) + "\r\n"
  {
    if |items| == 0 then Ok("")
    else
      var texts :- OrderByItems(a, items);
      Ok(" ORDER  BY " + JoinWith(", ", texts) + "\r\n")
  }
}
