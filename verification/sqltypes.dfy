/** The enumerations of the statement model and their fixed SQL spellings:
    comparison operators, condition links, join kinds, statement kinds, branch
    kinds, sort directions, the SQL Server column types and the CLR types the
    literal encoder distinguishes. */
module SqlTypes {

  /** The comparison operators of a field condition. */
  datatype SqlOperator =
    | IsNull | IsNotNull
    | Equal | NotEqual | GreaterThan | GreaterThanEqual | LessThan | LessThanEqual
    | StartsWith | EndsWith | Contains
    | In | NotIn

  /** How a condition or group is linked to what precedes it. */
  datatype BoolOperator = AndLink | OrLink | NoLink

  datatype JoinType = Inner | LeftOuter | RightOuter | Cross

  /** `SqlBuilder.StatementTypes`; `NoStatement` is the enum's default value 0,
      which a builder has until a statement kind is assigned. */
  datatype StatementType =
    | NoStatement | SelectStatement | InsertStatement | UpdateStatement
    | DeleteStatement | IfStatementKind | ProcedureStatement

  datatype BranchStatement = IfBranch | ElseIfBranch | ElseBranch

  datatype OrderDirection = Asc | Desc

  /** `System.Data.SqlDbType`; `BigInt` is the enum's default value. */
  datatype SqlDbType =
    | BigInt | Binary | Bit | Char | DateTime | Decimal | Float | Image | Int | Money
    | NChar | NText | NVarChar | Real | UniqueIdentifier | SmallDateTime | SmallInt
    | SmallMoney | Text | Timestamp | TinyInt | VarBinary | VarChar | Variant | Xml
    | Udt | Structured | Date | Time | DateTime2 | DateTimeOffset

  /** The CLR types the literal encoder tells apart; a nullable value type
      behaves exactly like its underlying type there, so it is not separated. */
  datatype ClrType =
    | StringType | GuidType | DateTimeType | DateTimeOffsetType | BoolType
    | DoubleType | DecimalType | IntegerType | ByteArrayType | XmlType | ListType
    | OtherType

  // ---------------------------------------------------------------------------
  // Fixed spellings

  /** `FieldCondition.GetOperator`: the SQL operator written for a comparison. */
  function OperatorText(op: SqlOperator): string {
    match op
    case IsNull => "IS"
    case IsNotNull => "IS NOT"
    case Equal => "="
    case NotEqual => "!="
    case GreaterThan => ">"
    case GreaterThanEqual => ">="
    case LessThan => "<"
    case LessThanEqual => "<="
    case StartsWith => "LIKE"
    case EndsWith => "LIKE"
    case Contains => "LIKE"
    case In => "IN"
    case NotIn => "NOT IN"
  }

  predicate IsPatternOperator(op: SqlOperator) {
    op == StartsWith || op == EndsWith || op == Contains
  }

  /** Every operator has a non-empty spelling, and two operators share a
      spelling exactly when both are pattern operators (which all render LIKE). */
  lemma OperatorTextTable(a: SqlOperator, b: SqlOperator)
    ensures OperatorText(a) != ""
    ensures OperatorText(a) == OperatorText(b) <==> (a == b || (IsPatternOperator(a) && IsPatternOperator(b)))
    ensures IsPatternOperator(a) <==> OperatorText(a) == "LIKE"
  {
  }

  /** `Join.JoinClause`: the keyword phrase of a join. */
  function JoinClause(kind: JoinType): (r: string)
    ensures |r| > 5 && r[|r| - 5..] == " JOIN"
  {
    match kind
    case Inner => "INNER JOIN"
    case LeftOuter => "LEFT OUTER JOIN"
    case RightOuter => "RIGHT OUTER JOIN"
    case Cross => "CROSS JOIN"
  }

  /** Distinct join kinds are written differently. */
  lemma JoinClauseInjective(a: JoinType, b: JoinType)
    ensures JoinClause(a) == JoinClause(b) <==> a == b
  {
  }

  /** The upper-cased enum name used by condition prefixes and ORDER BY. */
  function LinkWord(link: BoolOperator): string {
    match link
    case AndLink => "AND"
    case OrLink => "OR"
    case NoLink => "NONE"
  }

  function DirectionWord(d: OrderDirection): string {
    match d
    case Asc => "ASC"
    case Desc => "DESC"
  }

  /** `SqlDbType.ToString()`. */
  function SqlDbTypeName(t: SqlDbType): string {
    match t
    case BigInt => "BigInt"
    case Binary => "Binary"
    case Bit => "Bit"
    case Char => "Char"
    case DateTime => "DateTime"
    case Decimal => "Decimal"
    case Float => "Float"
    case Image => "Image"
    case Int => "Int"
    case Money => "Money"
    case NChar => "NChar"
    case NText => "NText"
    case NVarChar => "NVarChar"
    case Real => "Real"
    case UniqueIdentifier => "UniqueIdentifier"
    case SmallDateTime => "SmallDateTime"
    case SmallInt => "SmallInt"
    case SmallMoney => "SmallMoney"
    case Text => "Text"
    case Timestamp => "Timestamp"
    case TinyInt => "TinyInt"
    case VarBinary => "VarBinary"
    case VarChar => "VarChar"
    case Variant => "Variant"
    case Xml => "Xml"
    case Udt => "Udt"
    case Structured => "Structured"
    case Date => "Date"
    case Time => "Time"
    case DateTime2 => "DateTime2"
    case DateTimeOffset => "DateTimeOffset"
  }

  /** No type name contains a parenthesis, so a size suffix is always separable. */
  lemma SqlDbTypeNameHasNoParenthesis(t: SqlDbType)
    ensures |SqlDbTypeName(t)| > 0 && '(' !in SqlDbTypeName(t)
  {
  }
}
