/** How values become SQL text: the quote a type needs, the literal text of a
    value (`Field.GetFieldValue`) and the declared SQL type of a parameter
    (`Field.GetSqlDataType`). */
module Literals {
  import opened Outcomes
  import opened Text
  import opened SqlTypes
  import opened Values

  /** `Field.GetQuotable`: the types whose literals are written between single
      quotes. A missing type needs no quote. */
  function GetQuotable(dataType: Option<ClrType>): (r: string)
    ensures r == "'" || r == ""
  {
    if dataType.Some? && dataType.value in {XmlType, GuidType, StringType, DateTimeType, DateTimeOffsetType}
    then "'" else ""
  }

  /** Exactly the XML, GUID, string and date types are quoted. */
  lemma QuotableTypes(t: ClrType)
    ensures GetQuotable(Some(t)) == "'" <==>
      (t == XmlType || t == GuidType || t == StringType || t == DateTimeType || t == DateTimeOffsetType)
    ensures GetQuotable(None) == ""
  {
  }

  /** One list item, wrapped in the quote chosen for the whole list. */
  function ListItems(items: seq<Value>, q: string, culture: Culture): (r: seq<string>)
    ensures |r| == |items|
    ensures forall i :: 0 <= i < |items| ==> r[i] == q + DisplayText(items[i], culture) + q
  {
    seq(|items|, i requires 0 <= i < |items| => q + DisplayText(items[i], culture) + q)
  }

  /** `Field.GetFieldValue`: the literal text of a value interpreted as
      `dataType`; `None` stands for the null the library returns for a null
      string, which renders as `NULL`. The branches are tried in the library's
      order; dates, doubles and decimals are culture-formatted, and a boolean
      column converts its value as `Convert.ToBoolean` does. */
  function GetFieldValue(dataType: ClrType, v: Value, culture: Culture): (r: Result<Option<string>>)
    ensures dataType == StringType && v.NullValue? ==> r == Ok(None)
    ensures r.Ok? && r.value.None? ==> dataType == StringType && v.NullValue?
    ensures dataType == ByteArrayType && v.BytesValue? ==>
      r.Ok? && r.value.Some? && |r.value.value| == 2 + 2 * |v.bytes|
      && r.value.value[..2] == "0x" && HexDecode(r.value.value[2..]) == v.bytes
    ensures dataType == BoolType && v.BoolValue? ==> r == Ok(Some(if v.b then "1" else "0"))
    ensures dataType == BoolType && v.IntegerValue? ==> r == Ok(Some(if v.i == 0 then "0" else "1"))
    ensures dataType == BoolType && v.StringValue? ==>
      (r.Ok? <==> (EqualsIgnoreCase(TrimSpaceAndNull(v.s), "true") || EqualsIgnoreCase(TrimSpaceAndNull(v.s), "false")))
    ensures dataType == BoolType && r.Ok? && r.value.Some? && !v.NullValue? ==> (r.value.value == "1" <==> ToBoolean(v) == Ok(true))
    ensures dataType == BoolType && (v.DateTimeValue? || v.GuidValue? || v.BytesValue? || v.ListValue?) ==> r == Err(InvalidCast)
    ensures dataType == StringType && v.StringValue? ==>
      r.Ok? && r.value.Some? && UndoubleQuotes(r.value.value) == v.s
    ensures dataType == XmlType && v.XmlValue? ==>
      r.Ok? && r.value.Some? && UndoubleQuotes(r.value.value) == v.outerXml
    ensures dataType == ListType && v.ListValue? && |v.items| == 0 ==> r == Err(IndexOutOfRange)
    ensures (dataType == DateTimeType || dataType == DateTimeOffsetType || dataType == ListType) && v.NullValue?
      ==> r == Err(NullReference)
  {
    if dataType == StringType && v.NullValue? then Ok(None)
    else if dataType == ByteArrayType then
      match v
      case NullValue => Ok(Some(""))
      case BytesValue(bytes) =>
        HexRoundTrip(bytes);
        Ok(Some("0x" + HexOf(bytes)))
      case _ => Err(InvalidCast)
    else if dataType == XmlType then
      match v
      case NullValue => Ok(Some(""))
      case XmlValue(x) =>
        DoubleQuotesRoundTrip(x);
        Ok(Some(DoubleQuotes(x)))
      case _ => Err(InvalidCast)
    else if dataType == DateTimeType || dataType == DateTimeOffsetType then
      if v.NullValue? then Err(NullReference)
      else match culture.format(dataType, v)
        case None => Err(FormatError)
        case Some(s) => Ok(Some(s))
    else if dataType == ListType then
      match v
      case NullValue => Err(NullReference)
      case ListValue(items) =>
        if |items| == 0 then Err(IndexOutOfRange)
        else if items[0].NullValue? then Err(NullReference)
        else Ok(Some(JoinWith(",", ListItems(items, GetQuotable(TypeOf(items[0])), culture))))
      case _ => Err(InvalidCast)
    else if dataType == BoolType then
      match v
      case NullValue => Ok(Some(""))
      case _ =>
        match ToBoolean(v)
        case Ok(b) => Ok(Some(if b then "1" else "0"))
        case Err(e) => Err(e)
    else if dataType == DoubleType || dataType == DecimalType then
      match culture.format(dataType, v)
      case None => Err(FormatError)
      case Some(s) => Ok(Some(s))
    else if v.NullValue? then Ok(Some(""))
    else
      DoubleQuotesRoundTrip(DisplayText(v, culture));
      Ok(Some(DoubleQuotes(DisplayText(v, culture))))
  }

  // ---------------------------------------------------------------------------
  // Declared SQL types

  predicate IsVariableText(t: SqlDbType) {
    t == NVarChar || t == VarChar || t == Text || t == NText
  }

  predicate IsFixedText(t: SqlDbType) {
    t == Char || t == NChar
  }

  predicate IsDateData(t: SqlDbType) {
    t == DateTime || t == DateTime2 || t == DateTimeOffset
  }

  /** `Field.GetSqlDataType`: the type name followed by its size: `(MAX)` or
      `(n)` for variable text, `(n)` for fixed text with a positive length, the
      byte count of the current value for `VarBinary`, and `(p)` or `(p, s)`
      for other non-date types with a positive precision. */
  function GetSqlDataType(t: SqlDbType, maxLength: int, precision: int, scale: int, v: Value): (r: Result<string>)
    ensures r.Ok? ==> |SqlDbTypeName(t)| <= |r.value| && r.value[..|SqlDbTypeName(t)|] == SqlDbTypeName(t)
    ensures IsVariableText(t) ==> r.Ok? && (maxLength <= 0 <==> r.value == SqlDbTypeName(t) + "(MAX)")
    ensures IsFixedText(t) ==> r.Ok? && (maxLength <= 0 <==> r.value == SqlDbTypeName(t))
    ensures IsDateData(t) ==> r == Ok(SqlDbTypeName(t))
    ensures t == VarBinary ==> (r.Err? <==> !(v.NullValue? || v.BytesValue?))
  {
    var name := SqlDbTypeName(t);
    if IsVariableText(t) then
      if maxLength <= 0 then Ok(name + "(MAX)")
      else
        var sized := name + "(" + IntToString(maxLength) + ")";
        assert sized[|name| + 1] == IntToString(maxLength)[0];
        assert (name + "(MAX)")[|name| + 1] == 'M';
        Ok(sized)
    else if IsFixedText(t) then
      if maxLength > 0 then Ok(name + "(" + IntToString(maxLength) + ")") else Ok(name)
    else if t == VarBinary then
      match v
      case NullValue => Ok(name)
      case BytesValue(bytes) => Ok(name + "(" + IntToString(|bytes|) + ")")
      case _ => Err(InvalidCast)
    else if precision > 0 && !IsDateData(t) then
      Ok(name + "(" + IntToString(precision) + (if scale >= 0 then ", " + IntToString(scale) else "") + ")")
    else Ok(name)
  }

  /** The declared size of a text column can be read back from the declaration:
      the digits between the parentheses are the column's length. */
  lemma {:induction false} DeclaredLengthRoundTrip(t: SqlDbType, maxLength: int, precision: int, scale: int, v: Value)
    requires IsVariableText(t) || IsFixedText(t)
    requires maxLength > 0
    ensures var r := GetSqlDataType(t, maxLength, precision, scale, v).value;
            var n := |SqlDbTypeName(t)|;
            |r| >= n + 3 && r[n] == '(' && r[|r| - 1] == ')'
            && (forall i :: n < i < |r| - 1 ==> '0' <= r[i] <= '9')
            && DigitsValue(r[n + 1..|r| - 1]) == maxLength
  {
    var digits := NatToString(maxLength);
    assert GetSqlDataType(t, maxLength, precision, scale, v) == Ok(SqlDbTypeName(t) + "(" + digits + ")");
    var r := GetSqlDataType(t, maxLength, precision, scale, v).value;
    var n := |SqlDbTypeName(t)|;
    assert r[n + 1..|r| - 1] == digits;
    NatToStringRoundTrip(maxLength);
  }
}
