/** Runtime values: what a field, a parameter or a row column holds, the row
    record the result reader produces, and the culture hooks for the
    conversions whose output depends on the current culture. */
module Values {
  import opened Outcomes
  import opened Text
  import opened SqlTypes
  import opened Metadata

  /** A CLR value as the library sees it. Decimal and double values are kept as
      exact reals; dates as ticks. `TableValue` is a nested result table: the
      rows of a child query attached to a parent row. */
  datatype Value =
    | NullValue
    | StringValue(s: string)
    | IntegerValue(i: int)
    | DecimalValue(d: real)
    | DoubleValue(x: real)
    | BoolValue(b: bool)
    | DateTimeValue(ticks: int)
    | DateTimeOffsetValue(ticks: int, offsetMinutes: int)
    | GuidValue(text: string)
    | BytesValue(bytes: seq<byte>)
    | XmlValue(outerXml: string)
    | ListValue(items: seq<Value>)
    | TableValue(rows: seq<RowData>)

  /** The primary-key columns a row remembers from the metadata of its table,
      together with that table (the columns' `Parent`). */
  datatype PkCache = PkCache(owner: MetadataTable, columns: seq<MetadataColumn>)

  /** `RowData`: the values read from the database (`values`), an overlay of
      pending changes (`changes`), the column names of the source row in order,
      and the table name and primary-key columns recorded from metadata (the
      entries the library keeps under the reserved keys `__TABLE` and `__PK`). */
  datatype RowData = RowData(
    values: map<string, Value>,
    changes: map<string, Value>,
    columns: seq<string>,
    table: Option<string>,
    pkCache: Option<PkCache>)

  /** Culture-dependent conversions, supplied from outside:
      `format` renders dates (sortable "s" format),
      doubles and decimals, `None` when the conversion throws;
      `display` is `string.Format("{0}", v)` for values the model does not spell out;
      `parseDecimal` is `decimal.TryParse`. */
  datatype Culture = Culture(
    lcid: int,
    format: (ClrType, Value) -> Option<string>,
    display: Value -> string,
    parseDecimal: string -> Option<real>)

  /** `value.GetType()`, with `None` for a null value (where the call throws). */
  function TypeOf(v: Value): (r: Option<ClrType>)
    ensures r.None? <==> v.NullValue?
  {
    match v
    case NullValue => None
    case StringValue(_) => Some(StringType)
    case IntegerValue(_) => Some(IntegerType)
    case DecimalValue(_) => Some(DecimalType)
    case DoubleValue(_) => Some(DoubleType)
    case BoolValue(_) => Some(BoolType)
    case DateTimeValue(_) => Some(DateTimeType)
    case DateTimeOffsetValue(_, _) => Some(DateTimeOffsetType)
    case GuidValue(_) => Some(GuidType)
    case BytesValue(_) => Some(ByteArrayType)
    case XmlValue(_) => Some(XmlType)
    case ListValue(_) => Some(ListType)
    case TableValue(_) => Some(OtherType)
  }

  /** `string.Format("{0}", v)` / `v.ToString()`: spelled out for strings,
      integers, booleans and GUIDs, left to the culture for the rest. */
  function DisplayText(v: Value, culture: Culture): string {
    match v
    case NullValue => ""
    case StringValue(s) => s
    case IntegerValue(i) => IntToString(i)
    case BoolValue(b) => if b then "True" else "False"
    case GuidValue(g) => g
    case _ => culture.display(v)
  }

  /** `bool.Parse`: "true" or "false" in any letter case, once white space and
      null characters are trimmed from both ends; anything else is rejected. */
  function ParseBool(s: string): (r: Result<bool>)
    ensures r.Err? ==> r.error == FormatError
  {
    var t := TrimSpaceAndNull(s);
    if EqualsIgnoreCase(t, "true") then Ok(true)
    else if EqualsIgnoreCase(t, "false") then Ok(false)
    else Err(FormatError)
  }

  /** `Convert.ToBoolean(object)` on a non-null value: booleans as they are,
      numbers by comparison with zero, strings through `bool.Parse`; every
      other type (dates, GUIDs, byte arrays, XML, lists) is not convertible. */
  function ToBoolean(v: Value): (r: Result<bool>)
    ensures v.BoolValue? ==> r == Ok(v.b)
    ensures v.IntegerValue? ==> r == Ok(v.i != 0)
    ensures v.DecimalValue? ==> r == Ok(v.d != 0.0)
    ensures v.DoubleValue? ==> r == Ok(v.x != 0.0)
    ensures r.Err? && r.error == FormatError ==> v.StringValue?
    ensures r.Err? && !v.StringValue? ==> r.error == InvalidCast
  {
    match v
    case BoolValue(b) => Ok(b)
    case IntegerValue(i) => Ok(i != 0)
    case DecimalValue(d) => Ok(d != 0.0)
    case DoubleValue(x) => Ok(x != 0.0)
    case StringValue(s) => ParseBool(s)
    case _ => Err(InvalidCast)
  }

  /** `bool.Parse` accepts "true" and "false" in any letter case and with any
      white-space padding, and reads back what the library displays for a
      boolean. */
  lemma {:induction false} ParseBoolPadded(pre: string, word: string, post: string, b: bool)
    requires forall i :: 0 <= i < |pre| ==> IsSpaceOrNull(pre[i])
    requires forall i :: 0 <= i < |post| ==> IsSpaceOrNull(post[i])
    requires EqualsIgnoreCase(word, if b then "true" else "false")
    ensures ParseBool(pre + word + post) == Ok(b)
  {
    assert |Fold(word)| == |word|;
    assert Lower(word[0]) == Fold(word)[0];
    assert Lower(word[|word| - 1]) == Fold(word)[|word| - 1];
    TrimSpaceAndNullPadding(pre, word, post);
    if b {
      assert Fold(word) == "true";
    } else {
      assert Fold(word) == "false";
      assert Fold(word) != Fold("true");
    }
  }

  /** Converting the display text of a boolean gives the boolean back. */
  lemma DisplayedBoolRoundTrip(b: bool, culture: Culture)
    ensures ToBoolean(StringValue(DisplayText(BoolValue(b), culture))) == Ok(b)
  {
    var w: string := if b then "True" else "False";
    assert DisplayText(BoolValue(b), culture) == w;
    var f := Fold(w);
    if b {
      assert f[0] == 't' && f[1] == 'r' && f[2] == 'u' && f[3] == 'e';
      assert f == Fold("true");
    } else {
      assert f[0] == 'f' && f[1] == 'a' && f[2] == 'l' && f[3] == 's' && f[4] == 'e';
      assert f == Fold("false");
    }
    ParseBoolPadded("", w, "", b);
    assert "" + w + "" == w;
  }
}
