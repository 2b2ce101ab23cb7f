# TinySql core in Dafny

TinySql is a fluent T-SQL builder for .NET. A caller assembles a query model
in memory: builders, tables, fields, condition groups and joins. Metadata
(tables, columns, keys and foreign keys read from the database catalogue)
fills in types and infers joins. `ToSql()` turns the model into SQL Server
text. Results come back as `RowData` rows. A row tracks its changes and can
be turned back into an `UPDATE`. A `ResultTable` nests the result sets of
sub-queries under the rows of their parent.

This project models that core as pure functions over immutable data.

- **Arena.** The cyclic object graph (field → table → builder → parent
  builder, group → builder) becomes one arena of records addressed by
  integer ids (`QueryModel`). `Valid` keeps every id in range.
- **Construction.** Operations that build the model (`Lookup`, `Conditions`,
  `Statements`, `Resolver`) map an arena to a new arena or to an error.
- **Rendering.** The text functions (`SqlText`, `Compiler`) map an arena to a
  string or to an error.
- **Errors.** Every exception the library can raise on a path is an `Error`
  value: `NullReference`, `InvalidCast`, `InvalidOperation`, `ArgumentError`,
  `IndexOutOfRange`. An endless loop over a cyclic parent chain or sub-query
  map is `Diverges`; fuel equal to the number of builders detects it.
- **Unordered dictionaries.** A `ConcurrentDictionary` has no fixed
  enumeration order: declarations, sub-queries, catalogue columns, indexes
  and changed values. Each is a `map`, and `Collections.Enumerate` stands for
  some fixed order of a key set. Members that depend on that order are
  ghost.
- **Rows.** A row (`Rows`) is a map of values read plus an overlay of pending
  changes.
- **Row updates.** `RowUpdates` builds the UPDATE statements of
  `ResultExtensions`.
- **Result tables.** `Assembler` models how `ResultTable` attaches child
  result sets to parent rows. The result sets themselves are a parameter.

Modules, in dependency order:

| Module | Models |
|---|---|
| Outcomes, Collections, Text | Shared pieces: `Result`/`Option`, dictionary order, string helpers, hexadecimal and quote doubling. |
| SqlTypes, Values, Literals | Operators, join kinds, SQL types and literal encoding. |
| Metadata | The catalogue. |
| QueryModel | The arena and naming. |
| SqlText | Rendering of fields, conditions, groups and joins. |
| Lookup, Conditions, Statements | Construction. |
| Compiler | Statement assembly and hoisting of declarations. |
| Resolver | Joins inferred from foreign keys. |
| Rows, RowUpdates | Change tracking and UPDATE generation. |
| Assembler | Nesting of sub-query results. |

## Model

| member | source | states |
|---|---|---|
| SqlTypes.OperatorTextTable | Classes.cs:950-981 | Every operator has a non-empty spelling. Two operators share a spelling exactly when both are pattern operators. The pattern operators are exactly those spelled `LIKE`. |
| SqlTypes.JoinClause | Classes.cs:809-824 | Every join phrase ends in ` JOIN`. |
| SqlTypes.JoinClauseInjective | Classes.cs:809-824 | Distinct join kinds have distinct phrases, in both directions. |
| SqlTypes.SqlDbTypeNameHasNoParenthesis | Classes.cs:1420-1422 | A type name is non-empty and holds no `(`, so the size suffix can be told apart from it. |
| Text.HexOf | Classes.cs:1508-1511 | Two hexadecimal digits per byte: the text is twice as long as the input. |
| Text.HexRoundTrip | Classes.cs:1508-1512 | Decoding the hexadecimal digits gives back the byte array. |
| Text.HexLiteral | Classes.cs:1508-1512 | The byte loop's result is `0x` followed by the digits of every byte. |
| Text.DoubleQuotesRoundTrip | Classes.cs:1558 | Undoubling the quote-doubled text gives back the original. |
| Text.DoubleQuotesCounts | Classes.cs:1558 | The output is longer than the input by exactly its number of quotes, and holds twice as many quotes. |
| Text.RemoveCharsKeepsClean | Classes.cs:109 | The text is unchanged exactly when it holds none of the removed characters. |
| Text.NatToStringRoundTrip | Classes.cs:1437 | Reading back the printed digits of a number gives the number. |
| Values.TypeOf | Classes.cs:1538 | `GetType()` has no answer exactly for null. |
| Values.ToBoolean | Classes.cs:1548 | `Convert.ToBoolean` on a non-null value: a boolean is itself, a number is true exactly when it is not zero, a string that `bool.Parse` rejects is a format error, and every non-convertible type is an invalid cast. |
| Values.ParseBool | Classes.cs:1548 | A string `bool.Parse` rejects is a format error and nothing else. |
| Values.ParseBoolPadded | Classes.cs:1548 | `true` and `false` in any letter case, padded with any white space or null characters, parse to their boolean. |
| Values.DisplayedBoolRoundTrip | Classes.cs:1548 | The display text of a boolean converts back to the same boolean. |
| Literals.GetQuotable | Classes.cs:1475-1485 | The quote of a type is `'` or nothing. |
| Literals.QuotableTypes | Classes.cs:1475-1485 | Exactly XML, GUID, string and the date types are quoted. A missing type is not quoted. |
| Literals.GetFieldValue | Classes.cs:1488-1559 | The cases are: a null string gives null, and only it does; a byte array gives `0x` plus 2n hex digits that decode back to the bytes; a boolean column writes `1`/`0` for its value after `Convert.ToBoolean` (an integer by comparison with zero, a string exactly when it is `true`/`false` up to case and padding, a date, GUID, byte array or list is an invalid cast); the text of strings and XML undoubles back to the value; an empty list is an index error; a null date or list is a null dereference. |
| Literals.GetSqlDataType | Classes.cs:1420-1473 | The declaration starts with the type name. Variable text gets `(MAX)` exactly when the length is not positive. Fixed text gets no suffix exactly when the length is not positive. Date types get no suffix. VarBinary fails exactly for a value that is not null and not bytes. |
| Literals.DeclaredLengthRoundTrip | Classes.cs:1429-1446 | For text with a positive length, the digits between the parentheses read back as the length. |
| RowUpdates.FullnameSplits | MetadataClasses.cs:77-83 | A full name whose schema and name hold no dot splits back, as `Update` splits a row's table name, into that schema and name. Without a schema it gives no schema. |
| Metadata.LookupKeyIdempotent | MetadataClasses.cs:42-47 | The key tried first carries a schema, so it is its own lookup key. |
| Metadata.FindTableByLookupKey | MetadataClasses.cs:42-47 | When the first key is present, looking up by that key finds what the name finds, which is the table the indexer holds under the key. |
| Metadata.FindTable | MetadataClasses.cs:42-61 | The exact key (with `dbo.` for a bare name) wins. Otherwise a table is found exactly when one key ends with the name, and it is that key's table. |
| Metadata.FindTableByFullname | MetadataClasses.cs:42-61 | A table filed under its schema-qualified full name is found by that name. |
| Metadata.FindTableAmbiguousSuffix | MetadataClasses.cs:56-59 | Two keys ending with the name make the search return nothing. |
| Metadata.PrimaryKey | MetadataClasses.cs:159-165 | There is no key exactly when no index is flagged primary. Otherwise the key is one of the flagged indexes. |
| Metadata.PrimaryKeyUnique | MetadataClasses.cs:159-165 | With one flagged index, that index is the key. |
| Metadata.FindForeignKeysNarrows | MetadataClasses.cs:167-179 | Naming a table keeps a subset, and it keeps every key pointing at that table. |
| Metadata.GetDisplayName | MetadataClasses.cs:129-137 | The entry of the default culture, or the name when there is none. |
| Metadata.GetDisplayNameIgnoresLcid | MetadataClasses.cs:129-137 | The requested culture never changes the answer. |
| QueryModel.OrderByAppendOk | SqlStatementExtensions.cs:371-430 | Appending an ORDER BY entry on an existing field keeps the list well formed. |
| QueryModel.TableNaming | Classes.cs:1740-1783 | A table named after a catalogue table has that table's full name. The alias defaults to the full name. ` <alias>` is appended to the reference name exactly when an alias was set. |
| QueryModel.GetMetaTableName | MetadataExtensions.cs:38-42 | The name always holds a dot. It is the full name when there is a schema, and the catalogue lookup key of the full name in every case. |
| QueryModel.DeclarationName | Classes.cs:1389-1396 | `<table alias>.[<name>]`. A field without a table fails. |
| QueryModel.FieldReferenceName | Classes.cs:1397-1404 | A parameter is referred to by its alias or name. Any other field fails exactly when it has no table. |
| QueryModel.ReferenceAndDeclarationName | Classes.cs:1389-1404 | A column's reference name and declaration name agree exactly when it has no alias of its own. |
| QueryModel.TopFrom | SqlBuilder.cs:128-143 | The result is a builder without a parent. A builder without a parent is its own top. The only failure is divergence. |
| QueryModel.TopBuilder | SqlBuilder.cs:128-143 | The top builder has no parent. A parentless builder is its own top. |
| QueryModel.TopFromMoreFuel | SqlBuilder.cs:128-143 | More steps never change an answer already found. |
| QueryModel.TopBuilderOfChild | SqlBuilder.cs:128-143 | A builder and its parent have the same top builder. |
| QueryModel.TopBuilderSelfCycle | SqlBuilder.cs:132-141 | A builder that is its own parent never reaches a top builder. |
| QueryModel.TopFromChain | SqlBuilder.cs:132-141 | A chain of n parent links reaches its parentless end in n steps. |
| QueryModel.TopBuilderOfChain | SqlBuilder.cs:128-143 | On a parent chain that visits no builder twice, the top builder is the chain's last builder, so the bound on the number of links only cuts off cycles. |
| SqlText.ColumnSql | Classes.cs:1563-1568 | The text starts with the qualified column. It is exactly that column unless the field has an alias and no value. A field without a table fails. |
| SqlText.ValueDataType | Classes.cs:1144-1147 | The declared type when there is one, else the type of the value. Fails exactly when there is neither. |
| SqlText.Quotable | Classes.cs:1136-1142 | `'` or nothing. A plain column fails the cast. A typed value field uses its declared type; otherwise the held value's type is used, failing on null. |
| SqlText.Aliased | Classes.cs:1156-1163 | A quoted literal is `N'<text>' [<alias>]`. An unquoted one is `<text> [<alias>]`. |
| SqlText.ValueSql | Classes.cs:1144-1166 | The literal text of the value. With an alias, its aliased form. A failure after the literal is known comes only from the quote of an aliased field. |
| SqlText.FieldSql | Classes.cs:1563-1568 | Columns render as columns and values as values. A table parameter's text ends with ` INTO <parameter>`. |
| SqlText.IntoParameter | Classes.cs:1077-1081 | Starts with the column list and ends with ` INTO <parameter>`. |
| SqlText.FieldsSql | Classes.cs:1784-1796 | One text per field, in order. The list fails exactly when some field fails. |
| SqlText.TableSql | Classes.cs:1784-1796 | An UPDATE target renders its SET list. An INSERT target renders its column list. Any other table renders its fields joined by commas, or nothing for a table without fields. |
| SqlText.ParameterIds | Classes.cs:1598-1600 | Exactly the parameter fields of the list. A list of parameters is kept whole. |
| SqlText.UpdateSetList | Classes.cs:1595-1608 | Nothing for a table without fields. An invalid operation exactly when there are fields but no parameter. Otherwise the assignments joined by commas. |
| SqlText.ReferenceNames | Classes.cs:1680-1686 | The reference name of every field, in order. Fails exactly when one fails. |
| SqlText.InsertColumnList | Classes.cs:1676-1688 | The reference names joined by commas. Nothing for an empty table. |
| SqlText.FieldParameters | Classes.cs:1698-1707 | A non-parameter field fails the cast. An empty list is an invalid operation. Otherwise the parameter names joined by commas. |
| SqlText.ColumnDeclarations | Classes.cs:1063-1067 | `<name> <type>` for every column, in order. |
| SqlText.DeclareParameter | Classes.cs:1096-1104 | `DECLARE <name> ` followed by the scalar type, or by the table type for a table parameter. Fails exactly when that type does. |
| SqlText.TableType | Classes.cs:1059-1070 | `TABLE(` + the column declarations joined by commas + `)`. A table without columns is an invalid operation. |
| SqlText.SetParameter | Classes.cs:1108-1117 | A table parameter reads `SELECT  * FROM <name>`. A null scalar is set to `NULL`. Any other scalar is set to its literal, quoted with `N'…'` for quoted types. |
| SqlText.SetTextParameter | Classes.cs:1108-1117 | Setting a text parameter writes `SET @p = N'<body>'` whose body undoubles to the value. |
| SqlText.ConditionBody | Classes.cs:992-1042 | Every condition starts with `<declaration> <operator> `. A null check ends in `NULL`. A field-to-field comparison ends in the right field's reference name and fails exactly when a name fails. A value comparison on a plain column fails the cast. |
| SqlText.ConditionSql | Classes.cs:992-1042 | The link prefix, then the body. Never empty. |
| SqlText.TextComparisonReadsBack | Classes.cs:1009-1018 | Comparing with a string writes `N'<body>'` whose body undoubles to exactly that string. |
| SqlText.ConditionsSql | Classes.cs:900-903 | Empty exactly when there are no conditions. Fails exactly when one condition fails. |
| SqlText.GroupSql | Classes.cs:893-910 | A plain group renders its body with its own link. An EXISTS group renders `<link>[NOT ]EXISTS(SELECT 1 FROM <alias> WHERE <body>)`, with the body written without a link. |
| SqlText.GroupBody | Classes.cs:893-910 | Empty exactly for a group with no conditions and no sub-groups. Unlinked, it is `()` exactly when there are no conditions and every sub-group renders empty. |
| SqlText.Parenthesised | Classes.cs:897-909 | An opened group always closes. An unlinked group is `()` exactly when its inside is empty. |
| SqlText.SubGroupsSql | Classes.cs:904-907 | Empty exactly when every sub-group renders empty. |
| SqlText.JoinSql | Classes.cs:854-865 | Starts with the join phrase and the table's reference name. A cross join stops there. Every other join adds ` ON <conditions>` and fails exactly when its conditions fail. |
| SqlText.OrderBySql | Classes.cs:672-676 | `<declaration name> ASC|DESC`. Fails exactly when the field has no table. |
| SqlText.OrderByItems | SqlBuilder.cs:381-389 | One text per entry, in order. Fails exactly when an entry fails. |
| SqlText.OrderByClause | SqlBuilder.cs:381-389 | Nothing without entries. Otherwise ` ORDER  BY ` + the entries joined by commas + a line break. |
| Lookup.FirstNamed | SqlStatementExtensions.cs:20-24 | The first table of the list whose name or alias matches ignoring case. Nothing exactly when none does. |
| Lookup.FindTable | SqlStatementExtensions.cs:18-35 | The first matching table of the builder itself. Tables of ancestors are never returned. When none matches, the walk fails exactly when the parent chain is cyclic. |
| Lookup.FindField | SqlStatementExtensions.cs:37-40 | The first field of the table whose name or alias matches ignoring case. Nothing exactly when none does. |
| Lookup.FromAliasInjective | SqlStatementExtensions.cs:340-350 | Generated aliases `t<n>` are equal exactly when the table counts are. |
| Lookup.From | SqlStatementExtensions.cs:340-350 | A matching table that is not a join target is reused, and nothing changes. Otherwise exactly one table is appended to the builder, with the new alias. |
| Lookup.FromAgain | SqlStatementExtensions.cs:340-350 | Asking again for the table just added returns it and changes nothing. |
| Lookup.NewTableFound | SqlStatementExtensions.cs:18-35 | After a new table named n is added to a builder that had none, looking up n finds it. |
| Lookup.NewTableNotTarget | SqlStatementExtensions.cs:340-350 | A table just appended is the target of no join. |
| Lookup.AddJoinWithGroup | SqlStatementExtensions.cs:650-673 | Adds exactly one join and its empty ON group. |
| Lookup.JoinTarget | SqlStatementExtensions.cs:650-664 | A table of the builder that none of the builder's joins targets yet; the joins are unchanged. |
| Lookup.MakeJoin | SqlStatementExtensions.cs:650-673 | A table without a builder is a null dereference. Otherwise one join of the requested kind is appended, from the given table to a table of the builder that no earlier join of the builder targets, with an empty ON group. |
| Lookup.PopulateField | MetadataClasses.cs:390-399 | Name, length, scale, precision and SQL type come from the column. Every other part of the field is unchanged. |
| Lookup.PopulateFieldIdempotent | MetadataClasses.cs:390-399 | Populating twice is populating once. The result does not depend on the field's earlier type attributes. |
| Lookup.CatalogueColumn | SqlStatementExtensions.cs:1146-1171 | The column of the catalogue table named by the override, else by the field's table, found by the override, else by the field's name. |
| Lookup.TryPopulateField | SqlStatementExtensions.cs:1146-1171 | Reports true exactly when a catalogue column exists, and then the field is populated from it. Otherwise the field is unchanged. A field whose table has no builder fails. |
| Lookup.Populate | SqlStatementExtensions.cs:1106-1110 | Only the type attributes of the field may change. Fails exactly when the field's table has no builder. |
| Conditions.NewConditionLink | SqlStatementExtensions.cs:1069-1072 | No link exactly when the group has no conditions or none was asked for. |
| Conditions.LinkOrAnd | SqlStatementExtensions.cs:1078-1081 | Never `NoLink`. An existing link is kept. |
| Conditions.AppendValueCondition | SqlStatementExtensions.cs:1067-1084 | The condition is appended with the normalised link. The arena stays valid. |
| Conditions.PopulateTwice | SqlStatementExtensions.cs:1064-1066 | Only the type attributes change. The step fails exactly when the field's table has no builder. The result is the field populated twice from its table's catalogue entry. |
| Conditions.WhereInternal | SqlStatementExtensions.cs:1053-1086 | A group without a builder is a null dereference. The table is found by name, alias or full name, else an invalid operation; a null value is a null dereference. One value condition is appended, on a table of the builder. Its link is none exactly for the group's first condition. Its field holds the value. It is named after the column `FindField` finds, else after the given name, and is typed from that table's catalogue entry. |
| Conditions.WhereFieldFor | SqlStatementExtensions.cs:1058-1075 | The value field of a WHERE condition: named after the column `FindField` finds, else after the given name, on the found table, holding the value and typed from the catalogue by both populate calls. It fails exactly when the table has no builder. |
| Conditions.WhereInternalAll | SqlStatementExtensions.cs:1017-1049 | The same lookup by name or alias only. The new value field keeps the given name and is typed from the table's catalogue entry. |
| Conditions.WhereInternalAllTyped | SqlStatementExtensions.cs:983-1016 | The generic overload: the same table lookup and errors, except that a null value is accepted. It succeeds exactly when the table is found. The new field keeps the caller's spelling, declares the type argument as its data type and is not typed from the catalogue. |
| Conditions.WhereInternalAllNull | SqlStatementExtensions.cs:983-1031 | On a null value the object overload is a null dereference, and the generic overload succeeds for every type argument. |
| Conditions.WhereInternalAllAgrees | SqlStatementExtensions.cs:983-1031 | For a non-null value of type `T`, when the catalogue has no column of the requested name, both overloads build the same condition. |
| Conditions.Where | SqlStatementExtensions.cs:866-869 | A table without a builder, or a builder without a WHERE group, fails. Otherwise one unlinked condition is appended to the WHERE group, comparing a new field that holds the value. The field is named after the table's column and typed from the catalogue. |
| Conditions.AndOr | SqlStatementExtensions.cs:949-957 | One condition, linked AND or OR, unlinked when it is the group's first. Its new field holds the value and is named and typed as for `Where`. |
| Conditions.WhereInternalKeepsFirstUnlinked | SqlStatementExtensions.cs:1053-1086 | If every group's first condition had no link before, the same holds afterwards. |
| Conditions.SubGroup | SqlStatementExtensions.cs:959-981 | Exactly one new empty sub-group, linked AND or OR, whose parent is the group. Nothing else in the group changes. |
| Conditions.JoinSubGroup | SqlStatementExtensions.cs:837-859 | The new sub-group belongs to the same join, takes over the group's parent and has no builder. Nothing else changes. |
| Conditions.JoinSubGroupHasNoBuilder | SqlStatementExtensions.cs:837-859 | A value condition on such a sub-group always fails, because the sub-group has no builder. |
| Conditions.JoinSideField | SqlStatementExtensions.cs:1177-1194 | The field `FindField` finds, else a new column of that table with the given name, typed from the catalogue. |
| Conditions.FindFieldAfterNewFields | SqlStatementExtensions.cs:1177-1194 | Adding fields to the arena does not change what `FindField` finds. |
| Conditions.AppendCondition | SqlStatementExtensions.cs:1088-1104 | Appends the condition exactly as given. |
| Conditions.OnInternal | SqlStatementExtensions.cs:1088-1104 | Appends `from <op> to` with the given link, without normalisation. The left side is the `from` table's field of that name, found or new, and the right side is the `to` table's. Other groups are left alone. |
| Conditions.JoinFields | SqlStatementExtensions.cs:1173-1201 | Each side is the field found in its table, else a new field of that table with the given name, typed from the catalogue. |
| Conditions.On | SqlStatementExtensions.cs:861-864 | The first ON condition, with no link. It compares the `from` table's field of the given name with the `to` table's field of the other name. |
| Conditions.JoinFieldCondition | SqlStatementExtensions.cs:828-835 | Linked AND or OR, even when it is the group's first condition. It compares the named fields of the join's two tables. |
| Conditions.JoinValueCondition | SqlStatementExtensions.cs:922-929 | An AND-linked object-overload value condition on the named table, or by default on the join's target table. On a non-empty group it is appended as it is. Its new field keeps the given name, holds the value and is typed from the catalogue. |
| Conditions.JoinTypedCondition | SqlStatementExtensions.cs:931-946 | `And<T>` and `Or<T>`: a generic-overload value condition with the given link, on the named table or by default the join's target table. On a non-empty group it is appended as it is. |
| Conditions.ExistsInternal | SqlStatementExtensions.cs:900-920 | One new EXISTS sub-group over a new table. The builder's table list is not extended. |
| Conditions.AndExists | SqlStatementExtensions.cs:886-893 | Linked AND, except when the group has no conditions yet. |
| Conditions.WhereExists | SqlStatementExtensions.cs:871-884 | A table without a builder fails. Otherwise an EXISTS group, correlated with the table's alias. |
| Statements.AddStatement | SqlBuilder.cs:13-60 | Adds one builder together with its own empty WHERE group. |
| Statements.NewStatement | SqlBuilder.cs:13-60 | A new builder of the requested kind, without a parent, with an empty WHERE group that belongs to it. |
| Statements.StoredProcedure | SqlBuilder.cs:22-37 | A procedure builder holding an empty call. |
| Statements.Parameter | SqlStatementExtensions.cs:53-74 | Appends `@<name>` to the call; the new parameter keeps the given name, direction and value. Without a table name or a catalogue it carries exactly the given type attributes. |
| Statements.AddIfStatement | Classes.cs:734-742 | Three builders and three groups: the IF builder, its condition group and its body. |
| Statements.If | SqlBuilder.cs:62-69 | A top-level IF statement in the If branch. |
| Statements.Begin | SqlStatementExtensions.cs:1219-1223 | Gives the body its statement kind and returns it. |
| Statements.BeginFromGroup | SqlStatementExtensions.cs:1207-1217 | Only the condition group of an IF statement can begin a body. Any other group fails. |
| Statements.EndFrom | SqlStatementExtensions.cs:1224-1239 | When found, the result is an IF statement in the If branch, and a builder that is one is its own answer. No builder is an argument error. |
| Statements.End | SqlStatementExtensions.cs:1224-1239 | When found, the result is an IF statement in the If branch. A builder without a parent is an argument error; any other failure is an argument error or a cyclic parent chain. |
| Statements.BranchInternal | SqlStatementExtensions.cs:1251-1260 | Exactly one new IF statement of the given kind, parented to `s`, is appended to the ELSE branches of `s`. |
| Statements.Else | SqlStatementExtensions.cs:1241-1244 | One ELSE branch. |
| Statements.ElseIfAsWritten | SqlStatementExtensions.cs:1246-1249 | The branch added is an ELSE branch. |
| Statements.ElseIfIsElse | SqlStatementExtensions.cs:1246-1249 | `ElseIf` as written adds exactly what `Else` adds. |
| Statements.ElseIf | SqlStatementExtensions.cs:1246-1249 | As intended, the branch added is an ELSE IF branch. |
| Statements.EndOfBranchBody | SqlStatementExtensions.cs:1224-1239 | `End` on the body of an IF statement, or of one of its branches, returns the IF statement. |
| Statements.AddSubQuery | SqlBuilder.cs:113-122 | The child is registered under the name, replacing an earlier one. Its parent becomes the builder unless it is an INSERT or UPDATE. |
| Statements.SubQueryTopBuilder | SqlBuilder.cs:113-143 | A SELECT sub-query of a top-level builder has that builder as its top builder. |
| Statements.AddDeclaration | SqlBuilder.cs:145-148 | Reports true exactly when the name was new. The first body under a name is kept. |
| Statements.AddDeclarationFirstWins | SqlBuilder.cs:145-148 | A second body under a known name changes nothing. |
| Statements.BaseTable | SqlBuilder.cs:504-507 | For a builder that is not an IF statement, the first table, present exactly when the builder has tables. |
| QueryModel.AppendTable | SqlStatementExtensions.cs:105-117 | Appends one new table to the builder and changes nothing else. |
| Statements.UpdateTableOf | SqlStatementExtensions.cs:105-117 | When the builder has tables and its base table is an UPDATE target, that table, with nothing changed. On an IF statement the base table is its body's, so the target may sit in the body. Otherwise a new UPDATE target is appended to the builder's own tables. |
| Statements.UpdateTableOfAgain | SqlStatementExtensions.cs:105-117 | On a builder that is not an IF statement, asking again changes nothing. |
| Statements.Into | SqlStatementExtensions.cs:238-251 | When the builder has tables and its base table is an INSERT target, that table, with nothing changed. On an IF statement the base table is its body's. Otherwise a new INSERT target is appended to the builder's own tables. |
| Statements.IntoAgain | SqlStatementExtensions.cs:238-251 | On a builder that is not an IF statement, asking again changes nothing. |
| Statements.AppendField | SqlStatementExtensions.cs:119-136 | The field is appended to the table's list. Every other table is unchanged. |
| Statements.AppendPopulated | SqlStatementExtensions.cs:119-136 | Appends the field to the table, keeping its kind, alias, table and value; only its type attributes may change. Fails exactly when the field's table has no builder. |
| Statements.Set | SqlStatementExtensions.cs:119-136 | One parameter `@<field>` holding the value is appended to the UPDATE target. Fails exactly when the target has no builder. |
| Statements.InsertValue | SqlStatementExtensions.cs:253-267 | One parameter `@<field>` holding the value, typed as the value, is appended to the INSERT target. Fails exactly when the target has no builder. |
| Statements.SetTyped | SqlStatementExtensions.cs:138-153 | `Set<T>`: a null value is a null reference, because the parameter takes its data type from `value.GetType()`. Otherwise it is exactly `Set` with the value's own type and the default precision -1, and the new parameter declares that type. |
| Statements.InsertValueTyped | SqlStatementExtensions.cs:269-284 | `Value<T>`: always succeeds. It appends to the INSERT target a parameter `@<field>` of the declared type with the given SQL type, length and scale, precision -1 and no table, and so not typed from the catalogue. |
| Statements.InsertValueTypedIgnoresCatalogue | SqlStatementExtensions.cs:269-284 | Because `Value<T>` sets no table on its field, `PopulateField` finds no catalogue column: the result is the same under any catalogue. |
| Statements.DefaultOutputName | SqlStatementExtensions.cs:157-160 | For an UPDATE target, the default name holds no dot. |
| Statements.OutputParameter | SqlStatementExtensions.cs:155-171 | A table parameter `@<name>` over a new, empty `inserted` table. |
| Statements.UpdateOutput | SqlStatementExtensions.cs:155-171 | Installs the OUTPUT table variable of an UPDATE target under the default or given name. |
| Statements.InsertOutput | SqlStatementExtensions.cs:214-229 | Installs the OUTPUT table variable of an INSERT target. |
| Statements.OutputColumn | SqlStatementExtensions.cs:186-201 | Appends one typed column to the OUTPUT table variable. |
| Statements.Column | SqlStatementExtensions.cs:517-541 | Appends one column to the table and changes nothing else. The column keeps the given name and alias and is typed from the table's catalogue entry; without a catalogue it is untyped. A table without a builder is a null dereference. |
| Statements.AddMissingColumn | SqlStatementExtensions.cs:506-516 | A name `FindField` finds adds nothing. Otherwise at most one column is added. |
| Statements.Columns | SqlStatementExtensions.cs:506-516 | The table grows by at most one column per name. Other tables and builders are unchanged. |
| Statements.FindFieldStillFound | SqlStatementExtensions.cs:506-516 | A name found stays found after more fields are appended. |
| Statements.ColumnIsFound | SqlStatementExtensions.cs:517-541 | Without a catalogue, a column just added is found by its name. |
| Statements.ColumnsFindsAll | SqlStatementExtensions.cs:506-516 | Without a catalogue, every requested name is found after `Columns`. |
| Statements.ColumnsKnownNames | SqlStatementExtensions.cs:506-516 | Asking for names the table already has changes nothing. |
| Statements.SelectInto | SqlStatementExtensions.cs:356-369 | The builder gets a temporary table `#<name>` selecting `*`, unless it has one already. |
| Statements.OrderField | SqlStatementExtensions.cs:374-390 | The table's field of that name, or a new one when the table selects `*`. Any other name fails. |
| Statements.AnyEqual | SqlStatementExtensions.cs:391 | When nothing fails, true exactly when the new name is among the earlier ones. A failure comes from one of the names. |
| Statements.AnyEqualAppend | SqlStatementExtensions.cs:391 | A name just added is found. |
| Statements.RefNamesAgree | SqlStatementExtensions.cs:391 | Reference names depend only on the fields and the tables' aliases. |
| Statements.RefNameAgree | SqlStatementExtensions.cs:391 | The same for one field. |
| Statements.AddTempOrder | SqlStatementExtensions.cs:392-396 | Appends one ORDER BY entry to the temporary table. |
| Statements.TempOrderBy | SqlStatementExtensions.cs:371-400 | An unknown name on a table without `*` fails. Otherwise at most one entry, with the given direction and for the named field when it exists, is added to the temporary table; nothing else changes. |
| Statements.TempOrderByKeepsDistinct | SqlStatementExtensions.cs:371-400 | The entries' reference names stay pairwise distinct. A known field adds nothing exactly when its reference name is already listed. |
| Statements.TableOrderBy | SqlStatementExtensions.cs:402-430 | Always appends one entry, with no check for duplicates. |
| Statements.TempOrderByTwice | SqlStatementExtensions.cs:371-400 | Ordering twice by the same field adds at most one entry. |
| Compiler.SelectFields | SqlBuilder.cs:308 | Holds every field of every listed table, and only fields of the arena. |
| Compiler.CleanFrom | SqlBuilder.cs:304-330 | Fields outside the list are untouched, and so are the builders. A field that changes has a table and gets the alias `<table name>_<name>`. |
| Compiler.CleanSelectList | SqlBuilder.cs:304-330 | Only fields of the builder's select list change, and each that changes gets the alias `<table name>_<name>`. The builders are unchanged and the arena only grows. |
| Compiler.CleanFromDistinct | SqlBuilder.cs:304-330 | Distinct names leave the list as it is. |
| Compiler.CleanSelectListDistinct | SqlBuilder.cs:304-330 | When no two fields share an alias-or-name, nothing changes. |
| Compiler.CleanRenamesRepeat | SqlBuilder.cs:315-326 | A field whose name repeats an earlier one is renamed after its table. |
| Compiler.CleanFromRenamesRepeats | SqlBuilder.cs:310-326 | For any distinct field list, a field whose alias-or-name is a starting name or an earlier field's original name ends with the alias `<table name>_<name>`, and it has a table. Every name the loop passes stays among the names seen. |
| Compiler.CleanFromKeepsNew | SqlBuilder.cs:310-326 | A field whose alias-or-name is not a starting name, not an earlier field's name, and not an alias generated for an earlier field, is left as it is. |
| Compiler.CleanSelectListRenames | SqlBuilder.cs:304-330 | Of two select-list fields with equal alias-or-name, the later one is renamed after its table. |
| Compiler.CleanSelectListKeeps | SqlBuilder.cs:304-330 | A select-list field whose name differs from every earlier name and generated alias is unchanged. |
| Compiler.CleanCollision | SqlBuilder.cs:315-326 | Names are not made unique: fields `T_a`, `a`, `a` (the last two of table `T`) end as `T_a`, `a`, `T_a`. |
| Compiler.SetupOne | SqlBuilder.cs:276-280 | Succeeds exactly when the field is a parameter that can be declared and assigned, giving its name and its declaration. A non-parameter fails the cast. |
| Compiler.ParameterSetup | SqlBuilder.cs:276-280 | Succeeds exactly when every field can be set up that way. Then one declaration per field, in order, under the parameter's name. |
| Compiler.AddDeclarations | SqlBuilder.cs:145-148 | After registering a list of pairs, every name is present. A name already present keeps its body. |
| Compiler.AddDeclarationsOne | SqlBuilder.cs:145-148 | Registering one pair is `AddDeclaration`. |
| Compiler.Declare | SqlBuilder.cs:278 | Registers the declarations with one builder and leaves every other builder unchanged. |
| Compiler.CommaListJoins | Classes.cs:709-714 | With non-empty items, the accumulated list is the items joined by commas. |
| Compiler.JoinsSql | SqlBuilder.cs:258-261 | Succeeds exactly when every join compiles. The text is empty exactly when there are no joins. |
| Compiler.WhereText | SqlBuilder.cs:371 | The WHERE group's text. A builder without a WHERE group fails. |
| Compiler.OutputOf | SqlBuilder.cs:282 | When present, a table parameter whose table has columns. Only an INSERT or UPDATE target can have one. |
| Compiler.OutputSetup | SqlBuilder.cs:282-287 | Nothing without an OUTPUT parameter. Otherwise succeeds exactly when it can be set up, giving its declaration and a non-empty select-back line. |
| Compiler.LineIfAny | SqlBuilder.cs:296-299 | Empty exactly when the text is empty. |
| Compiler.DeleteSql | SqlBuilder.cs:252-268 | No base table is a null dereference. Otherwise `DELETE  <alias>`, `  FROM  <reference name>`, the joins, then the WHERE line of a non-empty condition. |
| Compiler.DeleteWhereClause | SqlBuilder.cs:252-268 | Without joins and conditions, a DELETE is just the two head lines. With a condition, it ends in its WHERE line. |
| Compiler.DeclareParameters | SqlBuilder.cs:275-287 | The top builder gets a declaration under every parameter's name, and every other builder is unchanged. A column that is not a parameter fails. The select-back line is empty exactly when there is no OUTPUT parameter. |
| Compiler.InsertText | SqlBuilder.cs:289-300 | Starts with the SET lines and the `INSERT INTO <alias>(<columns>)` line. |
| Compiler.InsertSql | SqlBuilder.cs:269-302 | Every column is a parameter declared with the top builder, and only the top builder changes. A base table that is not an INSERT target is a null dereference. |
| Compiler.UpdateText | SqlBuilder.cs:444-467 | Starts with the SET lines, the `UPDATE <table>` line and the `SET <assignments>` line. |
| Compiler.UpdateSql | SqlBuilder.cs:423-468 | Every parameter column is declared with the top builder, and only the top builder changes. A base table that is not an UPDATE target is a null dereference. |
| Compiler.CallItems | Classes.cs:709-714 | One argument per parameter, marked `OUT` for an output parameter. |
| Compiler.OutputNames | Classes.cs:720-723 | Exactly the names of the output parameters. |
| Compiler.CallList | Classes.cs:709-723 | With non-empty names, the arguments and the outputs joined by commas. The output list is empty exactly when no named parameter is an output. |
| Compiler.CommaListEmpty | Classes.cs:709-714 | The accumulated list is empty exactly when every item is. |
| Compiler.ProcedureSql | Classes.cs:703-729 | A builder without a call is a null dereference. Every parameter is declared with the top builder, which alone changes. The text starts with the `-- Stored procedure` line. |
| Compiler.CallProcedure | Classes.cs:703-729 | Every parameter is declared with the top builder, which alone changes. The text starts with the `-- Stored procedure` line. |
| Compiler.ProcedureText | Classes.cs:716-728 | Starts with the `-- Stored procedure` line. |
| Compiler.SelectListRest | SqlBuilder.cs:341-345 | Succeeds exactly when every table's columns compile. |
| Compiler.SelectList | SqlBuilder.cs:340-345 | Starts with the base table's columns. |
| Compiler.SelectHead | SqlBuilder.cs:349 | Starts with `SELECT DISTINCT ` exactly when the builder is distinct, and with `SELECT  ` otherwise. Ends with the list on its own line. |
| Compiler.SelectHeadTop | SqlBuilder.cs:349 | After `SELECT ` and the optional `DISTINCT `, the head holds `TOP n` exactly when the builder has a top, followed by the list. |
| Compiler.IntoLine | SqlBuilder.cs:353-356 | Empty exactly when there is no temporary table. |
| Compiler.TempOutput | SqlBuilder.cs:395-407 | Nothing unless the target is an output temporary table. Otherwise a `SELECT` that reads it back. |
| Compiler.SelectText | SqlBuilder.cs:349-407 | Succeeds exactly when the select list, the joins, the WHERE text, the ORDER BY clause and the temporary table's output all compile. The text is then the head, the INTO line, the FROM line of the base table, the joins, the WHERE line, the ORDER BY clause and the temporary table's output, in that order. |
| Compiler.SelectTextDistinct | SqlBuilder.cs:349 | The compiled body starts with `SELECT DISTINCT ` exactly when the builder is distinct. |
| Compiler.SelectTextWhere | SqlBuilder.cs:371-375 | The compiled body holds `WHERE <text>` on its own line whenever the condition text is neither empty nor `()`. |
| Compiler.SelectSql | SqlBuilder.cs:332-421 | A builder that is not an IF and has no tables fails. The text starts with `SELECT `, and with `SELECT DISTINCT ` exactly when the builder is distinct. The arena only grows. |
| Compiler.SubQueriesSql | SqlBuilder.cs:412-418 | Empty exactly when there are no sub-queries. The arena only grows. |
| Compiler.ConditionHead | Classes.cs:774-788 | An ELSE branch writes no condition. IF and ELSE IF write theirs after the keyword. The head always ends in `BEGIN`. |
| Compiler.IfHead | Classes.cs:774-788 | An ELSE writes a bare `ELSE BEGIN`. Otherwise succeeds exactly when the condition group compiles, and holds its text. |
| Compiler.ElseIfHeadDropsCondition | Classes.cs:777-780 | The branch `ElseIf` adds as written writes a bare ELSE whatever its conditions. The corrected one writes `ELSE IF`. |
| Compiler.IfSql | Classes.cs:774-794 | Succeeds only when the head does. The arena only grows. |
| Compiler.BranchesSql | Classes.cs:789-792 | The arena only grows. |
| Compiler.StatementSql | SqlBuilder.cs:217-236 | INSERT, UPDATE and procedure builders write their own text. A builder without a statement kind, or an IF, writes nothing. |
| Compiler.DeclarationLines | SqlBuilder.cs:242-245 | Nothing when there are no declarations. |
| Compiler.DeclarationLinesHave | SqlBuilder.cs:242-245 | Every registered declaration is on its own line. |
| Compiler.PlainBuilderSql | SqlBuilder.cs:212-250 | The statement is compiled first. A nested builder writes the statement and a line break. A top builder's text holds every declaration it holds. |
| Compiler.BuilderSql | SqlBuilder.cs:212-250 | Out of fuel, the result diverges. A builder that is not an IF writes as a plain builder. |
| Compiler.ToSql | SqlBuilder.cs:212-250 | The arena stays valid and only grows. |
| Compiler.InsertDeclaresEveryColumn | SqlBuilder.cs:212-302 | A top-level INSERT writes, before the statement, the declaration of the parameter behind every column it inserts. |
| Compiler.ProcedureDeclaresEveryParameter | Classes.cs:703-729 | A top-level procedure call writes the declaration of every parameter before the call. |
| Resolver.SchemaArgumentRoundTrip | MetadataExtensions.cs:421 | Reading a missing schema as `dbo` gives back the catalogue table's schema. |
| Resolver.ReferencingKeys | MetadataExtensions.cs:414 | Exactly the target table's keys that point back at the source table's name and schema from the column. |
| Resolver.ReferenceConstant | MetadataExtensions.cs:445-462 | The quote-trimmed text, as a decimal when it parses as one and as a string otherwise. |
| Conditions.ValueConditionAppended | MetadataExtensions.cs:461 | A value condition on a non-empty group is appended as it is. |
| Resolver.NextCondition | MetadataExtensions.cs:445-466 | One AND-linked equality is appended to the ON group. For a pair whose name is quoted, the field of the referenced column holds the quoted constant and is a value on the target table. For any other pair, the left side is the column `Column.Name` of the join's `from` table and the right side is the column `ReferencedColumn.Name` of its `to` table. |
| Resolver.MoreConditions | MetadataExtensions.cs:441-468 | One AND-linked equality per remaining pair, in order, each comparing that pair's columns as `NextCondition` states. |
| Resolver.ChainStarts | MetadataExtensions.cs:439 | The first ON condition on an empty group starts the equality chain. |
| Resolver.PrimaryKeyJoin | MetadataExtensions.cs:410-427 | Anything but exactly one back-pointing key is an invalid operation. The join appended has the requested kind and starts at the table. It has a single equality ON condition comparing the table's column `firstRef.Name` with the key's first column in the target. |
| Resolver.ForeignKeyJoin | MetadataExtensions.cs:428-470 | Anything but exactly one key to the target is an invalid operation. The join appended has the requested kind and starts at the table. Its first ON condition compares the table's column `firstRef.ReferencedColumn.Name` with the target's first key column. Each further pair appends `Column.Name = ReferencedColumn.Name`, or a value comparison for a quoted constant. |
| Resolver.To | MetadataExtensions.cs:401-472 | The key branch applies to a key column not preferred as a foreign key; a foreign key goes through its own branch. A column that is neither is an argument error, and a missing target table a null dereference. |
| Resolver.IncludeSpecSplits | MetadataExtensions.cs:384-388 | An entry with one `=` splits into exactly its two sides. |
| Resolver.IncludeColumns | MetadataExtensions.cs:378-395 | One column per entry, in order, with the name and alias `IncludeSpec` gives it: `a` as `b` for `a=b`, `a` as `<from>_a` for any other entry `a`. Each column is typed from the table's catalogue entry. A table without a builder is a null dereference. |
| Resolver.JoinOnColumn | MetadataExtensions.cs:355-399 | An unknown column is an argument error, and so is anything but exactly one foreign key. A join succeeds only when the referenced table is in the catalogue, and starts at the table. |
| Resolver.AutoJoin | MetadataExtensions.cs:289-304 | An unknown column is an argument error. Otherwise a join from the table, LEFT OUTER for a nullable column and INNER otherwise. |
| Resolver.AutoJoinKind | MetadataExtensions.cs:289-304 | The join is LEFT OUTER exactly when the column is nullable, otherwise INNER. |
| Resolver.JoinToTable | MetadataExtensions.cs:343-353 | A table without a key is a null dereference; a key of other than one column is an invalid operation. A join succeeds only from a key column, to a table of that name in the catalogue. |
| Resolver.JoinToTableSingleCondition | MetadataExtensions.cs:343-353 | Joining by name from a flagged key column gives a single ON condition. |
| Resolver.KeyCondition | MetadataExtensions.cs:275-279 | One AND-linked equality. Its new field is named after the key column and holds the key value. |
| Resolver.AndKeys | MetadataExtensions.cs:275-279 | One AND-linked equality per key column from position i on. The k-th compares a field named after column k with the value `keys[k]`. Fewer key values than columns fails. |
| Resolver.KeysOnEmptyWhere | MetadataExtensions.cs:269-281 | On an empty WHERE group: the first key value compared with the first key column, unlinked, then one AND-linked comparison per further column. It fails when there are fewer key values than columns. |
| Resolver.AppendedKeepsGroup | MetadataExtensions.cs:275-279 | Appending leaves the group's earlier conditions and its other parts alone. |
| Resolver.FirstKeyThenOthers | MetadataExtensions.cs:269-282 | The first equality, unlinked, on an empty group, followed by the others. |
| Resolver.WherePrimaryKey | MetadataExtensions.cs:269-282 | A table without a key is a null dereference. On an empty WHERE group, one equality per key column, the first unlinked and the rest AND-linked. On a non-empty group the first key column is skipped. Each condition compares a field named after its key column with the key value at the same position. Too few values for a compound key fail. |
| Resolver.TitleByWords | MetadataExtensions.cs:108-116 | A column containing the first title word that any column contains. None exactly when no column contains any title word. |
| Resolver.GuessTitleColumn | MetadataExtensions.cs:102-118 | The title column when one is set. Otherwise, for the first title word that some column name contains (ignoring case), the first such column in dictionary order. Otherwise the first key column; a table without a key, or with an empty one, fails. |
| Rows.Get | Classes.cs:609-616 | A pending change shadows the value read. A column neither holds is missing. |
| Rows.Column | Classes.cs:476-487 | The current value. A missing column, and only a missing one, is an argument error. |
| Rows.SetAsWritten | Classes.cs:587-607 | Null over a null column read fails. An equal value changes nothing. Every other column reads as before, and the values read stay as they are for a known column. |
| Rows.NullOverNullAsWritten | Classes.cs:599 | Writing null over a null column fails as written. |
| Rows.RevertKeepsChangeAsWritten | Classes.cs:599-605 | Writing back the value read after a change leaves the change in place. The row still reads the changed value. |
| Rows.Set | Classes.cs:587-607 | As intended, a tracked row reads the new value afterwards. For a known column there is a pending change exactly when the new value differs from the value read. Other columns read as before. |
| Rows.SetAgreesWithAsWritten | Classes.cs:587-607 | Both writes agree when the library does not fail and the column has no pending change. |
| Rows.SetBackWithdraws | Classes.cs:587-607 | Writing a column and then writing back its value read restores the overlay, less any change of that column. |
| Rows.AcceptChanges | Classes.cs:540-562 | Every pending change overwrites or adds its column. No change is left. Every current value is kept. |
| Rows.AcceptChangesIdempotent | Classes.cs:540-562 | Committing twice is committing once. |
| Rows.RowMetadata | Classes.cs:398-426 | The table of the cached key columns. Nothing without a cached key. An empty cached key fails. |
| Rows.LoadMetadata | Classes.cs:375-384 | Records the table's full name. Records the key columns when asked and the table has a key. Without a table, nothing changes. |
| Rows.LoadedMetadataReadsBack | Classes.cs:375-426 | A table with a non-empty key, loaded with its key cached, is the table the row reports. |
| Rows.KeyValues | Classes.cs:440-447 | At most one value per key column, and one for each when the row has all of them. |
| Rows.KeyGrowthOne | Classes.cs:445 | One key equality appended to a group without sub-groups. |
| Rows.KeyGrowthThen | Classes.cs:440-447 | Appended equalities compose. |
| Rows.KeyEquality | Classes.cs:445 | One equality with the value, AND-linked unless it is the group's first condition. A null value fails. |
| Rows.KeyEqualities | Classes.cs:440-447 | One equality per key value the row has, in key order. The group's first condition is unlinked, the rest are AND-linked. |
| Rows.RowPrimaryKey | Classes.cs:429-449 | Nothing exactly when the row has no table or no cached key. Otherwise a new WHERE group of the builder holding one equality per key value, in key order. A null key value fails. |
| RowUpdates.SplitTableName | ResultExtensions.cs:24-30 | Split at the first dot when that dot is not the first character. Otherwise there is no schema. |
| RowUpdates.SplitTableNameRoundTrip | ResultExtensions.cs:24-30 | Joining a dot-free schema with a table and splitting again gives both back. |
| RowUpdates.SettableColumns | ResultExtensions.cs:51-57 | Exactly the row columns the catalogue knows and that are not read-only. |
| RowUpdates.CurrentValues | ResultExtensions.cs:56 | The current value of each listed column, in order. |
| RowUpdates.SetsThen | ResultExtensions.cs:35-59 | Appended assignments compose. |
| RowUpdates.AssignOne | ResultExtensions.cs:41 | One SET parameter typed from the column. |
| RowUpdates.AssignsOneMore | ResultExtensions.cs:35-59 | One assignment followed by the others. |
| RowUpdates.AssignsFirst | ResultExtensions.cs:35-59 | The first key's assignment, followed by those of the others. |
| RowUpdates.AssignChanges | ResultExtensions.cs:33-47 | Every changed key must be a settable catalogue column, else the update fails with an invalid operation. Each settable key is assigned once. |
| RowUpdates.AssignColumns | ResultExtensions.cs:49-59 | Each settable row column is assigned its current value. Other columns are skipped. A settable column without a value is an argument error, and only that fails. |
| RowUpdates.OutputColumns | ResultExtensions.cs:62-78 | One OUTPUT column per entry, named and typed as the entry says. |
| RowUpdates.FieldKept | ResultExtensions.cs:62-78 | Fields of the arena survive a stage that only appends fields. |
| RowUpdates.KeyEntries | ResultExtensions.cs:65-68 | One entry per key column, in key order, named after it. |
| RowUpdates.FieldEntries | ResultExtensions.cs:73-77 | One entry per requested field. A field missing from the catalogue fails. |
| RowUpdates.OutputWith | ResultExtensions.cs:64-77 | A fresh OUTPUT table variable followed by one column per entry. |
| RowUpdates.OutputsAsWritten | ResultExtensions.cs:62-78 | With both options, the surviving table variable holds only the requested fields. |
| RowUpdates.KeyOutputLostAsWritten | ResultExtensions.cs:62-78 | With both options as written, the key columns are not among the outputs. |
| RowUpdates.Outputs | ResultExtensions.cs:62-78 | Nothing when no output is asked for. Otherwise one table variable holding the key columns, when asked, and the requested fields. Missing metadata, a missing key or an unknown field fails. |
| RowUpdates.WithPrimaryKey | ResultExtensions.cs:79 | Only the builder's WHERE group changes. It becomes the row's key group, one equality per key value, when the row has a table and a cached key; otherwise the builder has no WHERE group. |
| RowUpdates.UpdateTarget | ResultExtensions.cs:23-31 | A new UPDATE builder whose one target table is named after the row's table, split into schema and name. |
| RowUpdates.AssignAllChanges | ResultExtensions.cs:33-47 | Succeeds exactly when every changed column is settable, else an invalid operation. Then every changed column is assigned, on the target only. |
| RowUpdates.ChangedAssignments | ResultExtensions.cs:33-47 | A row with changes needs the catalogue table. A changed column that is not settable is an invalid operation. Every changed column is assigned, on the target only. |
| RowUpdates.FullAssignments | ResultExtensions.cs:49-59 | Every settable row column is assigned, on the target only. A row with columns needs the catalogue table. |
| RowUpdates.UpdateFromRow | ResultExtensions.cs:17-82 | Nothing exactly when only changes are wanted and there are none. A row without a table is a null dereference. Otherwise a new UPDATE builder for the row's table, with a WHERE group exactly when the row has a cached key. |
| RowUpdates.UpdateFromRowAssignsChanges | ResultExtensions.cs:33-47 | With only changes wanted, the new target assigns every changed column exactly once. |
| RowUpdates.UpdateFromRowAssignsColumns | ResultExtensions.cs:49-59 | Otherwise the new target assigns every settable row column its current value, in row order. |
| RowUpdates.UpdateFromRowRejects | ResultExtensions.cs:39-46 | A changed column that is not a settable catalogue column makes the update an invalid operation. |
| RowUpdates.UpdateOn | ResultExtensions.cs:32-80 | Among the builder's parts only its WHERE group changes, set exactly when the row has a table and a cached key. The target keeps its name. |
| RowUpdates.ChangesOutputs | ResultExtensions.cs:33-78 | The SET and OUTPUT parts with only changes wanted leave the builders unchanged and the target's name as it was. |
| RowUpdates.ColumnsOutputs | ResultExtensions.cs:49-78 | The SET and OUTPUT parts of the full mode leave the builders unchanged and the target's name as it was. |
| RowUpdates.TargetKept | ResultExtensions.cs:62-79 | Assignments survive the later stages, which only append fields. |
| RowUpdates.TargetFromKeys | ResultExtensions.cs:35-79 | The assignments appended to a target survive the OUTPUT and WHERE stages. |
| RowUpdates.ScaleAsPrecisionAsWritten | ResultExtensions.cs:102 | When the builder's own catalogue does not know the column, the SET parameter that `Set` builds from the arguments as written has the column's scale as its precision and no scale. It is declared `type(scale)`. The one `AssignOne` builds is declared `type(precision, scale)`. The two declarations differ. |
| RowUpdates.IntendedDeclaration | ResultExtensions.cs:41 | With the arguments in the intended order (length, precision, scale), a scaled numeric column is declared `type(precision, scale)`. |
| RowUpdates.WrittenDeclaration | ResultExtensions.cs:102 | With the arguments as written (length, scale), it is declared `type(scale)`, or the bare type when the scale is 0. |
| RowUpdates.OutputScaleAsPrecisionAsWritten | ResultExtensions.cs:110 | As written, an OUTPUT column of a numeric column is declared `type(scale)`. With the intended arguments it is declared `type(precision, scale)`. The catalogue does not step in here unless it has a table named `inserted`. |
| RowUpdates.CataloguedHidesTypeArguments | ResultExtensions.cs:102 | When the builder's catalogue knows the column, both argument orders give the same declaration, because `PopulateField` overwrites the type. |
| RowUpdates.AssignCatalogued | ResultExtensions.cs:99-103 | One SET parameter per changed key. A missing catalogue or column is a null dereference. Each parameter declares the SQL type, length, precision and scale of its column: the builder catalogue's column when there is one, else the row's column. |
| RowUpdates.OutputCatalogued | ResultExtensions.cs:104-112 | One table variable holding the requested columns, each from the catalogue. Each column declares the SQL type, length, precision and scale of its catalogue column, unless a catalogue table named `inserted` knows it. |
| RowUpdates.OutputHasKept | ResultExtensions.cs:104-113 | An installed OUTPUT variable survives a stage that only appends fields. |
| RowUpdates.UpdateBuilder | ResultExtensions.cs:84-115 | Nothing changes when the row has no changes. A row without a table, or without loaded metadata, is a null dereference. Otherwise only the builder's tables and WHERE group change, with a WHERE group exactly when the row has a cached key. |
| RowUpdates.UpdateBuilderAssigns | ResultExtensions.cs:97-112 | After its earlier fields, the target assigns every changed column once and holds the requested OUTPUT columns. |
| RowUpdates.UpdateBuilderOn | ResultExtensions.cs:97-114 | No catalogue table is a null dereference. Only the builder's WHERE group changes, set exactly when the row has a cached key. |
| RowUpdates.SetsAndOutput | ResultExtensions.cs:99-112 | No catalogue table is a null dereference. The target assigns every changed column once and holds the requested OUTPUT columns; the builders are unchanged. |
| Assembler.ColumnKey | Classes.cs:323 | Spaces become underscores. The length is kept and no space is left. A name without spaces is its own key. |
| Assembler.RowValues | Classes.cs:319-342 | Holds exactly the keys of the columns. |
| Assembler.FirstColumnWins | Classes.cs:336 | A column whose key no earlier column has reads back its own value. |
| Assembler.NewRow | Classes.cs:315-344 | The data row's values and column names, with no pending change. With a catalogue table the row records its full name; without one, it has no table and no cached key. |
| Assembler.ColumnIndex | Classes.cs:76 | The position of the named column, if any. |
| Assembler.Matching | Classes.cs:77 | Each row holding the key, as often as it occurs, and no other row. |
| Assembler.FindRows | Classes.cs:76-77 | A missing sort column is an index error. An empty key, or one that does not give one value per sort column, is an argument error. Otherwise exactly the matching rows. |
| Assembler.OneKeyPerRow | Classes.cs:121-137 | No row matches two different keys, so parents with different keys never share a child row. |
| Assembler.LevelMetadata | Classes.cs:84-91 | Nothing without a base table or a catalogue. Otherwise the catalogue's table under the base table's non-empty full name. |
| Assembler.KeyColumns | Classes.cs:67 | The key columns of the level's metadata. Missing metadata or a missing key is a null dereference. |
| Assembler.KeyOf | Classes.cs:67-71 | The row's value of every key column, in key order. A row without one is an argument error. |
| Assembler.ChildFieldName | Classes.cs:104-109 | The builder's name, else `<metadata name>List`. The result holds no `.`, space or `-`, and a name without them is kept. Neither name is a null dereference. |
| Assembler.SubQueriesOf | Classes.cs:116 | One entry per sub-query of the builder, and exactly its sub-queries. |
| Assembler.Span | Classes.cs:116-139 | When defined, at least one: the subtree's own result set. |
| Assembler.Advance | Classes.cs:116-119 | Under the written numbering, the next sibling reads the next set. Under tree order, it reads after the whole subtree. |
| Assembler.Tables | Classes.cs:116-139 | Always includes the sub-query's own result set. |
| Assembler.TreeOrderTablesExact | Classes.cs:116-139 | In tree order, a subtree of n builders reads exactly the n sets from `start` on. |
| Assembler.SiblingOrderRereadsAsWritten | Classes.cs:116-137 | As written, when two sibling sub-queries each have a sub-query, the second sibling reads a set the first one's subtree already reads. |
| Assembler.TreeOrderSecondAfterFirst | Classes.cs:116-139 | In tree order, the second sibling reads only sets after the first one's subtree. |
| Assembler.AttachChild | Classes.cs:121-137 | One parent row and one sub-query. No metadata or no key is a null dereference, a missing key column an argument error, and a search with no key fails. On success the row reads as before on every field except the sub-query's child field. |
| Assembler.AttachChildFinds | Classes.cs:104-137 | The attached child table has one row per found row, in the order found. Child row j reads as the data row `found[j]` outside its own child fields. When the sub-query has no sub-queries, the child rows are exactly the rows of `found`. Every other field of the parent row is unchanged. |
| Assembler.SubTable | Classes.cs:92-144 | A missing child field name is a null dereference. Otherwise the child table is put under that name, and nothing else of the row changes. Child row j reads as the data row `found[j]` outside its own child fields, and without nested sub-queries it is exactly that row. |
| Assembler.AttachAll | Classes.cs:121-138 | Every row of the level gets its child table as `AttachChild` gives it. A failure for any row fails the level. |
| Assembler.Level | Classes.cs:116-139 | A set past the end of the result sets is an index error. Without sub-queries the rows are kept. Each row keeps its columns, table and cached key, and reads as before outside the child fields of the level's sub-queries. |
| Assembler.AssembleWith | Classes.cs:31-82 | No result set is an index error. Sub-queries without metadata are an argument error. Otherwise there is one row per row of the first set, in order. Row i reads as the data row `ds[0].rows[i]` with the base table's metadata, outside the child fields of the sub-queries. |
| Assembler.AssembleAsWritten | Classes.cs:31-82 | The constructor as written: the top level searches with an empty key, and siblings take consecutive sets. |
| Assembler.Assemble | Classes.cs:31-82 | The constructor as intended: every level searches with the parent row's key, and sets are numbered in tree order. |
| Assembler.EmptyKeyAsWritten | Classes.cs:54-77 | As written, a query with a sub-query fails whenever its first result set has a row. |
| Assembler.UnkeyedLevelFails | Classes.cs:77 | A level with rows and sub-queries that searches with the empty key fails. |
| Assembler.AssembleAttachesMatches | Classes.cs:61-78 | Assembled as intended with one sub-query, row i keeps its position. It gets a child table holding the rows of the second set with row i's key, in the order found, each reading as that data row outside its own child fields. |

## Left out

- Database access (`DataSet`, `SqlConnection`, transactions): the result sets of `ResultTable` are a parameter of `Assembler.AssembleWith`.
- Concurrency: `ConcurrentDictionary` is modelled as a map. Its enumeration order is one fixed order per key set (`Collections.Enumerate`), which the library does not promise.
- Culture: the date, double and decimal branches of `GetFieldValue` use the `format` hook of a `Values.Culture` parameter, and `Values.DisplayText` uses its `display` hook for the values it does not spell out, instead of .NET formatting. `decimal.TryParse` in the resolver is its `parseDecimal` hook.
- Assembler.NewRow: stores every value as read. The `DateHandling` conversion of the `RowData` constructor (Classes.cs:324-335), which turns a `DateTime` into its culture text when `ResultTable.DateHandling` is not `None`, is not modelled. It is a per-cell formatting step that depends on the culture, and nothing else in the row or the assembly depends on it.
- Case-insensitive comparison folds ASCII letters only.
- `ToSql(format)` and `string.Format` over the text are not modelled.
- The random temporary-table names of `SubSelect` are not modelled. Nor are `SubSelect`, `AllColumns`, `ConcatColumns`, `Fn`, `Column<T>` with a constant value, or the `ExistsConditionGroup` condition overloads (SqlStatementExtensions.cs:675-824).
- `ToSqlBuilder`, `WithMetadata`, `GetMemberName`, the metadata-driven `Column`/`From` helpers and the `InnerJoin`/`LeftJoin`/`RightJoin`/`CrossJoin` wrappers of MetadataExtensions.cs are not modelled. The wrappers only pass a join kind to `JoinInternal`.
- `ResultExtensions.Select` and `LoadMissingColumns`, the list interface of `ResultTable`, `RowData.Create` and the dynamic-member hooks are not modelled.
- The `removeDublicateFields: true` branch of `CleanSelectList` is not modelled: it removes from a list being enumerated, and `SelectSql` passes `false`.
- The static `DefaultMetadata` and `DefaultCulture` are parameters.
- An exception raised after part of the model was changed returns `Err` and drops the partial changes, because the library does not roll them back.
- .NET `Equals` on values is value equality, including on an attached `ResultTable`.
- Assembler: `DataView.Sort` and `FindRows` are modelled by their documented effect. A missing sort column is an index error. A key whose length differs from the sort columns is an argument error. Rows keep table order within equal keys. Column names match exactly, and the sort string is not parsed.
- Assembler.FindRows: compares key values with exact value equality (`KeyMatches`). `DataView.FindRows` compares strings under the table's culture and `CaseSensitive` setting, which is off by default, and ignores trailing spaces. A string key that differs from the stored value only in case, culture-equivalent characters or trailing spaces finds the row in the library and does not in the model. Culture-aware string comparison is outside this model, like the other culture-dependent steps.
- Assembler: every builder shares one catalogue. Each builder reads one result set, in the order its sub-queries are enumerated.
- Assembler.Span: a sub-query graph deeper than the number of builders (a cycle) gives `Diverges`, where the library would recurse without end.
- QueryModel.TopBuilder: a parent chain longer than the number of builders is reported as `Diverges`, where the library loops forever. Such a chain must revisit a builder, and `TopBuilderOfChain` shows that every chain without a repeat is followed to its end.
- Compiler.ParameterSetup: states the declarations and SET lines by parameter name, not their full text.
- RowUpdates.UpdateBuilder: passes each column's length, precision and scale in that order (`TypeArguments`), where ResultExtensions.cs:102 and 110 pass the length and the scale only. The as-written argument order is kept in `TypeArgumentsAsWritten` and its effect is stated by `ScaleAsPrecisionAsWritten` and `OutputScaleAsPrecisionAsWritten`.
- RowUpdates.UpdateFromRow: with both `outputPrimaryKey` and `outputFields` it keeps the key columns and the requested fields in one OUTPUT table variable (`Outputs`), where the library's second `Output()` call replaces the first. The as-written behaviour is `OutputsAsWritten`.
- Conditions.WhereInternalAllTyped: the type argument `T` is passed as a `ClrType`, and a type the literal encoder does not tell apart is `OtherType`. Which overload a C# call site binds to is decided by the compiler and is not modelled; the foreign-key resolver passes an `object` and so reaches the object overload through `JoinValueCondition`.
- Statements.SetTyped, Statements.InsertValueTyped: the type argument `T` of `Set<T>` and `Value<T>` is not modelled as a type. `SetTyped` takes the value's own type, as `value.GetType()` does. `InsertValueTyped` takes `typeof(T)` as the `declared` parameter. A null value stands for a null reference of a reference type `T`; a value type `T` never gives one.
- Compiler.CleanSelectListRenames: like `CleanSelectListKeeps`, it is stated for a select list in which no field appears twice. A field object listed twice would be renamed while the loop is still passing over it.
- Reserved row keys `__TABLE` and `__PK` live in the same dictionary as the columns in the library. In the model they are separate fields of the row.

## Findings

| source | as written | input that shows it | evidently intended | confidence | as-written member | corrected member |
|---|---|---|---|---|---|---|
| SqlStatementExtensions.cs:1246-1249 | `ElseIf` passes `BranchStatements.Else` to `BranchInternal` | `If(...).Begin(...).ElseIf()` | An ELSE IF branch whose conditions are written | high, not executed | Statements.ElseIfIsElse | Statements.ElseIf |
| Classes.cs:599 | `(o == null && value != null) \|\| !o.Equals(value)` calls `Equals` on a null `o` when both values are null | a column read as null, then set to null | Writing null over null changes nothing | high, not executed | Rows.NullOverNullAsWritten | Rows.Set |
| Classes.cs:599-605 | Writing a column back to the value it was read with keeps the earlier pending change | read 1, set 2, set 1: the row still reads 2 | The row reads 1 again and the change is withdrawn | medium, not executed | Rows.RevertKeepsChangeAsWritten | Rows.SetBackWithdraws |
| ResultExtensions.cs:62-78 | With `outputPrimaryKey` and `outputFields`, `Output()` is called twice, and the second call replaces the table variable holding the key columns | a key column `Id`, output fields `["Name"]` | One OUTPUT table holding `Id` and `Name` | medium, not executed | RowUpdates.KeyOutputLostAsWritten | RowUpdates.Outputs |
| ResultExtensions.cs:102 | `Set(up, key, v, t, dt, c.Length, c.Scale)` binds the scale to the precision parameter | a `decimal(18, 2)` column that the builder's catalogue does not know, declared as `Decimal(2)` | `Decimal(18, 2)` | high, not executed | RowUpdates.ScaleAsPrecisionAsWritten | RowUpdates.AssignCatalogued |
| ResultExtensions.cs:110 | `Column(tpf, s, t, c.Length, c.Scale)` binds the scale to the precision parameter, and the `inserted` table is rarely in the catalogue | a `decimal(18, 2)` output column declared as `Decimal(2)` | `Decimal(18, 2)` | high, not executed | RowUpdates.OutputScaleAsPrecisionAsWritten | RowUpdates.OutputCatalogued |
| Classes.cs:54, 77 | The top level searches with `pk`, which is never filled, instead of `_pk` | a query with one sub-query whose first result set has one row | Each row gets the child rows holding its key | high, not executed | Assembler.EmptyKeyAsWritten | Assembler.AssembleAttachesMatches |
| Classes.cs:116-119, 137 | `SubTable` advances a local copy of `currentTable`, so a sibling sub-query rereads a set its predecessor's subtree read | a builder with two sub-queries that each have a sub-query | Every builder reads its own result set, in tree order | medium, not executed | Assembler.SiblingOrderRereadsAsWritten | Assembler.TreeOrderTablesExact |
