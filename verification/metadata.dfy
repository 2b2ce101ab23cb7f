/** The database catalogue the statement builder resolves names against:
    tables with their columns, foreign keys and indexes, keyed by name in
    unordered dictionaries (modelled as maps). */
module Metadata {
  import opened Outcomes
  import opened Text
  import opened SqlTypes

  datatype MetadataColumn = MetadataColumn(
    name: string,
    sqlType: SqlDbType,
    length: int,
    scale: int,
    precision: int,
    dataType: Option<ClrType>,
    isComputed: bool,
    isIdentity: bool,
    isRowGuid: bool,
    isPrimaryKey: bool,
    isForeignKey: bool,
    nullable: bool,
    includeColumns: Option<seq<string>>,
    displayNames: map<int, string>)

  /** One column pair of a foreign key: `column` of the referencing table points
      at `referencedColumn`. A `name` starting with a double quote marks a
      constant the referenced column must equal instead of a column pair. */
  datatype ColumnReference = ColumnReference(name: string, column: MetadataColumn, referencedColumn: MetadataColumn)

  datatype ForeignKey = ForeignKey(
    name: string,
    references: seq<ColumnReference>,
    referencedSchema: string,
    referencedTable: string,
    referencedKey: string)

  datatype Key = Key(name: string, columns: seq<MetadataColumn>, isUnique: bool, isPrimaryKey: bool)

  datatype MetadataTable = MetadataTable(
    schema: string,
    name: string,
    columns: map<string, MetadataColumn>,
    foreignKeys: map<string, ForeignKey>,
    indexes: map<string, Key>,
    displayNames: map<int, string>,
    titleColumn: Option<string>)

  /** The catalogue: tables keyed (case-sensitively) by their full name. */
  datatype MetadataDatabase = MetadataDatabase(tables: map<string, MetadataTable>)

  // ---------------------------------------------------------------------------
  // Tables

  /** `MetadataTable.Fullname`: the schema-qualified name, or the bare name when
      the schema is empty. */
  function Fullname(t: MetadataTable): (r: string)
    ensures t.schema == "" ==> r == t.name
    ensures t.schema != "" ==> r == t.schema + "." + t.name && '.' in r
  {
    if t.schema != "" then t.schema + "." + t.name else t.name
  }

  /** The database indexer: the table stored under exactly this key, if any. */
  function TableAt(db: MetadataDatabase, key: string): (r: Option<MetadataTable>)
    ensures r.Some? <==> key in db.tables
    ensures r.Some? ==> r.value == db.tables[key]
  {
    if key in db.tables then Some(db.tables[key]) else None
  }

  /** The dictionary key `FindTable` tries first: names without a dot are taken
      to live in the `dbo` schema. */
  function LookupKey(name: string): (r: string)
    ensures '.' in name ==> r == name
    ensures '.' !in name ==> r == "dbo." + name
  {
    if '.' in name then name else "dbo." + name
  }

  predicate KeyEndsWith(key: string, name: string, ignoreCase: bool) {
    if ignoreCase then EndsWithIgnoreCase(key, name) else EndsWithOrdinal(key, name)
  }

  /** The keys `FindTable` falls back to: every key ending with the requested name. */
  function SuffixMatches(db: MetadataDatabase, name: string, ignoreCase: bool): (r: set<string>)
    ensures forall k :: k in r <==> k in db.tables && KeyEndsWith(k, name, ignoreCase)
  {
    set k | k in db.tables && KeyEndsWith(k, name, ignoreCase)
  }

  lemma SingletonElements<T>(s: set<T>, x: T, y: T)
    requires |s| == 1 && x in s && y in s
    ensures x == y
  {
    if x != y {
      assert {x, y} <= s;
      assert |{x, y}| == 2;
      SubsetCardinality({x, y}, s);
    }
  }

  lemma SubsetCardinality<T>(a: set<T>, b: set<T>)
    requires a <= b
    ensures |a| <= |b|
  {
    if a != {} {
      var x :| x in a;
      SubsetCardinality(a - {x}, b - {x});
    }
  }

  /** `MetadataDatabase.FindTable`: the exact key (with `dbo.` added to a name
      without a schema) wins; otherwise the one key ending with the name, and
      nothing when no key or several keys end with it. */
  function FindTable(db: MetadataDatabase, name: string, ignoreCase: bool): (r: Option<MetadataTable>)
    ensures LookupKey(name) in db.tables ==> r == Some(db.tables[LookupKey(name)])
    ensures LookupKey(name) !in db.tables ==>
      (r.Some? <==> |SuffixMatches(db, name, ignoreCase)| == 1)
    ensures LookupKey(name) !in db.tables && r.Some? ==>
      exists k :: k in SuffixMatches(db, name, ignoreCase) && r.value == db.tables[k]
  {
    var key := LookupKey(name);
    if key in db.tables then Some(db.tables[key])
    else
      var matches := SuffixMatches(db, name, ignoreCase);
      if |matches| != 1 then None
      else
        assert forall x, y :: x in matches && y in matches ==> x == y by {
          forall x, y | x in matches && y in matches ensures x == y {
            SingletonElements(matches, x, y);
          }
        }
        var k :| k in matches;
        Some(db.tables[k])
  }

  /** A table filed under its own full name is found by that name whenever the
      name carries a schema. */
  lemma FindTableByFullname(db: MetadataDatabase, t: MetadataTable, ignoreCase: bool)
    requires t.schema != ""
    requires Fullname(t) in db.tables && db.tables[Fullname(t)] == t
    ensures FindTable(db, Fullname(t), ignoreCase) == Some(t)
  {
  }

  /** The key `FindTable` tries first already carries a schema, so it is
      its own lookup key. */
  lemma LookupKeyIdempotent(name: string)
    ensures LookupKey(LookupKey(name)) == LookupKey(name)
  {
    if '.' !in name {
      assert ("dbo." + name)[3] == '.';
    }
  }

  /** Looking a table up by the key the first step tries finds what the
      name finds, and that is what the indexer holds under the key. */
  lemma FindTableByLookupKey(db: MetadataDatabase, name: string, ignoreCase: bool)
    requires LookupKey(name) in db.tables
    ensures FindTable(db, LookupKey(name), ignoreCase) == FindTable(db, name, ignoreCase)
    ensures FindTable(db, name, ignoreCase) == TableAt(db, LookupKey(name))
  {
    LookupKeyIdempotent(name);
  }

  /** Two keys ending with the same requested name make the suffix search give up. */
  lemma {:induction false} FindTableAmbiguousSuffix(db: MetadataDatabase, name: string, ignoreCase: bool, k1: string, k2: string)
    requires LookupKey(name) !in db.tables
    requires k1 in db.tables && k2 in db.tables && k1 != k2
    requires KeyEndsWith(k1, name, ignoreCase) && KeyEndsWith(k2, name, ignoreCase)
    ensures FindTable(db, name, ignoreCase) == None
  {
    var m := SuffixMatches(db, name, ignoreCase);
    assert k1 in m && k2 in m;
    if |m| == 1 {
      SingletonElements(m, k1, k2);
    }
  }

  /** The table indexer: the column stored under exactly this name, if any. */
  function ColumnAt(t: MetadataTable, name: string): (r: Option<MetadataColumn>)
    ensures r.Some? <==> name in t.columns
    ensures r.Some? ==> r.value == t.columns[name]
  {
    if name in t.columns then Some(t.columns[name]) else None
  }

  /** `MetadataTable.PrimaryKey`: some index flagged as the primary key (the
      dictionary's enumeration order decides which when there are several), or
      nothing when no index is. */
  ghost function PrimaryKey(t: MetadataTable): (r: Option<Key>)
    ensures r.None? <==> (forall k :: k in t.indexes.Values ==> !k.isPrimaryKey)
    ensures r.Some? ==> r.value in t.indexes.Values && r.value.isPrimaryKey
  {
    if exists k :: k in t.indexes.Values && k.isPrimaryKey then
      var k :| k in t.indexes.Values && k.isPrimaryKey; Some(k)
    else None
  }

  /** With a single primary-key index there is no choice to make. */
  lemma PrimaryKeyUnique(t: MetadataTable, name: string)
    requires name in t.indexes && t.indexes[name].isPrimaryKey
    requires forall n :: n in t.indexes && n != name ==> !t.indexes[n].isPrimaryKey
    ensures PrimaryKey(t) == Some(t.indexes[name])
  {
    var k := PrimaryKey(t).value;
    assert k in t.indexes.Values;
    var n :| n in t.indexes && t.indexes[n] == k;
  }

  // ---------------------------------------------------------------------------
  // Foreign keys

  /** Some column pair of the key starts at `column`. */
  predicate ReferencesColumn(fk: ForeignKey, column: MetadataColumn) {
    exists i :: 0 <= i < |fk.references| && fk.references[i].column == column
  }

  /** `MetadataTable.FindForeignKeys`: the foreign keys with a pair starting at
      `column`, restricted (case-insensitively) to keys pointing at
      `referencedTable` when one is given. */
  function FindForeignKeys(t: MetadataTable, column: MetadataColumn, referencedTable: Option<string>): (r: set<ForeignKey>)
    ensures forall fk :: fk in r <==>
      fk in t.foreignKeys.Values && ReferencesColumn(fk, column)
      && (referencedTable.None? || EqualsIgnoreCase(fk.referencedTable, referencedTable.value))
  {
    set fk | fk in t.foreignKeys.Values && ReferencesColumn(fk, column)
      && (referencedTable.None? || EqualsIgnoreCase(fk.referencedTable, referencedTable.value))
  }

  /** Naming a referenced table only narrows the search, and it keeps exactly
      the keys pointing at that table. */
  lemma FindForeignKeysNarrows(t: MetadataTable, column: MetadataColumn, table: string)
    ensures FindForeignKeys(t, column, Some(table)) <= FindForeignKeys(t, column, None)
    ensures forall fk :: (fk in FindForeignKeys(t, column, None) && EqualsIgnoreCase(fk.referencedTable, table))
                         ==> fk in FindForeignKeys(t, column, Some(table))
  {
  }

  // ---------------------------------------------------------------------------
  // Columns

  /** `MetadataColumn.IsReadOnly`: computed, identity and row-guid columns
      cannot be assigned. */
  predicate IsReadOnly(c: MetadataColumn) {
    c.isComputed || c.isIdentity || c.isRowGuid
  }

  /** `GetDisplayName(lcid)`: the display name registered for the library's
      default culture, falling back to the plain name. */
  function GetDisplayName(displayNames: map<int, string>, name: string, defaultLcid: int, lcid: int): (r: string)
    ensures defaultLcid in displayNames ==> r == displayNames[defaultLcid]
    ensures defaultLcid !in displayNames ==> r == name
  {
    if defaultLcid in displayNames then displayNames[defaultLcid] else name
  }

  /** The requested culture plays no part: every `lcid` gives the same name. */
  lemma GetDisplayNameIgnoresLcid(displayNames: map<int, string>, name: string, defaultLcid: int, a: int, b: int)
    ensures GetDisplayName(displayNames, name, defaultLcid, a) == GetDisplayName(displayNames, name, defaultLcid, b)
  {
  }
}
