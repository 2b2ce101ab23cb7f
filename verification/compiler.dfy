/** `SqlBuilder.ToSql`: the text of a whole statement. Rendering is not pure
    in the library: a SELECT renames duplicate select-list columns, and
    INSERT, UPDATE and stored procedure calls register the declarations of
    their parameters with the top builder, which writes them in front of its
    own text. Every renderer therefore returns the arena it leaves behind
    together with the text, or the exception the library would throw.

    Sub-queries and parameter declarations live in concurrent dictionaries
    whose enumeration order the library does not fix; the renderers that
    enumerate them are ghost, over the order `Collections.Enumerate` picks. */
module Compiler {
  import opened Outcomes
  import opened Text
  import opened Collections
  import opened Values
  import opened SqlTypes
  import opened QueryModel
  import opened SqlText
  import Statements

  // ---------------------------------------------------------------------------
  // What rendering may change

  /** `b` is `a` after rendering: the same objects and links, where only field
      aliases may differ and builders may have gained declarations (never
      lost or changed one). */
  predicate Extends(a: Arena, b: Arena) {
    b.tables == a.tables && b.groups == a.groups && b.joins == a.joins
    && |b.fields| == |a.fields| && |b.builders| == |a.builders|
    && (forall i :: 0 <= i < |a.fields| ==> b.fields[i] == a.fields[i].(alias := b.fields[i].alias))
    && (forall i :: 0 <= i < |a.builders| ==>
          b.builders[i] == a.builders[i].(declarations := b.builders[i].declarations)
          && DeclarationsKept(a.builders[i].declarations, b.builders[i].declarations))
  }

  predicate DeclarationsKept(m: map<string, string>, n: map<string, string>) {
    forall k :: k in m ==> k in n && n[k] == m[k]
  }

  lemma ExtendsValid(a: Arena, b: Arena)
    requires Valid(a) && Extends(a, b)
    ensures Valid(b)
  {
    assert SizesOf(a) == SizesOf(b);
    forall i | 0 <= i < |b.fields|
      ensures FieldOk(SizesOf(b), b.fields[i])
    {
      assert FieldOk(SizesOf(a), a.fields[i]);
    }
    forall i | 0 <= i < |b.builders|
      ensures BuilderOk(SizesOf(b), b.builders[i])
    {
      assert BuilderOk(SizesOf(a), a.builders[i]);
    }
  }

  lemma ExtendsTrans(a: Arena, b: Arena, c: Arena)
    requires Extends(a, b) && Extends(b, c)
    ensures Extends(a, c)
  {
  }

  lemma ExtendsRefl(a: Arena)
    ensures Extends(a, a)
  {
  }

  // ---------------------------------------------------------------------------
  // Cleaning the select list

  /** `Tables.SelectMany(x => x.FieldList)`. */
  function SelectFields(a: Arena, ts: seq<TableId>): (r: seq<FieldId>)
    requires Valid(a) && AllIn(ts, |a.tables|)
    ensures AllIn(r, |a.fields|)
    ensures forall t :: t in ts ==> forall x :: x in a.tables[t].fields ==> x in r
  {
    if |ts| == 0 then []
    else
      assert TableOk(SizesOf(a), a.tables[ts[0]]);
      a.tables[ts[0]].fields + SelectFields(a, ts[1..])
  }

  /** The alias `CleanSelectList` gives a field whose name is taken. */
  function Renamed(a: Arena, f: Field): string
    requires f.table.Some? && f.table.value < |a.tables|
  {
    a.tables[f.table.value].name + "_" + f.name
  }

  /** The loop of `CleanSelectList(false)` over the fields `ids`, `clean`
      holding the names seen so far: a field whose alias-or-name was seen
      gets the alias `<table name>_<field name>` (its table is dereferenced),
      and that alias is recorded as seen. */
  function CleanFrom(a: Arena, ids: seq<FieldId>, clean: seq<string>): (r: Result<Arena>)
    requires Valid(a) && AllIn(ids, |a.fields|)
    ensures r.Ok? ==> Valid(r.value) && Extends(a, r.value) && r.value.builders == a.builders
    ensures r.Ok? ==> forall i :: 0 <= i < |a.fields| && i !in ids ==> r.value.fields[i] == a.fields[i]
    ensures r.Ok? ==> forall i :: 0 <= i < |a.fields| && r.value.fields[i] != a.fields[i] ==>
      a.fields[i].table.Some? && r.value.fields[i].alias == Some(Renamed(a, a.fields[i]))
    decreases |ids|
  {
    if |ids| == 0 then Ok(a)
    else
      var f := a.fields[ids[0]];
      var s := AliasOrName(f);
      if s !in clean then CleanFrom(a, ids[1..], clean + [s])
      else
        match f.table
        case None => Err(NullReference)
        case Some(t) =>
          assert FieldOk(SizesOf(a), f);
          var alias := Renamed(a, f);
          var a1 := SetField(a, ids[0], f.(alias := Some(alias)));
          CleanFrom(a1, ids[1..], clean + [alias])
  }

  /** The alias-or-name of every listed field. */
  function NamesOf(a: Arena, ids: seq<FieldId>): (r: seq<string>)
    requires AllIn(ids, |a.fields|)
    ensures |r| == |ids| && forall i :: 0 <= i < |ids| ==> r[i] == AliasOrName(a.fields[ids[i]])
  {
    seq(|ids|, i requires 0 <= i < |ids| => AliasOrName(a.fields[ids[i]]))
  }

  /** `SqlBuilder.CleanSelectList(false)` over the builder's tables. */
  function CleanSelectList(a: Arena, b: BuilderId): (r: Result<Arena>)
    requires Valid(a) && b < |a.builders|
    ensures r.Ok? ==> Valid(r.value) && Extends(a, r.value) && r.value.builders == a.builders
    ensures r.Ok? ==> forall i :: 0 <= i < |a.fields| && r.value.fields[i] != a.fields[i] ==>
      i in SelectFields(a, a.builders[b].tables)
      && a.fields[i].table.Some? && r.value.fields[i].alias == Some(Renamed(a, a.fields[i]))
  {
    assert BuilderOk(SizesOf(a), a.builders[b]);
    CleanFrom(a, SelectFields(a, a.builders[b].tables), [])
  }

  /** A select list whose names are already distinct is left as it is. */
  lemma {:induction false} CleanFromDistinct(a: Arena, ids: seq<FieldId>, clean: seq<string>)
    requires Valid(a) && AllIn(ids, |a.fields|)
    requires Distinct(NamesOf(a, ids)) && forall i :: 0 <= i < |ids| ==> AliasOrName(a.fields[ids[i]]) !in clean
    ensures CleanFrom(a, ids, clean) == Ok(a)
    decreases |ids|
  {
    if |ids| > 0 {
      var s := AliasOrName(a.fields[ids[0]]);
      assert NamesOf(a, ids[1..]) == NamesOf(a, ids)[1..];
      forall i | 0 <= i < |ids[1..]|
        ensures AliasOrName(a.fields[ids[1..][i]]) !in clean + [s]
      {
        assert NamesOf(a, ids)[i + 1] != NamesOf(a, ids)[0];
      }
      CleanFromDistinct(a, ids[1..], clean + [s]);
    }
  }

  /** Cleaning renames only duplicates: when no two select-list fields share
      an alias-or-name, `CleanSelectList` changes nothing. */
  lemma CleanSelectListDistinct(a: Arena, b: BuilderId)
    requires Valid(a) && b < |a.builders|
    requires BuilderOk(SizesOf(a), a.builders[b])
    requires Distinct(NamesOf(a, SelectFields(a, a.builders[b].tables)))
    ensures CleanSelectList(a, b) == Ok(a)
  {
    CleanFromDistinct(a, SelectFields(a, a.builders[b].tables), []);
  }

  /** A field whose name repeats an earlier one is renamed after its table. */
  lemma CleanRenamesRepeat(a: Arena, x: FieldId, y: FieldId, t: TableId)
    requires Valid(a) && x < |a.fields| && y < |a.fields| && x != y && t < |a.tables|
    requires AliasOrName(a.fields[x]) == AliasOrName(a.fields[y]) && a.fields[y].table == Some(t)
    ensures CleanFrom(a, [x, y], []).Ok?
    ensures CleanFrom(a, [x, y], []).value.fields[x] == a.fields[x]
    ensures CleanFrom(a, [x, y], []).value.fields[y].alias == Some(a.tables[t].name + "_" + a.fields[y].name)
  {
    var s := AliasOrName(a.fields[x]);
    var alias := Renamed(a, a.fields[y]);
    var a1 := SetField(a, y, a.fields[y].(alias := Some(alias)));
    assert [x, y][1..] == [y] && [y][1..] == [] && [] + [s] == [s];
    assert CleanFrom(a1, [], [s] + [alias]) == Ok(a1);
    assert CleanFrom(a, [y], [s]) == CleanFrom(a1, [], [s] + [alias]);
    assert CleanFrom(a, [x, y], []) == CleanFrom(a, [y], [s]);
  }

  /** One step of `CleanFrom` on a field whose name is new: it is recorded. */
  lemma CleanStepNew(a: Arena, ids: seq<FieldId>, clean: seq<string>)
    requires Valid(a) && AllIn(ids, |a.fields|) && |ids| > 0 && AliasOrName(a.fields[ids[0]]) !in clean
    ensures CleanFrom(a, ids, clean) == CleanFrom(a, ids[1..], clean + [AliasOrName(a.fields[ids[0]])])
  {
  }

  /** One step of `CleanFrom` on a field whose name was seen: it is renamed,
      and the new alias is recorded. */
  lemma CleanStepSeen(a: Arena, ids: seq<FieldId>, clean: seq<string>) returns (a1: Arena)
    requires Valid(a) && AllIn(ids, |a.fields|) && |ids| > 0 && AliasOrName(a.fields[ids[0]]) in clean
    requires CleanFrom(a, ids, clean).Ok?
    ensures a.fields[ids[0]].table.Some? && a.fields[ids[0]].table.value < |a.tables|
    ensures Valid(a1) && a1 == a.(fields := a.fields[ids[0] := a.fields[ids[0]].(alias := Some(Renamed(a, a.fields[ids[0]])))])
    ensures CleanFrom(a, ids, clean) == CleanFrom(a1, ids[1..], clean + [Renamed(a, a.fields[ids[0]])])
  {
    var f := a.fields[ids[0]];
    assert FieldOk(SizesOf(a), f);
    a1 := SetField(a, ids[0], f.(alias := Some(Renamed(a, f))));
  }

  /** The name at `j` is a starting name or repeats an earlier one. */
  predicate SeenAt(names: seq<string>, clean: seq<string>, j: nat)
    requires j < |names|
  {
    names[j] in clean || exists i :: 0 <= i < j && names[i] == names[j]
  }

  /** A name seen at `j` is still seen at `j - 1` once the first name, or an
      alias given in its place when it was seen, is recorded. */
  lemma SeenShift(names: seq<string>, clean: seq<string>, extra: string, j: nat)
    requires 0 < j < |names| && SeenAt(names, clean, j)
    requires names[0] in clean || names[0] == extra
    ensures SeenAt(names[1..], clean + [extra], j - 1)
  {
    var rest := names[1..];
    assert rest[j - 1] == names[j];
    if names[j] !in clean {
      var i :| 0 <= i < j && names[i] == names[j];
      if i > 0 {
        assert rest[i - 1] == names[i];
      }
    }
  }

  /** Cleaning changes at most the first field before passing on to the
      others, so the others keep their fields and names. */
  lemma NamesAfterStep(a: Arena, a1: Arena, ids: seq<FieldId>, g: Field)
    requires Valid(a) && AllIn(ids, |a.fields|) && Distinct(ids) && |ids| > 0
    requires a1 == a.(fields := a.fields[ids[0] := g])
    ensures AllIn(ids[1..], |a1.fields|) && Distinct(ids[1..])
    ensures forall k :: 1 <= k < |ids| ==> a1.fields[ids[k]] == a.fields[ids[k]]
    ensures NamesOf(a1, ids[1..]) == NamesOf(a, ids)[1..]
  {
    DistinctTail(ids);
    forall k | 1 <= k < |ids| ensures a1.fields[ids[k]] == a.fields[ids[k]] {
      assert ids[k] != ids[0];
    }
    forall k | 0 <= k < |ids| - 1 ensures a1.fields[ids[1..][k]] == a.fields[ids[k + 1]] {
      assert ids[1..][k] == ids[k + 1];
    }
  }

  /** A listed field whose alias-or-name was seen before it (a starting name
      or an earlier field's original name) is renamed after its table: every
      name `CleanFrom` passes stays in the names seen. */
  lemma {:induction false} CleanFromRenamesRepeats(a: Arena, ids: seq<FieldId>, clean: seq<string>, j: nat)
    requires Valid(a) && AllIn(ids, |a.fields|) && Distinct(ids)
    requires j < |ids| && CleanFrom(a, ids, clean).Ok? && SeenAt(NamesOf(a, ids), clean, j)
    ensures a.fields[ids[j]].table.Some? && a.fields[ids[j]].table.value < |a.tables|
    ensures CleanFrom(a, ids, clean).value.fields[ids[j]].alias == Some(Renamed(a, a.fields[ids[j]]))
    decreases |ids|, 1
  {
    DistinctTail(ids);
    var names := NamesOf(a, ids);
    if names[0] !in clean {
      CleanStepNew(a, ids, clean);
      if j == 0 {
        assert false;
      }
      NamesAfterStep(a, a, ids, a.fields[ids[0]]);
      SeenShift(names, clean, names[0], j);
      RepeatsLater(a, a, ids, clean, names[0], j);
    } else {
      var a1 := CleanStepSeen(a, ids, clean);
      if j == 0 {
        assert ids[0] !in ids[1..];
      } else {
        NamesAfterStep(a, a1, ids, a1.fields[ids[0]]);
        SeenShift(names, clean, Renamed(a, a.fields[ids[0]]), j);
        RepeatsLater(a, a1, ids, clean, Renamed(a, a.fields[ids[0]]), j);
      }
    }
  }

  /** `CleanFromRenamesRepeats` after the first field's step, which left
      the arena `a1` and recorded `extra`. */
  lemma {:induction false} RepeatsLater(a: Arena, a1: Arena, ids: seq<FieldId>, clean: seq<string>, extra: string, j: nat)
    requires Valid(a1) && AllIn(ids, |a.fields|) && 0 < j < |ids|
    requires AllIn(ids[1..], |a1.fields|) && Distinct(ids[1..])
    requires a1.tables == a.tables && a1.fields[ids[j]] == a.fields[ids[j]]
    requires CleanFrom(a1, ids[1..], clean + [extra]).Ok? && SeenAt(NamesOf(a1, ids[1..]), clean + [extra], j - 1)
    ensures a.fields[ids[j]].table.Some? && a.fields[ids[j]].table.value < |a.tables|
    ensures CleanFrom(a1, ids[1..], clean + [extra]).value.fields[ids[j]].alias == Some(Renamed(a, a.fields[ids[j]]))
    decreases |ids|, 0
  {
    assert ids[1..][j - 1] == ids[j];
    CleanFromRenamesRepeats(a1, ids[1..], clean + [extra], j - 1);
  }

  /** A listed field whose alias-or-name is new (not a starting name, no
      earlier field's original name, and no alias given to an earlier
      field) keeps it. */
  lemma {:induction false} CleanFromKeepsNew(a: Arena, ids: seq<FieldId>, clean: seq<string>, j: nat)
    requires Valid(a) && AllIn(ids, |a.fields|) && Distinct(ids)
    requires j < |ids| && CleanFrom(a, ids, clean).Ok?
    requires AliasOrName(a.fields[ids[j]]) !in clean
    requires forall i :: 0 <= i < j ==> AliasOrName(a.fields[ids[i]]) != AliasOrName(a.fields[ids[j]])
    requires forall i :: 0 <= i < j && a.fields[ids[i]].table.Some? && a.fields[ids[i]].table.value < |a.tables| ==>
               Renamed(a, a.fields[ids[i]]) != AliasOrName(a.fields[ids[j]])
    ensures CleanFrom(a, ids, clean).value.fields[ids[j]] == a.fields[ids[j]]
    decreases |ids|, 1
  {
    var s := AliasOrName(a.fields[ids[0]]);
    DistinctTail(ids);
    if j == 0 {
      CleanStepNew(a, ids, clean);
      assert ids[0] !in ids[1..];
    } else if s !in clean {
      CleanStepNew(a, ids, clean);
      NamesAfterStep(a, a, ids, a.fields[ids[0]]);
      KeepsLater(a, a, ids, clean, s, j);
    } else {
      var a1 := CleanStepSeen(a, ids, clean);
      NamesAfterStep(a, a1, ids, a1.fields[ids[0]]);
      KeepsLater(a, a1, ids, clean, Renamed(a, a.fields[ids[0]]), j);
    }
  }

  /** `CleanFromKeepsNew` after the first field's step, which left the arena
      `a1` and recorded `extra`. */
  lemma {:induction false} KeepsLater(a: Arena, a1: Arena, ids: seq<FieldId>, clean: seq<string>, extra: string, j: nat)
    requires Valid(a1) && AllIn(ids, |a.fields|) && 0 < j < |ids|
    requires AllIn(ids[1..], |a1.fields|) && Distinct(ids[1..])
    requires a1.tables == a.tables && forall k :: 1 <= k < |ids| ==> a1.fields[ids[k]] == a.fields[ids[k]]
    requires CleanFrom(a1, ids[1..], clean + [extra]).Ok?
    requires AliasOrName(a.fields[ids[j]]) !in clean + [extra]
    requires forall i :: 1 <= i < j ==> AliasOrName(a.fields[ids[i]]) != AliasOrName(a.fields[ids[j]])
    requires forall i :: 1 <= i < j && a.fields[ids[i]].table.Some? && a.fields[ids[i]].table.value < |a.tables| ==>
               Renamed(a, a.fields[ids[i]]) != AliasOrName(a.fields[ids[j]])
    ensures CleanFrom(a1, ids[1..], clean + [extra]).value.fields[ids[j]] == a.fields[ids[j]]
    decreases |ids|, 0
  {
    var rest := ids[1..];
    assert rest[j - 1] == ids[j];
    forall i | 0 <= i < j - 1 ensures rest[i] == ids[i + 1] && a1.fields[rest[i]] == a.fields[ids[i + 1]] { }
    CleanFromKeepsNew(a1, rest, clean + [extra], j - 1);
  }

  /** `CleanSelectList`: of two select-list fields sharing an alias-or-name,
      the later one is renamed `<table name>_<field name>`. */
  lemma CleanSelectListRenames(a: Arena, b: BuilderId, i: nat, j: nat)
    requires Valid(a) && b < |a.builders| && BuilderOk(SizesOf(a), a.builders[b])
    requires var ids := SelectFields(a, a.builders[b].tables);
             Distinct(ids) && i < j < |ids| && AliasOrName(a.fields[ids[i]]) == AliasOrName(a.fields[ids[j]])
    ensures var ids := SelectFields(a, a.builders[b].tables);
            var r := CleanSelectList(a, b);
            r.Ok? ==> a.fields[ids[j]].table.Some? && a.fields[ids[j]].table.value < |a.tables|
                      && r.value.fields[ids[j]].alias == Some(Renamed(a, a.fields[ids[j]]))
  {
    var ids := SelectFields(a, a.builders[b].tables);
    if CleanSelectList(a, b).Ok? {
      assert NamesOf(a, ids)[i] == NamesOf(a, ids)[j];
      CleanFromRenamesRepeats(a, ids, [], j);
    }
  }

  /** `CleanSelectList`: a select-list field whose alias-or-name differs from
      every earlier field's, and from every alias generated for one, is left
      as it is. */
  lemma CleanSelectListKeeps(a: Arena, b: BuilderId, j: nat)
    requires Valid(a) && b < |a.builders| && BuilderOk(SizesOf(a), a.builders[b])
    requires var ids := SelectFields(a, a.builders[b].tables);
             Distinct(ids) && j < |ids|
             && (forall i :: 0 <= i < j ==> AliasOrName(a.fields[ids[i]]) != AliasOrName(a.fields[ids[j]]))
             && (forall i :: 0 <= i < j && a.fields[ids[i]].table.Some? && a.fields[ids[i]].table.value < |a.tables| ==>
                   Renamed(a, a.fields[ids[i]]) != AliasOrName(a.fields[ids[j]]))
    ensures var ids := SelectFields(a, a.builders[b].tables);
            var r := CleanSelectList(a, b);
            r.Ok? ==> r.value.fields[ids[j]] == a.fields[ids[j]]
  {
    var ids := SelectFields(a, a.builders[b].tables);
    if CleanSelectList(a, b).Ok? {
      CleanFromKeepsNew(a, ids, [], j);
    }
  }

  /** Cleaning does not make names unique: a field already aliased `T_a`
      followed by two fields named `a` of table `T` ends with `T_a` twice. */
  lemma CleanCollision(a: Arena, x: FieldId, y: FieldId, z: FieldId, t: TableId)
    requires Valid(a) && x < |a.fields| && y < |a.fields| && z < |a.fields| && t < |a.tables|
    requires x != y && y != z && x != z && a.fields[z].table == Some(t)
    requires AliasOrName(a.fields[y]) == AliasOrName(a.fields[z]) && AliasOrName(a.fields[x]) != AliasOrName(a.fields[y])
    requires AliasOrName(a.fields[x]) == a.tables[t].name + "_" + a.fields[z].name
    ensures CleanFrom(a, [x, y, z], []).Ok?
    ensures var r := CleanFrom(a, [x, y, z], []).value;
            AliasOrName(r.fields[x]) == AliasOrName(r.fields[z]) == a.tables[t].name + "_" + a.fields[z].name
  {
    CollisionSteps(a, x, y, z, t);
    var a1 := SetField(a, z, a.fields[z].(alias := Some(Renamed(a, a.fields[z]))));
    assert a1.fields[x] == a.fields[x];
  }

  /** The three steps of `CleanCollision`: only the last field is renamed. */
  lemma CollisionSteps(a: Arena, x: FieldId, y: FieldId, z: FieldId, t: TableId)
    requires Valid(a) && x < |a.fields| && y < |a.fields| && z < |a.fields| && t < |a.tables|
    requires x != y && y != z && x != z && a.fields[z].table == Some(t)
    requires AliasOrName(a.fields[y]) == AliasOrName(a.fields[z]) && AliasOrName(a.fields[x]) != AliasOrName(a.fields[y])
    ensures CleanFrom(a, [x, y, z], []) == Ok(SetField(a, z, a.fields[z].(alias := Some(Renamed(a, a.fields[z])))))
  {
    var sx := AliasOrName(a.fields[x]);
    var sy := AliasOrName(a.fields[y]);
    assert [x, y, z][1..] == [y, z] && [y, z][1..] == [z] && [z][1..] == [];
    CleanStepNew(a, [x, y, z], []);
    assert [] + [sx] == [sx];
    CleanStepNew(a, [y, z], [sx]);
    var a1 := CleanStepSeen(a, [z], [sx] + [sy]);
    assert CleanFrom(a1, [], [sx] + [sy] + [Renamed(a, a.fields[z])]) == Ok(a1);
  }

  lemma DistinctTail<T>(s: seq<T>)
    requires Distinct(s) && |s| > 0
    ensures Distinct(s[1..]) && s[0] !in s[1..]
  {
    forall i, j | 0 <= i < j < |s[1..]| ensures s[1..][i] != s[1..][j] {
      assert s[1..][i] == s[i + 1] && s[1..][j] == s[j + 1];
    }
  }

  // ---------------------------------------------------------------------------
  // Parameter declarations

  /** Whether the library can declare and assign field `f` as a parameter. */
  predicate Prepared(a: Arena, f: Field, culture: Culture)
    requires Valid(a) && FieldOk(SizesOf(a), f)
  {
    IsParameter(f) && DeclareParameter(a, f).Ok? && SetParameter(f, culture).Ok?
  }

  /** The declaration and the assignment line of one parameter; a field that
      is not a parameter fails the library's cast. */
  function SetupOne(a: Arena, f: Field, culture: Culture): (r: Result<((string, string), string)>)
    requires Valid(a) && FieldOk(SizesOf(a), f)
    ensures r.Ok? <==> Prepared(a, f, culture)
    ensures r.Ok? ==> r.value.0 == (ParameterName(f), DeclareParameter(a, f).value)
    ensures !IsParameter(f) ==> r == Err(InvalidCast)
  {
    if !IsParameter(f) then Err(InvalidCast)
    else
      var decl :- DeclareParameter(a, f);
      var assign :- SetParameter(f, culture);
      Ok(((ParameterName(f), decl), assign + "\r\n"))
  }

  /** The declarations and the assignment lines of the parameters of the
      list, in order. */
  function ParameterSetup(a: Arena, ids: seq<FieldId>, culture: Culture): (r: Result<(seq<(string, string)>, string)>)
    requires Valid(a) && AllIn(ids, |a.fields|)
    ensures r.Ok? <==> forall i :: 0 <= i < |ids| ==> Prepared(a, a.fields[ids[i]], culture)
    ensures r.Ok? ==> |r.value.0| == |ids| && forall i :: 0 <= i < |ids| ==> r.value.0[i].0 == ParameterName(a.fields[ids[i]])
    decreases |ids|
  {
    if |ids| == 0 then Ok(([], ""))
    else
      var one :- SetupOne(a, a.fields[ids[0]], culture);
      var rest := ParameterSetup(a, ids[1..], culture);
      PreparedTail(a, ids, culture);
      if rest.Err? then Err(rest.error)
      else
        SetupConcat(a, ids, one.0, rest.value.0);
        Ok(([one.0] + rest.value.0, one.1 + rest.value.1))
  }

  lemma PreparedTail(a: Arena, ids: seq<FieldId>, culture: Culture)
    requires Valid(a) && AllIn(ids, |a.fields|) && |ids| > 0
    ensures (forall i :: 0 <= i < |ids| ==> Prepared(a, a.fields[ids[i]], culture))
            <==> (Prepared(a, a.fields[ids[0]], culture)
                  && forall i :: 0 <= i < |ids[1..]| ==> Prepared(a, a.fields[ids[1..][i]], culture))
  {
    if forall i :: 0 <= i < |ids| ==> Prepared(a, a.fields[ids[i]], culture) {
      forall i | 0 <= i < |ids[1..]| ensures Prepared(a, a.fields[ids[1..][i]], culture) {
        assert ids[1..][i] == ids[i + 1];
      }
    }
    if Prepared(a, a.fields[ids[0]], culture) && forall i :: 0 <= i < |ids[1..]| ==> Prepared(a, a.fields[ids[1..][i]], culture) {
      forall i | 1 <= i < |ids| ensures Prepared(a, a.fields[ids[i]], culture) {
        assert ids[i] == ids[1..][i - 1];
      }
    }
  }

  lemma SetupConcat(a: Arena, ids: seq<FieldId>, x: (string, string), xs: seq<(string, string)>)
    requires AllIn(ids, |a.fields|) && |ids| > 0 && forall i :: 0 <= i < |ids| ==> IsParameter(a.fields[ids[i]])
    requires x.0 == ParameterName(a.fields[ids[0]])
    requires |xs| == |ids| - 1 && forall i :: 0 <= i < |ids[1..]| ==> xs[i].0 == ParameterName(a.fields[ids[1..][i]])
    ensures forall i :: 0 <= i < |ids| ==> ([x] + xs)[i].0 == ParameterName(a.fields[ids[i]])
  {
    forall i | 1 <= i < |ids| ensures ([x] + xs)[i].0 == ParameterName(a.fields[ids[i]]) {
      var j := i - 1;
      assert ids[1..][j] == ids[i];
      assert ([x] + xs)[i] == xs[j];
    }
  }

  /** `AddDeclaration` for each pair in turn: the first text registered
      under a name is kept. */
  function AddDeclarations(m: map<string, string>, ds: seq<(string, string)>): (r: map<string, string>)
    ensures DeclarationsKept(m, r)
    ensures forall i :: 0 <= i < |ds| ==> ds[i].0 in r
    ensures forall k :: k in r ==> k in m || exists i :: 0 <= i < |ds| && ds[i].0 == k
    ensures forall k :: k in r && k !in m ==> exists i :: 0 <= i < |ds| && ds[i] == (k, r[k])
    decreases |ds|
  {
    if |ds| == 0 then m
    else
      var m1 := if ds[0].0 in m then m else m[ds[0].0 := ds[0].1];
      var r := AddDeclarations(m1, ds[1..]);
      assert forall i :: 1 <= i < |ds| ==> ds[i] == ds[1..][i - 1];
      r
  }

  /** Adding one declaration is `SqlBuilder.AddDeclaration`. */
  lemma AddDeclarationsOne(a: Arena, b: BuilderId, name: string, body: string)
    requires Valid(a) && b < |a.builders|
    ensures Declare(a, b, [(name, body)]) == Statements.AddDeclaration(a, b, name, body).0
  {
    var m := a.builders[b].declarations;
    assert AddDeclarations(m, [(name, body)]) == AddDeclarations(if name in m then m else m[name := body], []);
  }

  /** Registers declarations with builder `b`. */
  function Declare(a: Arena, b: BuilderId, ds: seq<(string, string)>): (r: Arena)
    requires Valid(a) && b < |a.builders|
    ensures Valid(r) && Extends(a, r) && r.fields == a.fields
    ensures forall k :: 0 <= k < |a.builders| && k != b ==> r.builders[k] == a.builders[k]
    ensures r.builders[b].declarations == AddDeclarations(a.builders[b].declarations, ds)
  {
    var bl := a.builders[b];
    var r := SetBuilder(a, b, bl.(declarations := AddDeclarations(bl.declarations, ds)));
    assert Extends(a, r);
    r
  }

  // ---------------------------------------------------------------------------
  // Comma lists

  /** The library's accumulation `acc += (acc != "" ? ", " : "") + item`
      (and its variant `acc += acc == "" ? item : ", " + item`). */
  function CommaList(items: seq<string>): string
    decreases |items|
  {
    if |items| == 0 then ""
    else
      var acc := CommaList(items[..|items| - 1]);
      acc + (if acc != "" then ", " else "") + items[|items| - 1]
  }

  /** With non-empty items the accumulation is the items joined by commas. */
  lemma {:induction false} CommaListJoins(items: seq<string>)
    requires forall i :: 0 <= i < |items| ==> items[i] != ""
    ensures CommaList(items) == JoinWith(", ", items)
    decreases |items|
  {
    if |items| > 0 {
      var init := items[..|items| - 1];
      CommaListJoins(init);
      if |items| > 1 {
        assert init[|init| - 1] == items[|items| - 2];
        assert |JoinWith(", ", init)| > 0 by { JoinWithNonEmpty(init); }
      }
    }
  }

  lemma {:induction false} JoinWithNonEmpty(parts: seq<string>)
    requires |parts| > 0 && parts[|parts| - 1] != ""
    ensures JoinWith(", ", parts) != ""
  {
    var s := JoinWith(", ", parts);
    assert |s| >= |parts[|parts| - 1]|;
  }

  // ---------------------------------------------------------------------------
  // Clauses shared by the statements

  /** Each join on its own line. */
  function JoinsSql(a: Arena, js: seq<JoinId>, culture: Culture): (r: Result<string>)
    requires Valid(a) && AllIn(js, |a.joins|)
    ensures r.Ok? <==> forall i :: 0 <= i < |js| ==> JoinSql(a, js[i], culture).Ok?
    ensures r.Ok? ==> (r.value == "" <==> |js| == 0)
    decreases |js|
  {
    if |js| == 0 then Ok("")
    else
      var first :- JoinSql(a, js[0], culture);
      var rest := JoinsSql(a, js[1..], culture);
      JoinsTail(a, js, culture);
      if rest.Err? then Err(rest.error) else Ok(first + "\r\n" + rest.value)
  }

  lemma JoinsTail(a: Arena, js: seq<JoinId>, culture: Culture)
    requires Valid(a) && AllIn(js, |a.joins|) && |js| > 0
    ensures (forall i :: 0 <= i < |js| ==> JoinSql(a, js[i], culture).Ok?)
            <==> (JoinSql(a, js[0], culture).Ok?
                  && forall i :: 0 <= i < |js[1..]| ==> JoinSql(a, js[1..][i], culture).Ok?)
  {
    if forall i :: 0 <= i < |js| ==> JoinSql(a, js[i], culture).Ok? {
      forall i | 0 <= i < |js[1..]| ensures JoinSql(a, js[1..][i], culture).Ok? {
        assert js[1..][i] == js[i + 1];
      }
    }
    if JoinSql(a, js[0], culture).Ok? && forall i :: 0 <= i < |js[1..]| ==> JoinSql(a, js[1..][i], culture).Ok? {
      forall i | 1 <= i < |js| ensures JoinSql(a, js[i], culture).Ok? {
        assert js[i] == js[1..][i - 1];
      }
    }
  }

  /** The WHERE line: left out for an empty condition text, and for a SELECT
      also for the `()` an empty group with empty sub-groups renders. */
  function WhereLine(w: string, skipEmptyParens: bool): (r: string)
    ensures r == "" <==> (w == "" || (skipEmptyParens && w == "()"))
    ensures r != "" ==> r == "WHERE " + w + "\r\n"
  {
    if w == "" || (skipEmptyParens && w == "()") then "" else "WHERE " + w + "\r\n"
  }

  /** `WhereConditions.ToSql()`: a builder whose WHERE group was set to null
      fails. */
  function WhereText(a: Arena, b: BuilderId, culture: Culture): (r: Result<string>)
    requires Valid(a) && b < |a.builders|
    ensures a.builders[b].where.None? ==> r == Err(NullReference)
    ensures a.builders[b].where.Some? ==> r == GroupSql(a, a.builders[b].where.value, culture)
  {
    assert BuilderOk(SizesOf(a), a.builders[b]);
    match a.builders[b].where
    case None => Err(NullReference)
    case Some(g) => GroupSql(a, g, culture)
  }

  /** The OUTPUT parameter of an INSERT or UPDATE target, when it has columns
      to return. */
  function OutputOf(a: Arena, t: TableId): (r: Option<FieldId>)
    requires Valid(a) && t < |a.tables|
    ensures r.Some? ==> r.value < |a.fields| && a.fields[r.value].kind.TableParameterField?
    ensures r.Some? ==> |a.tables[a.fields[r.value].kind.parameterTable].fields| > 0
    ensures !(a.tables[t].kind.InsertIntoTable? || a.tables[t].kind.UpdateTable?) ==> r.None?
  {
    assert TableOk(SizesOf(a), a.tables[t]);
    var o := match a.tables[t].kind
      case InsertIntoTable(o) => o
      case UpdateTable(o) => o
      case _ => None;
    if o.Some? && a.fields[o.value].kind.TableParameterField?
       && (assert FieldOk(SizesOf(a), a.fields[o.value]); |a.tables[a.fields[o.value].kind.parameterTable].fields| > 0)
    then o else None
  }

  /** The declaration of the OUTPUT parameter and the line that selects it
      back, when there is one. */
  function OutputSetup(a: Arena, out: Option<FieldId>, culture: Culture): (r: Result<(seq<(string, string)>, string)>)
    requires Valid(a) && OptIn(out, |a.fields|)
    ensures out.None? ==> r == Ok(([], ""))
    ensures out.Some? ==> (r.Ok? <==> Prepared(a, a.fields[out.value], culture))
    ensures out.Some? && r.Ok? ==>
      r.value.0 == [(ParameterName(a.fields[out.value]), DeclareParameter(a, a.fields[out.value]).value)]
      && r.value.1 != ""
  {
    match out
    case None => Ok(([], ""))
    case Some(o) =>
      assert FieldOk(SizesOf(a), a.fields[o]);
      var one :- SetupOne(a, a.fields[o], culture);
      Ok(([one.0], one.1))
  }

  /** The OUTPUT line of an INSERT or UPDATE. */
  function OutputLine(a: Arena, out: Option<FieldId>, culture: Culture): (r: Result<string>)
    requires Valid(a) && OptIn(out, |a.fields|)
    ensures out.None? ==> r == Ok("")
    ensures out.Some? ==> (r.Ok? <==> FieldSql(a, a.fields[out.value], culture, |a.tables|).Ok?)
    ensures out.Some? && r.Ok? ==> r.value == "OUTPUT  " + FieldSql(a, a.fields[out.value], culture, |a.tables|).value + "\r\n"
  {
    match out
    case None => Ok("")
    case Some(o) =>
      assert FieldOk(SizesOf(a), a.fields[o]);
      var f :- FieldSql(a, a.fields[o], culture, |a.tables|);
      Ok("OUTPUT  " + f + "\r\n")
  }

  /** `AppendLine` of a non-empty line. */
  function LineIfAny(s: string): (r: string)
    ensures (r == "") <==> (s == "")
  {
    if s != "" then s + "\r\n" else ""
  }

  // ---------------------------------------------------------------------------
  // DELETE, INSERT, UPDATE and stored procedure calls

  /** `SqlBuilder.DeleteSql`. */
  function DeleteSql(a: Arena, b: BuilderId, culture: Culture): (r: Result<string>)
    requires Valid(a) && b < |a.builders|
    ensures Statements.BaseTable(a, b).None? ==> r == Err(NullReference)
    ensures r.Ok? ==> Statements.BaseTable(a, b).Some?
    ensures r.Ok? ==>
      var head := DeleteHead(a, Statements.BaseTable(a, b).value);
      var w := WhereText(a, b, culture);
      var joins := JoinsSql(a, a.builders[b].joins, culture);
      w.Ok? && joins.Ok? && Text.StartsWith(r.value, head) && r.value == head + joins.value + WhereLine(w.value, false)
  {
    match Statements.BaseTable(a, b)
    case None => Err(NullReference)
    case Some(t) =>
      assert BuilderOk(SizesOf(a), a.builders[b]);
      var joins :- JoinsSql(a, a.builders[b].joins, culture);
      var w :- WhereText(a, b, culture);
      Ok(Prefixed(DeleteHead(a, t), joins + WhereLine(w, false)))
  }

  function DeleteHead(a: Arena, t: TableId): string
    requires t < |a.tables|
  {
    "DELETE  " + Alias(a.tables[t]) + "\r\n" + "  FROM  " + ReferenceName(a.tables[t]) + "\r\n"
  }

  /** A DELETE without joins and with an empty WHERE group deletes every row
      of its table: its text is the bare `DELETE ... FROM ...`; with a condition
      it ends with `WHERE (...)`. */
  lemma DeleteWhereClause(a: Arena, b: BuilderId, culture: Culture)
    requires Valid(a) && b < |a.builders| && Statements.BaseTable(a, b).Some?
    requires DeleteSql(a, b, culture).Ok?
    ensures var g := a.builders[b].where.value;
            (|a.groups[g].conditions| == 0 && |a.groups[g].subGroups| == 0 && !a.groups[g].kind.ExistsGroup?
             && |a.builders[b].joins| == 0)
            ==> DeleteSql(a, b, culture).value == DeleteHead(a, Statements.BaseTable(a, b).value)
    ensures var g := a.builders[b].where.value;
            (|a.groups[g].conditions| > 0 && !a.groups[g].kind.ExistsGroup?)
            ==> EndsWithOrdinal(DeleteSql(a, b, culture).value, "WHERE " + WhereText(a, b, culture).value + "\r\n")
  {
    var g := a.builders[b].where.value;
    var w := WhereText(a, b, culture).value;
    var head := DeleteHead(a, Statements.BaseTable(a, b).value);
    if |a.groups[g].conditions| == 0 && |a.groups[g].subGroups| == 0 && !a.groups[g].kind.ExistsGroup?
       && |a.builders[b].joins| == 0 {
      assert w == "" && JoinsSql(a, a.builders[b].joins, culture).value == "";
      assert DeleteSql(a, b, culture).value == head + "" + "";
    }
    if |a.groups[g].conditions| > 0 && !a.groups[g].kind.ExistsGroup? {
      assert w != "";
      var r := DeleteSql(a, b, culture).value;
      var tail := "WHERE " + w + "\r\n";
      assert r[|r| - |tail|..] == tail;
    }
  }

  /** The top builder of `b`, which collects the parameter declarations. */
  function TopOf(a: Arena, b: BuilderId): (r: Result<BuilderId>)
    requires Valid(a) && b < |a.builders|
    ensures r == TopBuilder(a, b)
    ensures r.Ok? ==> r.value < |a.builders|
  {
    TopBuilder(a, b)
  }

  /** The declarations an INSERT or UPDATE registers with the top builder
      `tb`: one per parameter of `ids`, then the OUTPUT parameter's. Returns
      the arena, the assignment lines and the line selecting the OUTPUT
      parameter back. */
  function DeclareParameters(a: Arena, tb: BuilderId, ids: seq<FieldId>, out: Option<FieldId>, culture: Culture)
    : (r: Result<(Arena, string, string)>)
    requires Valid(a) && tb < |a.builders| && AllIn(ids, |a.fields|) && OptIn(out, |a.fields|)
    ensures r.Ok? ==> Valid(r.value.0) && Extends(a, r.value.0) && r.value.0.fields == a.fields
    ensures r.Ok? ==> forall k :: 0 <= k < |a.builders| && k != tb ==> r.value.0.builders[k] == a.builders[k]
    ensures r.Ok? ==> forall i :: 0 <= i < |ids| ==> (IsParameter(a.fields[ids[i]])
      && ParameterName(a.fields[ids[i]]) in r.value.0.builders[tb].declarations)
    ensures r.Ok? && out.Some? ==> (IsParameter(a.fields[out.value])
      && ParameterName(a.fields[out.value]) in r.value.0.builders[tb].declarations)
    ensures r.Ok? ==> (r.value.2 == "" <==> out.None?)
    ensures (exists i :: 0 <= i < |ids| && !IsParameter(a.fields[ids[i]])) ==> r.Err?
  {
    var (ds, assigns) :- ParameterSetup(a, ids, culture);
    var (ods, outputSelect) :- OutputSetup(a, out, culture);
    DeclaresSetup(a, tb, ids, out, ds, ods);
    Ok((Declare(a, tb, ds + ods), assigns, outputSelect))
  }

  /** Declaring the parameter setup `ds` and the OUTPUT setup `ods` with
      builder `tb` declares every parameter of `ids` and the OUTPUT one. */
  lemma DeclaresSetup(a: Arena, tb: BuilderId, ids: seq<FieldId>, out: Option<FieldId>,
                      ds: seq<(string, string)>, ods: seq<(string, string)>)
    requires Valid(a) && tb < |a.builders| && AllIn(ids, |a.fields|) && OptIn(out, |a.fields|)
    requires forall i :: 0 <= i < |ids| ==> IsParameter(a.fields[ids[i]])
    requires out.Some? ==> IsParameter(a.fields[out.value])
    requires |ds| == |ids| && forall i :: 0 <= i < |ids| ==> ds[i].0 == ParameterName(a.fields[ids[i]])
    requires out.Some? ==> |ods| == 1 && ods[0].0 == ParameterName(a.fields[out.value])
    ensures var d := Declare(a, tb, ds + ods).builders[tb].declarations;
      (forall i :: 0 <= i < |ids| ==> ParameterName(a.fields[ids[i]]) in d)
      && (out.Some? ==> ParameterName(a.fields[out.value]) in d)
  {
    assert forall i :: 0 <= i < |ids| ==> (ds + ods)[i].0 == ParameterName(a.fields[ids[i]]);
    assert out.Some? ==> (ds + ods)[|ds|].0 == ParameterName(a.fields[out.value]);
  }

  /** The text of an INSERT into table `t`, after its declarations. */
  function InsertText(a: Arena, t: TableId, out: Option<FieldId>, culture: Culture, assigns: string, outputSelect: string)
    : (r: Result<string>)
    requires Valid(a) && t < |a.tables| && OptIn(out, |a.fields|)
    ensures r.Ok? ==> InsertColumnList(a, t).Ok? && FieldParameters(a, t).Ok?
    ensures r.Ok? ==> Text.StartsWith(r.value, assigns + "\r\n" + " INSERT  INTO " + Alias(a.tables[t])
                                               + "(" + InsertColumnList(a, t).value + ")\r\n")
  {
    var columns :- InsertColumnList(a, t);
    var output :- OutputLine(a, out, culture);
    var values :- FieldParameters(a, t);
    Ok(Prefixed(assigns + "\r\n" + " INSERT  INTO " + Alias(a.tables[t]) + "(" + columns + ")\r\n",
                output + "VALUES(" + values + ")\r\n" + LineIfAny(outputSelect)))
  }

  /** `SqlBuilder.InsertSql`: every column of the INSERT target must be a
      parameter; each is declared with the top builder and assigned in front
      of the INSERT, and an OUTPUT parameter with columns is declared, filled
      by `OUTPUT ... INTO` and selected back afterwards. */
  function InsertSql(a: Arena, b: BuilderId, culture: Culture): (r: Result<(Arena, string)>)
    requires Valid(a) && b < |a.builders|
    ensures r.Ok? ==> Valid(r.value.0) && Extends(a, r.value.0) && r.value.0.fields == a.fields
    ensures r.Ok? ==> TopBuilder(a, b).Ok? && Statements.BaseTable(a, b).Some?
    ensures r.Ok? ==> a.tables[Statements.BaseTable(a, b).value].kind.InsertIntoTable?
    ensures r.Ok? ==> forall k :: 0 <= k < |a.builders| && k != TopBuilder(a, b).value ==> r.value.0.builders[k] == a.builders[k]
    ensures r.Ok? ==> var t := a.tables[Statements.BaseTable(a, b).value];
      forall i :: 0 <= i < |t.fields| ==> (IsParameter(a.fields[t.fields[i]])
        && ParameterName(a.fields[t.fields[i]]) in r.value.0.builders[TopBuilder(a, b).value].declarations)
    ensures (TopBuilder(a, b).Ok? && (Statements.BaseTable(a, b).None?
      || !a.tables[Statements.BaseTable(a, b).value].kind.InsertIntoTable?)) ==> r == Err(NullReference)
  {
    var tb :- TopOf(a, b);
    match Statements.BaseTable(a, b)
    case None => Err(NullReference)
    case Some(t) =>
      if !a.tables[t].kind.InsertIntoTable? then Err(NullReference)
      else
        assert TableOk(SizesOf(a), a.tables[t]);
        var out := OutputOf(a, t);
        var (a1, assigns, outputSelect) :- DeclareParameters(a, tb, a.tables[t].fields, out, culture);
        var text :- InsertText(a, t, out, culture, assigns, outputSelect);
        Ok((a1, text))
  }

  /** The text of an UPDATE of table `t` by builder `b`, after its
      declarations. */
  function UpdateText(a: Arena, b: BuilderId, t: TableId, out: Option<FieldId>, culture: Culture, assigns: string, outputSelect: string)
    : (r: Result<string>)
    requires Valid(a) && b < |a.builders| && t < |a.tables| && OptIn(out, |a.fields|)
    ensures r.Ok? ==> UpdateSetList(a, t).Ok? && WhereText(a, b, culture).Ok?
    ensures r.Ok? ==> Text.StartsWith(r.value, "\r\n" + assigns + "\r\n" + "UPDATE  " + a.tables[t].name + "\r\n"
                                               + "   SET  " + UpdateSetList(a, t).value + "\r\n")
  {
    assert BuilderOk(SizesOf(a), a.builders[b]);
    var setList :- UpdateSetList(a, t);
    var output :- OutputLine(a, out, culture);
    var joins :- JoinsSql(a, a.builders[b].joins, culture);
    var w :- WhereText(a, b, culture);
    Ok(Prefixed("\r\n" + assigns + "\r\n" + "UPDATE  " + a.tables[t].name + "\r\n" + "   SET  " + setList + "\r\n",
                output + "  FROM  " + ReferenceName(a.tables[t]) + "\r\n" + joins + WhereLine(w, false)
                + LineIfAny(outputSelect)))
  }

  /** `SqlBuilder.UpdateSql`: the parameter columns of the UPDATE target
      (other columns are skipped) are declared with the top builder and
      assigned in front of the UPDATE, whose SET list assigns them. */
  function UpdateSql(a: Arena, b: BuilderId, culture: Culture): (r: Result<(Arena, string)>)
    requires Valid(a) && b < |a.builders|
    ensures r.Ok? ==> Valid(r.value.0) && Extends(a, r.value.0) && r.value.0.fields == a.fields
    ensures r.Ok? ==> TopBuilder(a, b).Ok? && Statements.BaseTable(a, b).Some?
    ensures r.Ok? ==> a.tables[Statements.BaseTable(a, b).value].kind.UpdateTable?
    ensures r.Ok? ==> forall k :: 0 <= k < |a.builders| && k != TopBuilder(a, b).value ==> r.value.0.builders[k] == a.builders[k]
    ensures r.Ok? ==> var t := a.tables[Statements.BaseTable(a, b).value];
      forall x :: x in t.fields && IsParameter(a.fields[x])
        ==> ParameterName(a.fields[x]) in r.value.0.builders[TopBuilder(a, b).value].declarations
    ensures (TopBuilder(a, b).Ok? && (Statements.BaseTable(a, b).None?
      || !a.tables[Statements.BaseTable(a, b).value].kind.UpdateTable?)) ==> r == Err(NullReference)
  {
    var tb :- TopOf(a, b);
    match Statements.BaseTable(a, b)
    case None => Err(NullReference)
    case Some(t) =>
      if !a.tables[t].kind.UpdateTable? then Err(NullReference)
      else
        assert TableOk(SizesOf(a), a.tables[t]);
        var ids := ParameterIds(a, a.tables[t].fields);
        var out := OutputOf(a, t);
        var (a1, assigns, outputSelect) :- DeclareParameters(a, tb, ids, out, culture);
        var text :- UpdateText(a, b, t, out, culture, assigns, outputSelect);
        assert forall x :: x in a.tables[t].fields && IsParameter(a.fields[x]) ==> x in ids;
        Ok((a1, text))
  }

  /** `StoredProcedure.ReferenceName`. */
  function ProcedureName(p: Procedure): string {
    if NonEmpty(p.schema) then p.schema.value + "." + p.name else p.name
  }

  predicate IsOutputParameter(f: Field) {
    f.kind.ParameterField? && f.kind.isOutput
  }

  /** One argument of the EXEC line: the parameter, marked `OUT` when it is an
      output parameter. */
  function CallItems(a: Arena, ids: seq<FieldId>): (r: seq<string>)
    requires AllIn(ids, |a.fields|) && forall i :: 0 <= i < |ids| ==> IsParameter(a.fields[ids[i]])
    ensures |r| == |ids|
    ensures forall i :: 0 <= i < |ids| ==>
      r[i] == ParameterName(a.fields[ids[i]]) + (if IsOutputParameter(a.fields[ids[i]]) then " OUT" else "")
  {
    seq(|ids|, i requires 0 <= i < |ids| =>
      ParameterName(a.fields[ids[i]]) + (if IsOutputParameter(a.fields[ids[i]]) then " OUT" else ""))
  }

  /** The names of the output parameters, in order. */
  function OutputNames(a: Arena, ids: seq<FieldId>): (r: seq<string>)
    requires AllIn(ids, |a.fields|) && forall i :: 0 <= i < |ids| ==> IsParameter(a.fields[ids[i]])
    ensures forall x :: x in r <==> exists i :: 0 <= i < |ids| && IsOutputParameter(a.fields[ids[i]]) && x == ParameterName(a.fields[ids[i]])
    ensures |r| <= |ids|
    decreases |ids|
  {
    if |ids| == 0 then []
    else
      var rest := OutputNames(a, ids[1..]);
      assert forall i :: 1 <= i < |ids| ==> ids[i] == ids[1..][i - 1];
      var f := a.fields[ids[0]];
      if IsOutputParameter(f) then [ParameterName(f)] + rest else rest
  }

  /** The argument list and the output list of a call, as the library
      accumulates them; with non-empty parameter names these are the items
      joined by commas. */
  function CallList(a: Arena, ids: seq<FieldId>): (r: (string, string))
    requires AllIn(ids, |a.fields|) && forall i :: 0 <= i < |ids| ==> IsParameter(a.fields[ids[i]])
    ensures (forall i :: 0 <= i < |ids| ==> ParameterName(a.fields[ids[i]]) != "") ==>
      r.0 == JoinWith(", ", CallItems(a, ids)) && r.1 == JoinWith(", ", OutputNames(a, ids))
    ensures r.1 == "" <==> forall i :: 0 <= i < |ids| ==> !IsOutputParameter(a.fields[ids[i]]) || ParameterName(a.fields[ids[i]]) == ""
  {
    var calls := CallItems(a, ids);
    var outs := OutputNames(a, ids);
    CallListJoins(a, ids);
    OutputListEmpty(a, ids);
    (CommaList(calls), CommaList(outs))
  }

  lemma CallListJoins(a: Arena, ids: seq<FieldId>)
    requires AllIn(ids, |a.fields|) && forall i :: 0 <= i < |ids| ==> IsParameter(a.fields[ids[i]])
    ensures (forall i :: 0 <= i < |ids| ==> ParameterName(a.fields[ids[i]]) != "") ==>
      CommaList(CallItems(a, ids)) == JoinWith(", ", CallItems(a, ids))
      && CommaList(OutputNames(a, ids)) == JoinWith(", ", OutputNames(a, ids))
  {
    var calls := CallItems(a, ids);
    var outs := OutputNames(a, ids);
    if forall i :: 0 <= i < |ids| ==> ParameterName(a.fields[ids[i]]) != "" {
      CommaListJoins(calls);
      forall j | 0 <= j < |outs| ensures outs[j] != "" {
        assert outs[j] in outs;
      }
      CommaListJoins(outs);
    }
  }

  lemma OutputListEmpty(a: Arena, ids: seq<FieldId>)
    requires AllIn(ids, |a.fields|) && forall i :: 0 <= i < |ids| ==> IsParameter(a.fields[ids[i]])
    ensures CommaList(OutputNames(a, ids)) == "" <==>
      forall i :: 0 <= i < |ids| ==> !IsOutputParameter(a.fields[ids[i]]) || ParameterName(a.fields[ids[i]]) == ""
  {
    var outs := OutputNames(a, ids);
    CommaListEmpty(outs);
    if CommaList(outs) == "" {
      forall i | 0 <= i < |ids| && IsOutputParameter(a.fields[ids[i]])
        ensures ParameterName(a.fields[ids[i]]) == ""
      {
        var x := ParameterName(a.fields[ids[i]]);
        assert x in outs;
        var j :| 0 <= j < |outs| && outs[j] == x;
      }
    }
    if forall i :: 0 <= i < |ids| ==> !IsOutputParameter(a.fields[ids[i]]) || ParameterName(a.fields[ids[i]]) == "" {
      forall j | 0 <= j < |outs|
        ensures outs[j] == ""
      {
        assert outs[j] in outs;
      }
    }
  }

  /** The accumulation is empty exactly when every item is. */
  lemma {:induction false} CommaListEmpty(items: seq<string>)
    ensures CommaList(items) == "" <==> forall i :: 0 <= i < |items| ==> items[i] == ""
    decreases |items|
  {
    if |items| > 0 {
      CommaListEmpty(items[..|items| - 1]);
    }
  }

  /** `StoredProcedure.ToSql`: each parameter is declared with the top
      builder and assigned, the procedure is executed with them, and output
      parameters are selected back. */
  function ProcedureSql(a: Arena, b: BuilderId, culture: Culture): (r: Result<(Arena, string)>)
    requires Valid(a) && b < |a.builders|
    ensures a.builders[b].procedure.None? ==> r == Err(NullReference)
    ensures r.Ok? ==> Valid(r.value.0) && Extends(a, r.value.0) && r.value.0.fields == a.fields
    ensures r.Ok? ==> a.builders[b].procedure.Some? && TopBuilder(a, b).Ok?
    ensures r.Ok? ==> forall k :: 0 <= k < |a.builders| && k != TopBuilder(a, b).value ==> r.value.0.builders[k] == a.builders[k]
    ensures r.Ok? ==> var ps := a.builders[b].procedure.value.parameters;
      forall i :: 0 <= i < |ps| ==> (IsParameter(a.fields[ps[i]])
        && ParameterName(a.fields[ps[i]]) in r.value.0.builders[TopBuilder(a, b).value].declarations)
    ensures r.Ok? ==> Text.StartsWith(r.value.1, "-- Stored procedure\r\n")
  {
    match a.builders[b].procedure
    case None => Err(NullReference)
    case Some(p) =>
      var tb :- TopOf(a, b);
      assert BuilderOk(SizesOf(a), a.builders[b]);
      CallProcedure(a, tb, p, culture)
  }

  /** The parameters of `p` declared with builder `tb`, and the call text. */
  function CallProcedure(a: Arena, tb: BuilderId, p: Procedure, culture: Culture): (r: Result<(Arena, string)>)
    requires Valid(a) && tb < |a.builders| && AllIn(p.parameters, |a.fields|)
    ensures r.Ok? ==> Valid(r.value.0) && Extends(a, r.value.0) && r.value.0.fields == a.fields
    ensures r.Ok? ==> forall k :: 0 <= k < |a.builders| && k != tb ==> r.value.0.builders[k] == a.builders[k]
    ensures r.Ok? ==> forall i :: 0 <= i < |p.parameters| ==> (IsParameter(a.fields[p.parameters[i]])
      && ParameterName(a.fields[p.parameters[i]]) in r.value.0.builders[tb].declarations)
    ensures r.Ok? ==> Text.StartsWith(r.value.1, "-- Stored procedure\r\n")
  {
    var (ds, assigns) :- ParameterSetup(a, p.parameters, culture);
    var a1 := Declare(a, tb, ds);
    assert forall i :: 0 <= i < |p.parameters| ==> ds[i].0 == ParameterName(a.fields[p.parameters[i]]);
    Ok((a1, ProcedureText(a, p, assigns)))
  }

  /** The text of a procedure call once its parameters are assigned: the
      EXEC line, then a SELECT of the output parameters when there are any. */
  function ProcedureText(a: Arena, p: Procedure, assigns: string): (r: string)
    requires AllIn(p.parameters, |a.fields|) && forall i :: 0 <= i < |p.parameters| ==> IsParameter(a.fields[p.parameters[i]])
    ensures Text.StartsWith(r, "-- Stored procedure\r\n")
  {
    var (call, outputs) := CallList(a, p.parameters);
    Prefixed("-- Stored procedure\r\n", assigns + "\r\n"
      + "EXEC " + ProcedureName(p) + " " + call + "\r\n"
      + (if outputs != "" then "SELECT  " + outputs + "\r\n" else ""))
  }

  // ---------------------------------------------------------------------------
  // SELECT

  /** The columns of the later tables, each preceded by a comma; a table
      without columns adds nothing. */
  function SelectListRest(a: Arena, ts: seq<TableId>, culture: Culture): (r: Result<string>)
    requires Valid(a) && AllIn(ts, |a.tables|)
    ensures r.Ok? <==> forall i :: 0 <= i < |ts| ==> TableSql(a, ts[i], culture, |a.tables|).Ok?
    decreases |ts|
  {
    if |ts| == 0 then Ok("")
    else
      var first :- TableSql(a, ts[0], culture, |a.tables|);
      var rest := SelectListRest(a, ts[1..], culture);
      assert forall i :: 1 <= i < |ts| ==> ts[i] == ts[1..][i - 1];
      if rest.Err? then Err(rest.error)
      else Ok((if first != "" then ", " + first else "") + rest.value)
  }

  /** The select list: the base table's columns, then those of every other
      table. */
  function SelectList(a: Arena, ts: seq<TableId>, culture: Culture): (r: Result<string>)
    requires Valid(a) && AllIn(ts, |a.tables|) && |ts| > 0
    ensures r.Ok? ==> (TableSql(a, ts[0], culture, |a.tables|).Ok?
      && Text.StartsWith(r.value, TableSql(a, ts[0], culture, |a.tables|).value))
  {
    var first :- TableSql(a, ts[0], culture, |a.tables|);
    var rest :- SelectListRest(a, ts[1..], culture);
    Ok(Prefixed(first, rest))
  }

  /** The first line of a SELECT: `DISTINCT` exactly when the builder is
      distinct, then `TOP n` exactly when it has a top (`SelectHeadTop`),
      then the list. */
  function SelectHead(distinct: bool, top: Option<int>, list: string): (r: string)
    ensures Text.StartsWith(r, "SELECT ")
    ensures distinct <==> Text.StartsWith(r, "SELECT DISTINCT ")
    ensures !distinct ==> Text.StartsWith(r, "SELECT  ")
    ensures EndsWithOrdinal(r, "  " + list + "\r\n")
  {
    var tail := "  " + list + "\r\n";
    var d := if distinct then "SELECT DISTINCT " else "SELECT  ";
    var t := if top.Some? then "TOP " + IntToString(top.value) else "";
    HeadLayout(d, t, tail);
    d + t + tail
  }

  /** After `SELECT ` and the optional `DISTINCT `, the head holds `TOP n`
      exactly when the builder has a top, and then the list. */
  lemma SelectHeadTop(distinct: bool, top: Option<int>, list: string)
    ensures var r := SelectHead(distinct, top, list);
            var p := if distinct then 16 else 8;
            p <= |r| && (top.Some? <==> Text.StartsWith(r[p..], "TOP "))
            && (top.Some? ==> r[p..] == "TOP " + IntToString(top.value) + "  " + list + "\r\n")
            && (top.None? ==> r[p..] == "  " + list + "\r\n")
  {
    var tail := "  " + list + "\r\n";
    var d := if distinct then "SELECT DISTINCT " else "SELECT  ";
    var t := if top.Some? then "TOP " + IntToString(top.value) else "";
    var r := SelectHead(distinct, top, list);
    HeadLayout(d, t, tail);
    assert r == d + t + tail;
    assert |d| == if distinct then 16 else 8;
    assert r[|d|..] == t + tail;
    if top.Some? {
      ConcatRegroup("TOP ", IntToString(top.value), "  " + list, "\r\n");
    } else {
      assert t + tail == tail;
    }
  }

  lemma ConcatRegroup(x: string, y: string, z: string, w: string)
    ensures (x + y) + (z + w) == x + y + z + w
  {
  }

  lemma HeadLayout(d: string, t: string, tail: string)
    requires d == "SELECT DISTINCT " || d == "SELECT  "
    requires t == "" || Text.StartsWith(t, "TOP ")
    requires |tail| > 0 && tail[0] == ' '
    ensures var r := d + t + tail;
            Text.StartsWith(r, "SELECT ") && (d == "SELECT DISTINCT " <==> Text.StartsWith(r, "SELECT DISTINCT "))
            && |d| <= |r| && r[|d|..] == t + tail && (t != "" <==> Text.StartsWith(r[|d|..], "TOP "))
            && EndsWithOrdinal(r, tail)
  {
    var r := d + t + tail;
    assert r[..|d|] == d;
    assert r[..7] == d[..7];
    assert r[7] == d[7];
    assert r[|d|..] == t + tail;
    if t == "" {
      assert (t + tail)[0] == ' ';
    } else {
      assert (t + tail)[..4] == t[..4];
    }
    assert r[|r| - |tail|..] == tail;
  }

  /** The INTO line of a SELECT ... INTO. */
  function IntoLine(a: Arena, into: Option<TableId>): (r: string)
    requires OptIn(into, |a.tables|)
    ensures into.None? <==> r == ""
  {
    if into.Some? then "  INTO  " + ReferenceName(a.tables[into.value]) + "\r\n" else ""
  }

  /** After a SELECT ... INTO whose temporary table is an output table, the
      temporary table is selected back in its own order. */
  function TempOutput(a: Arena, into: Option<TableId>, culture: Culture): (r: Result<string>)
    requires Valid(a) && OptIn(into, |a.tables|)
    ensures !(into.Some? && a.tables[into.value].kind.TempTable? && a.tables[into.value].kind.outputTable) ==> r == Ok("")
    ensures r.Ok? && r.value != "" ==> Text.StartsWith(r.value, "SELECT  ")
  {
    match into
    case None => Ok("")
    case Some(t) =>
      if a.tables[t].kind.TempTable? && a.tables[t].kind.outputTable then
        assert TableOk(SizesOf(a), a.tables[t]);
        var columns :- TableSql(a, t, culture, |a.tables|);
        var order :- OrderByClause(a, a.tables[t].kind.orderBy);
        Ok(Prefixed("SELECT  ", columns + " FROM " + ReferenceName(a.tables[t]) + "\r\n" + order))
      else Ok("")
  }

  /** The body of a SELECT after its sub-queries are known: the head, the
      INTO line, the FROM line of table `t`, the joins, the WHERE line, the
      ORDER BY clause and the temporary table's output, in that order. */
  function SelectText(a: Arena, b: BuilderId, t: TableId, culture: Culture): (r: Result<string>)
    requires Valid(a) && b < |a.builders| && t < |a.tables| && |a.builders[b].tables| > 0
    ensures r.Ok? ==> WhereText(a, b, culture).Ok?
    ensures r.Ok? ==> Text.StartsWith(r.value, "SELECT ")
    ensures var bl := a.builders[b];
            BuilderOk(SizesOf(a), bl)
            && (r.Ok? <==> (SelectList(a, bl.tables, culture).Ok? && JoinsSql(a, bl.joins, culture).Ok?
                            && WhereText(a, b, culture).Ok? && OrderByClause(a, bl.orderBy).Ok?
                            && TempOutput(a, bl.selectInto, culture).Ok?))
            && (r.Ok? ==>
                  r.value == SelectHead(bl.distinct, bl.top, SelectList(a, bl.tables, culture).value)
                             + IntoLine(a, bl.selectInto)
                             + ("  FROM  " + ReferenceName(a.tables[t]) + "\r\n")
                             + JoinsSql(a, bl.joins, culture).value
                             + WhereLine(WhereText(a, b, culture).value, true)
                             + OrderByClause(a, bl.orderBy).value
                             + TempOutput(a, bl.selectInto, culture).value)
  {
    var bl := a.builders[b];
    assert BuilderOk(SizesOf(a), bl);
    var list :- SelectList(a, bl.tables, culture);
    var joins :- JoinsSql(a, bl.joins, culture);
    var w :- WhereText(a, b, culture);
    var order :- OrderByClause(a, bl.orderBy);
    var post :- TempOutput(a, bl.selectInto, culture);
    var head := SelectHead(bl.distinct, bl.top, list);
    var into := IntoLine(a, bl.selectInto);
    var from := "  FROM  " + ReferenceName(a.tables[t]) + "\r\n";
    var where := WhereLine(w, true);
    var text := Prefixed(head, into + from + joins + where + order + post);
    ConcatSeven(head, into, from, joins, where, order, post);
    Text.StartsWithTrans(text, head, "SELECT ");
    Ok(text)
  }

  /** A compiled SELECT starts with `SELECT DISTINCT ` exactly when the
      builder is distinct. */
  lemma SelectTextDistinct(a: Arena, b: BuilderId, t: TableId, culture: Culture)
    requires Valid(a) && b < |a.builders| && t < |a.tables| && |a.builders[b].tables| > 0
    ensures var r := SelectText(a, b, t, culture);
            r.Ok? ==> (a.builders[b].distinct <==> Text.StartsWith(r.value, "SELECT DISTINCT "))
                      && (!a.builders[b].distinct ==> Text.StartsWith(r.value, "SELECT  "))
  {
    var r := SelectText(a, b, t, culture);
    if r.Ok? {
      var bl := a.builders[b];
      var head := SelectHead(bl.distinct, bl.top, SelectList(a, bl.tables, culture).value);
      HeadOfSeven(head, IntoLine(a, bl.selectInto), "  FROM  " + ReferenceName(a.tables[t]) + "\r\n",
                  JoinsSql(a, bl.joins, culture).value, WhereLine(WhereText(a, b, culture).value, true),
                  OrderByClause(a, bl.orderBy).value, TempOutput(a, bl.selectInto, culture).value);
      DistinctShows(r.value, head, bl.distinct);
      if !bl.distinct {
        Text.StartsWithTrans(r.value, head, "SELECT  ");
      }
    }
  }

  /** A compiled SELECT holds the WHERE line whenever the condition text is
      neither empty nor `()`. */
  lemma SelectTextWhere(a: Arena, b: BuilderId, t: TableId, culture: Culture)
    requires Valid(a) && b < |a.builders| && t < |a.tables| && |a.builders[b].tables| > 0
    ensures var r := SelectText(a, b, t, culture);
            r.Ok? && WhereText(a, b, culture).value != "" && WhereText(a, b, culture).value != "()" ==>
              Occurs("WHERE " + WhereText(a, b, culture).value + "\r\n", r.value)
  {
    var r := SelectText(a, b, t, culture);
    if r.Ok? {
      var bl := a.builders[b];
      WhereOfSeven(SelectHead(bl.distinct, bl.top, SelectList(a, bl.tables, culture).value),
                   IntoLine(a, bl.selectInto), "  FROM  " + ReferenceName(a.tables[t]) + "\r\n",
                   JoinsSql(a, bl.joins, culture).value, WhereLine(WhereText(a, b, culture).value, true),
                   OrderByClause(a, bl.orderBy).value, TempOutput(a, bl.selectInto, culture).value);
    }
  }

  lemma DistinctShows(r: string, head: string, distinct: bool)
    requires Text.StartsWith(r, head)
    requires distinct ==> Text.StartsWith(head, "SELECT DISTINCT ")
    requires !distinct ==> Text.StartsWith(head, "SELECT  ")
    ensures distinct <==> Text.StartsWith(r, "SELECT DISTINCT ")
  {
    if distinct {
      Text.StartsWithTrans(r, head, "SELECT DISTINCT ");
    } else {
      Text.StartsWithTrans(r, head, "SELECT  ");
      assert r[7] == r[..8][7] == ' ';
      assert "SELECT DISTINCT "[7] == 'D';
    }
  }

  lemma HeadOfSeven(h: string, x1: string, x2: string, x3: string, x4: string, x5: string, x6: string)
    ensures Text.StartsWith(h + x1 + x2 + x3 + x4 + x5 + x6, h)
  {
    ConcatSeven(h, x1, x2, x3, x4, x5, x6);
    assert (h + (x1 + x2 + x3 + x4 + x5 + x6))[..|h|] == h;
  }

  lemma WhereOfSeven(h: string, x1: string, x2: string, x3: string, x4: string, x5: string, x6: string)
    ensures Occurs(x4, h + x1 + x2 + x3 + x4 + x5 + x6)
  {
    assert h + x1 + x2 + x3 + x4 + x5 + x6 == (h + x1 + x2 + x3) + x4 + (x5 + x6);
    OccursAt(x4, h + x1 + x2 + x3, x5 + x6);
  }

  lemma ConcatSeven(h: string, x1: string, x2: string, x3: string, x4: string, x5: string, x6: string)
    ensures h + (x1 + x2 + x3 + x4 + x5 + x6) == h + x1 + x2 + x3 + x4 + x5 + x6
  {
  }

  /** `SqlBuilder.SelectSql`: clean the select list, then write SELECT, INTO,
      FROM, the joins, WHERE, ORDER BY, the temporary table's output and
      every sub-query. */
  ghost function SelectSql(a: Arena, b: BuilderId, culture: Culture, fuel: nat): (r: Result<(Arena, string)>)
    requires Valid(a) && b < |a.builders|
    ensures r.Ok? ==> Valid(r.value.0) && Extends(a, r.value.0)
    ensures a.builders[b].ifPart.None? && |a.builders[b].tables| == 0 ==> r.Err?
    ensures r.Ok? ==> Text.StartsWith(r.value.1, "SELECT ")
    ensures r.Ok? ==> (a.builders[b].distinct <==> Text.StartsWith(r.value.1, "SELECT DISTINCT "))
    decreases fuel, 1, 0
  {
    var a1 :- CleanSelectList(a, b);
    match Statements.BaseTable(a1, b)
    case None => Err(NullReference)
    case Some(t) =>
      if |a1.builders[b].tables| == 0 then Err(NullReference)
      else
        var text :- SelectText(a1, b, t, culture);
        assert BuilderOk(SizesOf(a1), a1.builders[b]);
        var subs := ValuesInOrder(a1.builders[b].subQueries);
        var (a2, subText) :- SubQueriesSql(a1, subs, culture, fuel);
        ExtendsTrans(a, a1, a2);
        SelectTextLeads(a1, b, t, culture, subText);
        Ok((a2, Prefixed(text, subText)))
  }

  /** The sub-queries written after the SELECT text leave its head in front. */
  lemma SelectTextLeads(a: Arena, b: BuilderId, t: TableId, culture: Culture, subText: string)
    requires Valid(a) && b < |a.builders| && t < |a.tables| && |a.builders[b].tables| > 0
    requires SelectText(a, b, t, culture).Ok?
    ensures var all := Prefixed(SelectText(a, b, t, culture).value, subText);
            Text.StartsWith(all, "SELECT ")
            && (a.builders[b].distinct <==> Text.StartsWith(all, "SELECT DISTINCT "))
  {
    var text := SelectText(a, b, t, culture).value;
    var all := Prefixed(text, subText);
    Text.StartsWithTrans(all, text, "SELECT ");
    SelectTextDistinct(a, b, t, culture);
    DistinctShows(all, text, a.builders[b].distinct);
  }

  /** Every sub-query, introduced by a `-- Sub Query` comment line. */
  ghost function SubQueriesSql(a: Arena, subs: seq<BuilderId>, culture: Culture, fuel: nat): (r: Result<(Arena, string)>)
    requires Valid(a) && AllIn(subs, |a.builders|)
    ensures r.Ok? ==> Valid(r.value.0) && Extends(a, r.value.0)
    ensures r.Ok? ==> (r.value.1 == "" <==> |subs| == 0)
    decreases fuel, 0, |subs|
  {
    if |subs| == 0 then Ok((a, ""))
    else
      var (a1, first) :- BuilderSql(a, subs[0], culture, fuel);
      var (a2, rest) :- SubQueriesSql(a1, subs[1..], culture, fuel);
      ExtendsTrans(a, a1, a2);
      Ok((a2, "\r\n-- Sub Query\r\n" + first + "\r\n" + rest))
  }

  // ---------------------------------------------------------------------------
  // IF statements

  /** The lines an IF statement starts with, given its condition text: an
      ELSE branch has no condition; IF and ELSE IF write theirs; then
      `BEGIN`. */
  function ConditionHead(branch: BranchStatement, condition: string): (r: string)
    ensures branch == ElseBranch ==> r == "ELSE\r\nBEGIN\r\n"
    ensures branch == IfBranch ==> Text.StartsWith(r, "IF ") && Occurs(condition, r)
    ensures branch == ElseIfBranch ==> Text.StartsWith(r, "ELSE IF ") && Occurs(condition, r)
    ensures EndsWithOrdinal(r, "BEGIN\r\n")
  {
    if branch == ElseBranch then "ELSE\r\nBEGIN\r\n"
    else
      var key := if branch == ElseIfBranch then "ELSE IF " else "IF ";
      var r := key + " " + condition + "\r\n" + "BEGIN\r\n";
      OccursAt(condition, key + " ", "\r\n" + "BEGIN\r\n");
      assert key + " " + condition + ("\r\n" + "BEGIN\r\n") == r;
      assert r[|r| - 7..] == "BEGIN\r\n";
      r
  }

  /** The head of an IF statement of the arena. */
  function IfHead(a: Arena, ip: IfPart, culture: Culture): (r: Result<string>)
    requires Valid(a) && ip.conditions < |a.groups|
    ensures ip.branch == ElseBranch ==> r == Ok("ELSE\r\nBEGIN\r\n")
    ensures ip.branch != ElseBranch ==> (r.Ok? <==> GroupSql(a, ip.conditions, culture).Ok?)
    ensures ip.branch != ElseBranch && r.Ok? ==> Occurs(GroupSql(a, ip.conditions, culture).value, r.value)
  {
    if ip.branch == ElseBranch then Ok(ConditionHead(ElseBranch, ""))
    else
      var c :- GroupSql(a, ip.conditions, culture);
      Ok(ConditionHead(ip.branch, c))
  }

  /** The ELSE IF branch `IfStatement.ElseIf` adds writes a bare ELSE,
      whatever conditions are later given to it; the branch the corrected
      `ElseIf` adds starts with ELSE IF and writes its conditions. */
  lemma ElseIfHeadDropsCondition(a: Arena, s: BuilderId, culture: Culture, condition: string)
    requires Valid(a) && s < |a.builders| && a.builders[s].ifPart.Some?
    ensures var (a1, e) := Statements.ElseIfAsWritten(a, s);
            ConditionHead(a1.builders[e].ifPart.value.branch, condition) == "ELSE\r\nBEGIN\r\n"
    ensures var (a1, e) := Statements.ElseIf(a, s);
            var head := ConditionHead(a1.builders[e].ifPart.value.branch, condition);
            Text.StartsWith(head, "ELSE IF ") && Occurs(condition, head)
  {
  }

  /** `IfStatement.ToSql`: the head, the body, `END`, then every ELSE branch;
      all of it after what the builder itself writes (its declarations when
      it is the top builder), which is produced last so that it includes the
      declarations the body registered. */
  ghost function IfSql(a: Arena, b: BuilderId, culture: Culture, fuel: nat): (r: Result<(Arena, string)>)
    requires Valid(a) && b < |a.builders| && a.builders[b].ifPart.Some?
    ensures r.Ok? ==> Valid(r.value.0) && Extends(a, r.value.0)
    ensures r.Ok? ==> IfHead(a, a.builders[b].ifPart.value, culture).Ok?
    decreases fuel, 4, 0
  {
    var ip := a.builders[b].ifPart.value;
    assert BuilderOk(SizesOf(a), a.builders[b]);
    var head :- IfHead(a, ip, culture);
    var (a1, body) :- BuilderSql(a, ip.body, culture, fuel);
    var (a2, branches) :- BranchesSql(a1, ip.branches, culture, fuel);
    ExtendsTrans(a, a1, a2);
    var (a3, own) :- PlainBuilderSql(a2, b, culture, fuel);
    ExtendsTrans(a, a2, a3);
    Ok((a3, own + "\r\n" + head + body + "\r\n" + "END\r\n" + branches))
  }

  /** The ELSE branches of an IF statement, each on its own lines. */
  ghost function BranchesSql(a: Arena, bs: seq<BuilderId>, culture: Culture, fuel: nat): (r: Result<(Arena, string)>)
    requires Valid(a) && AllIn(bs, |a.builders|)
    ensures r.Ok? ==> Valid(r.value.0) && Extends(a, r.value.0)
    decreases fuel, 0, |bs|
  {
    if |bs| == 0 then Ok((a, ""))
    else
      var (a1, first) :- BuilderSql(a, bs[0], culture, fuel);
      var (a2, rest) :- BranchesSql(a1, bs[1..], culture, fuel);
      ExtendsTrans(a, a1, a2);
      Ok((a2, first + "\r\n" + rest))
  }

  // ---------------------------------------------------------------------------
  // Whole statements

  /** The statement text of a builder, by its statement kind; an IF
      statement's own kind writes nothing. */
  ghost function StatementSql(a: Arena, b: BuilderId, culture: Culture, fuel: nat): (r: Result<(Arena, string)>)
    requires Valid(a) && b < |a.builders|
    ensures r.Ok? ==> Valid(r.value.0) && Extends(a, r.value.0)
    ensures a.builders[b].kind == InsertStatement ==> r == InsertSql(a, b, culture)
    ensures a.builders[b].kind == UpdateStatement ==> r == UpdateSql(a, b, culture)
    ensures a.builders[b].kind == ProcedureStatement ==> r == ProcedureSql(a, b, culture)
    ensures a.builders[b].kind == NoStatement || a.builders[b].kind == IfStatementKind ==> r == Ok((a, ""))
    decreases fuel, 2, 0
  {
    if a.builders[b].kind == SelectStatement then SelectSql(a, b, culture, fuel)
    else OtherStatementSql(a, b, culture)
  }

  /** The statement text of a builder that is not a SELECT. */
  function OtherStatementSql(a: Arena, b: BuilderId, culture: Culture): (r: Result<(Arena, string)>)
    requires Valid(a) && b < |a.builders| && a.builders[b].kind != SelectStatement
    ensures r.Ok? ==> Valid(r.value.0) && Extends(a, r.value.0)
    ensures a.builders[b].kind == InsertStatement ==> r == InsertSql(a, b, culture)
    ensures a.builders[b].kind == UpdateStatement ==> r == UpdateSql(a, b, culture)
    ensures a.builders[b].kind == ProcedureStatement ==> r == ProcedureSql(a, b, culture)
    ensures a.builders[b].kind == NoStatement || a.builders[b].kind == IfStatementKind ==> r == Ok((a, ""))
  {
    match a.builders[b].kind
    case InsertStatement => InsertSql(a, b, culture)
    case UpdateStatement => UpdateSql(a, b, culture)
    case DeleteStatement =>
      var text :- DeleteSql(a, b, culture);
      Ok((a, text))
    case ProcedureStatement => ProcedureSql(a, b, culture)
    case _ => Ok((a, ""))
  }

  /** The declaration lines a top builder writes first. */
  function DeclarationLines(ps: seq<string>): (r: string)
    ensures |ps| == 0 ==> r == ""
    decreases |ps|
  {
    if |ps| == 0 then "" else ps[0] + "\r\n" + DeclarationLines(ps[1..])
  }

  /** Every declaration is written on its own line. */
  lemma {:induction false} DeclarationLinesHave(ps: seq<string>, i: nat)
    requires i < |ps|
    ensures Occurs(ps[i] + "\r\n", DeclarationLines(ps))
    decreases |ps|
  {
    var rest := DeclarationLines(ps[1..]);
    if i == 0 {
      OccursAt(ps[0] + "\r\n", "", rest);
      assert "" + (ps[0] + "\r\n") + rest == DeclarationLines(ps);
    } else {
      DeclarationLinesHave(ps[1..], i - 1);
      OccursSuffix(ps[i] + "\r\n", ps[0] + "\r\n", rest);
    }
  }

  /** `SqlBuilder.ToSql` of a builder that is not an IF statement: the
      statement text, preceded, when the builder is a top builder, by every
      declaration registered with it (including those its own statement just
      registered). */
  ghost function PlainBuilderSql(a: Arena, b: BuilderId, culture: Culture, fuel: nat): (r: Result<(Arena, string)>)
    requires Valid(a) && b < |a.builders|
    ensures r.Ok? ==> Valid(r.value.0) && Extends(a, r.value.0)
    ensures r.Ok? ==> StatementSql(a, b, culture, fuel).Ok? && r.value.0 == StatementSql(a, b, culture, fuel).value.0
    ensures r.Ok? && a.builders[b].parent.Some? ==> r.value.1 == StatementSql(a, b, culture, fuel).value.1 + "\r\n"
    ensures r.Ok? && a.builders[b].parent.None? ==>
      forall k :: k in r.value.0.builders[b].declarations ==>
        Occurs(r.value.0.builders[b].declarations[k] + "\r\n", r.value.1)
    decreases fuel, 3, 0
  {
    var (a1, sql) :- StatementSql(a, b, culture, fuel);
    if a1.builders[b].parent.None? then
      var ps := ValuesInOrder(a1.builders[b].declarations);
      var decls := DeclarationLines(ps);
      DeclarationsWritten(a1.builders[b].declarations, ps, sql + "\r\n");
      Ok((a1, decls + (sql + "\r\n")))
    else Ok((a1, sql + "\r\n"))
  }

  lemma DeclarationsWritten(m: map<string, string>, ps: seq<string>, tail: string)
    requires forall k :: k in m ==> exists i :: 0 <= i < |ps| && ps[i] == m[k]
    ensures forall k :: k in m ==> Occurs(m[k] + "\r\n", DeclarationLines(ps) + tail)
  {
    forall k | k in m
      ensures Occurs(m[k] + "\r\n", DeclarationLines(ps) + tail)
    {
      var i :| 0 <= i < |ps| && ps[i] == m[k];
      DeclarationLinesHave(ps, i);
      OccursPrefix(m[k] + "\r\n", DeclarationLines(ps), tail);
    }
  }

  /** `SqlBuilder.ToSql`: an IF statement writes itself, any other builder
      its statement. Nesting deeper than `fuel` builders means the builders
      form a cycle, on which the library does not terminate. */
  ghost function BuilderSql(a: Arena, b: BuilderId, culture: Culture, fuel: nat): (r: Result<(Arena, string)>)
    requires Valid(a) && b < |a.builders|
    ensures r.Ok? ==> Valid(r.value.0) && Extends(a, r.value.0)
    ensures fuel == 0 ==> r == Err(Diverges)
    ensures fuel > 0 && a.builders[b].ifPart.None? ==> r == PlainBuilderSql(a, b, culture, fuel - 1)
    decreases fuel, 0, 0
  {
    if fuel == 0 then Err(Diverges)
    else if a.builders[b].ifPart.Some? then IfSql(a, b, culture, fuel - 1)
    else PlainBuilderSql(a, b, culture, fuel - 1)
  }

  /** The text of a whole statement, as `ToSql()` on builder `b` returns it. */
  ghost function ToSql(a: Arena, b: BuilderId, culture: Culture): (r: Result<(Arena, string)>)
    requires Valid(a) && b < |a.builders|
    ensures r.Ok? ==> Valid(r.value.0) && Extends(a, r.value.0)
  {
    BuilderSql(a, b, culture, |a.builders|)
  }

  /** A top-level INSERT writes, ahead of the statement, the declaration of
      the parameter behind every column it inserts. */
  lemma InsertDeclaresEveryColumn(a: Arena, b: BuilderId, culture: Culture)
    requires Valid(a) && b < |a.builders|
    requires a.builders[b].parent.None? && a.builders[b].ifPart.None? && a.builders[b].kind == InsertStatement
    requires ToSql(a, b, culture).Ok?
    ensures Statements.BaseTable(a, b).Some?
    ensures var t := a.tables[Statements.BaseTable(a, b).value];
            var (a1, text) := ToSql(a, b, culture).value;
            forall i :: 0 <= i < |t.fields| ==> (IsParameter(a.fields[t.fields[i]])
              && ParameterName(a.fields[t.fields[i]]) in a1.builders[b].declarations
              && Occurs(a1.builders[b].declarations[ParameterName(a.fields[t.fields[i]])] + "\r\n", text))
  {
    assert |a.builders| > 0;
    assert ToSql(a, b, culture) == PlainBuilderSql(a, b, culture, |a.builders| - 1);
    assert StatementSql(a, b, culture, |a.builders| - 1) == InsertSql(a, b, culture);
  }

  /** A top-level procedure call writes the declaration of every parameter it
      passes ahead of the call. */
  lemma ProcedureDeclaresEveryParameter(a: Arena, b: BuilderId, culture: Culture)
    requires Valid(a) && b < |a.builders|
    requires a.builders[b].parent.None? && a.builders[b].ifPart.None? && a.builders[b].kind == ProcedureStatement
    requires ToSql(a, b, culture).Ok?
    ensures a.builders[b].procedure.Some? && AllIn(a.builders[b].procedure.value.parameters, |a.fields|)
    ensures var ps := a.builders[b].procedure.value.parameters;
            var (a1, text) := ToSql(a, b, culture).value;
            forall i :: 0 <= i < |ps| ==> (IsParameter(a.fields[ps[i]])
              && ParameterName(a.fields[ps[i]]) in a1.builders[b].declarations
              && Occurs(a1.builders[b].declarations[ParameterName(a.fields[ps[i]])] + "\r\n", text))
  {
    var fuel := |a.builders| - 1;
    var r := ToSql(a, b, culture);
    assert r == PlainBuilderSql(a, b, culture, fuel);
    var s := StatementSql(a, b, culture, fuel);
    assert s == ProcedureSql(a, b, culture);
    assert TopBuilder(a, b) == Ok(b);
    assert r.value.0 == s.value.0;
    assert BuilderOk(SizesOf(a), a.builders[b]);
  }
}
