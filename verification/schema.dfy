/**
 The schema side of reconciliation (am4894bq/schema.py): BigQuery type inference,
 the schema a frame implies, the two-pass schema diff, the additive remote update
 and the backfill-and-reshape of the frame.

 A BigQuery `SchemaField` is reduced to its name and type tag; field equality is
 equality of both. The remote table is a `Schema` value passed in and returned.
 */
module BqSchema {
  import opened Seqs
  import opened Frame

  /** A BigQuery field type tag such as "INTEGER" or "STRING". */
  type TypeTag = string

  datatype Field = Field(name: Label, kind: TypeTag)

  type Schema = seq<Field>

  /** The field names of a schema, in order. */
  function Names(s: Schema): (r: seq<Label>)
    ensures |r| == |s|
    ensures forall i | 0 <= i < |s| :: r[i] == s[i].name
  {
    seq(|s|, i requires 0 <= i < |s| => s[i].name)
  }

  /** A member's name is among the schema's names. */
  lemma NameInNames(s: Schema, f: Field)
    requires f in s
    ensures f.name in Names(s)
  {
    var i :| 0 <= i < |s| && s[i] == f;
    assert Names(s)[i] == f.name;
  }

  /** The type tag `df_to_bq_schema` falls back to (it never passes its own default). */
  const DefaultType: TypeTag := "STRING"

  /** `dtype_to_bqtype`: 64-bit integer columns become INTEGER, everything else the default. */
  function DtypeToBqType(dtype: Dtype, defaultType: TypeTag): (r: TypeTag)
    ensures r == "INTEGER" || r == defaultType
    ensures dtype == "int64" ==> r == "INTEGER"
    ensures r != defaultType ==> dtype == "int64"
  {
    if dtype == "int64" then "INTEGER" else defaultType
  }

  /** `df_to_bq_schema`: one field per column, in column order, named by the column. */
  function DfToBqSchema(df: Frame): (r: Schema)
    ensures Names(r) == Labels(df)
    ensures forall i | 0 <= i < |r| :: r[i].kind == "INTEGER" <==> df[i].dtype == "int64"
    ensures forall i | 0 <= i < |r| :: r[i].kind == "STRING" <==> df[i].dtype != "int64"
  {
    seq(|df|, i requires 0 <= i < |df| => Field(df[i].name, DtypeToBqType(df[i].dtype, DefaultType)))
  }

  /** The last field of `s` named `n`: the value a dict comprehension keyed by name keeps. */
  function LastWith(s: Schema, n: Label): (f: Field)
    requires n in Names(s)
    ensures f in s && f.name == n
    ensures NoDups(Names(s)) ==> forall i | 0 <= i < |s| && s[i].name == n :: s[i] == f
  {
    var last := s[|s| - 1];
    var front := s[..|s| - 1];
    assert Names(front) == Names(s)[..|s| - 1];
    if last.name == n then last
    else
      assert n in Names(front) by {
        var i :| 0 <= i < |s| && Names(s)[i] == n;
        assert i < |s| - 1;
      }
      LastWith(front, n)
  }

  /** `LastWith` finds the last field of its name: no field after it has that name. */
  lemma {:induction false} LastWithIsLast(s: Schema, n: Label)
    requires n in Names(s)
    ensures IsLastNamed(s, n, LastWith(s, n))
  {
    var last, front := s[|s| - 1], s[..|s| - 1];
    assert Names(front) == Names(s)[..|s| - 1];
    if last.name == n {
      assert NoneNamedAfter(s, |s| - 1, n);
    } else {
      assert n in Names(front) by {
        var i :| 0 <= i < |s| && Names(s)[i] == n;
        assert i < |s| - 1;
      }
      LastWithIsLast(front, n);
      var i :| 0 <= i < |front| && front[i] == LastWith(front, n) && NoneNamedAfter(front, i, n);
      assert s[i] == front[i] && NoneNamedAfter(s, i, n);
    }
  }

  /** No field of `s` after position `i` is named `n`. */
  predicate NoneNamedAfter(s: Schema, i: nat, n: Label) {
    forall j | i < j < |s| :: s[j].name != n
  }

  /** `f` is the last field of `s` named `n`. */
  predicate IsLastNamed(s: Schema, n: Label, f: Field) {
    exists i | 0 <= i < |s| :: s[i] == f && NoneNamedAfter(s, i, n)
  }

  /** `{col.name: col for col in s}` read back as a schema: each name once, at its first
      position, holding the last field of that name. */
  function SchemaDict(s: Schema): (d: Schema)
    ensures Names(d) == Dedup(Names(s))
    ensures forall i | 0 <= i < |d| :: d[i] == LastWith(s, d[i].name)
    ensures forall f | f in d :: f in s
    ensures NoDups(Names(s)) ==> d == s
  {
    var keys := Dedup(Names(s));
    var d := seq(|keys|, i requires 0 <= i < |keys| => LastWith(s, keys[i]));
    if NoDups(Names(s)) then DictOfDistinct(s, keys, d); d else d
  }

  /** With distinct names, looking up every name in order gives the schema back. */
  lemma DictOfDistinct(s: Schema, keys: seq<Label>, d: Schema)
    requires keys == Names(s) && NoDups(keys)
    requires |d| == |keys| && forall i | 0 <= i < |d| :: d[i] == LastWith(s, keys[i])
    ensures d == s
  {
    forall i | 0 <= i < |d| ensures d[i] == s[i] {
      assert s[i].name == keys[i];
    }
  }

  /** One entry of the diff list: `('add', f)`, `('update', old, new)` or `('drop', f)`. */
  datatype Change = Add(field: Field) | Update(before: Field, after: Field) | Drop(field: Field)
  {
    /** The column the entry is about. */
    function Name(): Label {
      match this
      case Add(f) => f.name
      case Update(_, f) => f.name
      case Drop(f) => f.name
    }
  }

  /** The column names of a diff list, entry by entry. */
  function ChangeNames(cs: seq<Change>): (r: seq<Label>)
    ensures |r| == |cs|
    ensures forall i | 0 <= i < |cs| :: r[i] == cs[i].Name()
  {
    seq(|cs|, i requires 0 <= i < |cs| => cs[i].Name())
  }

  /** The entry the first pass emits for the field `f` of the new schema. */
  function NewSideChange(f: Field, oldSchema: Schema): seq<Change> {
    if f.name !in Names(oldSchema) then [Add(f)]
    else if f != LastWith(oldSchema, f.name) then [Update(LastWith(oldSchema, f.name), f)]
    else []
  }

  /** First pass of `schema_diff`, over the new schema's dict `newDict`: `add` for names the
      old schema lacks, `update` for names whose fields differ. */
  function AddsAndUpdates(newDict: Schema, oldSchema: Schema): (r: seq<Change>)
    ensures |r| <= |newDict|
  {
    if newDict == [] then []
    else
      var f := newDict[|newDict| - 1];
      assert newDict == newDict[..|newDict| - 1] + [f];
      AddsAndUpdates(newDict[..|newDict| - 1], oldSchema) + NewSideChange(f, oldSchema)
  }

  /** Second pass of `schema_diff`, over the old schema's dict `oldDict`: `drop` for names
      the new schema lacks. */
  function Drops(oldDict: Schema, newSchema: Schema): (r: seq<Change>)
    ensures |r| <= |oldDict|
  {
    if oldDict == [] then []
    else
      var g := oldDict[|oldDict| - 1];
      assert oldDict == oldDict[..|oldDict| - 1] + [g];
      Drops(oldDict[..|oldDict| - 1], newSchema) + (if g.name !in Names(newSchema) then [Drop(g)] else [])
  }

  /** `schema_diff(old_schema, new_schema)`: the first pass in new-schema order followed
      by the second pass in old-schema order. */
  function SchemaDiff(oldSchema: Schema, newSchema: Schema): (r: seq<Change>)
    ensures |r| <= |newSchema| + |oldSchema|
  {
    AddsAndUpdates(SchemaDict(newSchema), oldSchema) + Drops(SchemaDict(oldSchema), newSchema)
  }

  /** Some entry of the diff list adds a column. */
  predicate HasAdd(diffs: seq<Change>) {
    exists c | c in diffs :: c.Add?
  }

  /** Some entry of the diff list drops a column. */
  predicate HasDrop(diffs: seq<Change>) {
    exists c | c in diffs :: c.Drop?
  }

  /** The fields of the `add` entries whose names the snapshot lacks, in diff order: the
      fields `update_bq_schema` writes, one write each. */
  function PendingAdds(snapshot: Schema, diffs: seq<Change>): (fs: Schema)
    ensures forall f | f in fs :: Add(f) in diffs && f.name !in Names(snapshot)
    ensures forall c | c in diffs && c.Add? && c.field.name !in Names(snapshot) :: c.field in fs
  {
    if diffs == [] then []
    else
      var c := diffs[|diffs| - 1];
      assert diffs == diffs[..|diffs| - 1] + [c];
      PendingAdds(snapshot, diffs[..|diffs| - 1]) +
        (if c.Add? && c.field.name !in Names(snapshot) then [c.field] else [])
  }

  /** What `update_bq_schema` leaves behind: its return value, the schemas it sent with
      `update_table`, in order, and the remote schema afterwards. */
  datatype SchemaUpdate = SchemaUpdate(ok: bool, writes: seq<Schema>, remote: Schema)

  /** The remote store: every schema write replaces the stored schema. */
  function Stored(remote: Schema, writes: seq<Schema>): Schema {
    if writes == [] then remote else writes[|writes| - 1]
  }

  /** One write of the snapshot plus each pending field covers every pending field, and
      each write extends the snapshot. */
  lemma WritesCover(remote: Schema, diffs: seq<Change>, writes: seq<Schema>)
    requires |writes| == |PendingAdds(remote, diffs)|
    requires forall i | 0 <= i < |writes| :: writes[i] == remote + [PendingAdds(remote, diffs)[i]]
    ensures forall w | w in writes :: w[..|remote|] == remote
    ensures forall c | c in diffs && c.Add? && c.field.name !in Names(remote) ::
              remote + [c.field] in writes
  {
    var adds := PendingAdds(remote, diffs);
    forall c | c in diffs && c.Add? && c.field.name !in Names(remote)
      ensures remote + [c.field] in writes
    {
      var i :| 0 <= i < |adds| && adds[i] == c.field;
      assert writes[i] == remote + [c.field];
    }
  }

  /** `update_bq_schema`: read the remote schema once, then for each `add` entry whose
      name that snapshot lacks, write the snapshot plus that one field. */
  function UpdateBqSchema(remote: Schema, diffs: seq<Change>): (r: SchemaUpdate)
    ensures r.ok
    ensures !HasAdd(diffs) ==> r.writes == [] && r.remote == remote
    ensures forall w: Schema | w in r.writes ::
              && |w| == |remote| + 1 && w[..|remote|] == remote
              && Add(w[|remote|]) in diffs && w[|remote|].name !in Names(remote)
    ensures forall c | c in diffs && c.Add? && c.field.name !in Names(remote) ::
              remote + [c.field] in r.writes
    ensures (forall c | c in diffs && c.Add? :: c.field.name in Names(remote)) ==>
              r.writes == [] && r.remote == remote
    ensures r.remote == Stored(remote, r.writes)
    ensures remote <= r.remote && |r.remote| <= |remote| + 1
  {
    if HasAdd(diffs) then
      var adds := PendingAdds(remote, diffs);
      var writes := seq(|adds|, i requires 0 <= i < |adds| => remote + [adds[i]]);
      WritesCover(remote, diffs, writes);
      SchemaUpdate(true, writes, Stored(remote, writes))
    else
      SchemaUpdate(true, [], remote)
  }

  /** The names of the `drop` entries of a diff list. */
  function DroppedNames(diffs: seq<Change>): set<Label> {
    set c | c in diffs && c.Drop? :: c.field.name
  }

  /** The backfill loop of `update_df_schema`: for each `drop` entry, in order, whose name
      the frame does not (yet) have, `df[name] = None`. */
  function Backfill(df: Frame, diffs: seq<Change>): (r: Frame)
    ensures |df| <= |r| && r[..|df|] == df
    ensures forall i | |df| <= i < |r| ::
              && r[i] == Placeholder(r[i].name)
              && r[i].name in DroppedNames(diffs) && r[i].name !in Labels(df)
    ensures forall n | n in DroppedNames(diffs) :: n in Labels(r)
  {
    if diffs == [] then df
    else
      var c := diffs[|diffs| - 1];
      var front := Backfill(df, diffs[..|diffs| - 1]);
      assert diffs == diffs[..|diffs| - 1] + [c];
      if c.Drop? && c.field.name !in Labels(front) then
        var r := front + [Placeholder(c.field.name)];
        assert Labels(r) == Labels(front) + [c.field.name];
        assert r[..|df|] == front[..|df|];
        r
      else front
  }

  /** Backfilling never repeats a label: each placeholder's name was absent when added. */
  lemma {:induction false} BackfillNoDups(df: Frame, diffs: seq<Change>)
    requires NoDups(Labels(df))
    ensures NoDups(Labels(Backfill(df, diffs)))
  {
    if diffs != [] {
      var c := diffs[|diffs| - 1];
      var front := Backfill(df, diffs[..|diffs| - 1]);
      BackfillNoDups(df, diffs[..|diffs| - 1]);
      if c.Drop? && c.field.name !in Labels(front) {
        assert Labels(Backfill(df, diffs)) == Labels(front) + [c.field.name];
      }
    }
  }

  /** Every column of a backfilled frame is one of the frame's own or a placeholder for
      a dropped name the frame lacked. */
  lemma BackfillColumns(df: Frame, diffs: seq<Change>)
    ensures forall c | c in Backfill(df, diffs) ::
              || c in df
              || (c == Placeholder(c.name) && c.name in DroppedNames(diffs) && c.name !in Labels(df))
  {
    var filled := Backfill(df, diffs);
    forall c | c in filled
      ensures || c in df
              || (c == Placeholder(c.name) && c.name in DroppedNames(diffs) && c.name !in Labels(df))
    {
      var i :| 0 <= i < |filled| && filled[i] == c;
      if i < |df| { assert filled[..|df|][i] == c; }
    }
  }

  /** The placeholders are appended in the order of their `drop` entries. */
  lemma {:induction false} BackfillInOrder(df: Frame, diffs: seq<Change>)
    ensures IsSubseq(Labels(Backfill(df, diffs))[|df|..], ChangeNames(diffs))
  {
    if diffs == [] {
      assert Labels(Backfill(df, diffs))[|df|..] == [];
    } else {
      var front, c := diffs[..|diffs| - 1], diffs[|diffs| - 1];
      assert diffs == front + [c];
      BackfillInOrder(df, front);
      var filled := Backfill(df, front);
      var xs, ys := Labels(filled)[|df|..], ChangeNames(front);
      assert ChangeNames(diffs) == ys + [c.Name()];
      if c.Drop? && c.field.name !in Labels(filled) {
        assert Labels(Backfill(df, diffs))[|df|..] == xs + [c.Name()];
        SubseqAppendBoth(xs, ys, c.Name());
      } else {
        assert Backfill(df, diffs) == filled;
        SubseqExtend(xs, ys, c.Name());
      }
    }
  }

  /** `update_df_schema`: backfill the dropped columns, then `df[remote names]`, which
      keeps and orders exactly the remote schema's columns or raises `KeyError`. */
  function UpdateDfSchema(remote: Schema, diffs: seq<Change>, df: Frame): (r: Outcome<Frame>)
    ensures r.Ok? <==> forall n | n in Names(remote) :: n in Labels(df) || n in DroppedNames(diffs)
    ensures r.Ok? && NoDups(Labels(df)) ==> Labels(r.value) == Names(remote)
    ensures r.Ok? ==> forall c | c in r.value ::
              || c in df
              || (c == Placeholder(c.name) && c.name in DroppedNames(diffs) && c.name !in Labels(df))
  {
    var filled := if HasDrop(diffs) then Backfill(df, diffs) else df;
    BackfillColumns(df, diffs);
    assert forall n | n in Labels(filled) :: n in Labels(df) || n in DroppedNames(diffs) by {
      forall n | n in Labels(filled) ensures n in Labels(df) || n in DroppedNames(diffs) {
        var i :| 0 <= i < |filled| && Labels(filled)[i] == n;
        if i < |df| { assert filled[..|df|][i] == filled[i]; }
      }
    }
    assert !HasDrop(diffs) ==> DroppedNames(diffs) == {};
    if NoDups(Labels(df)) && HasDrop(diffs) then
      BackfillNoDups(df, diffs);
      Select(filled, Names(remote))
    else
      Select(filled, Names(remote))
  }
}
