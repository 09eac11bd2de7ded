/**
 Worked cases of the reconciliation on small tables, each derived from the definitions
 step by step. Column names are parameters (any distinct labels will do), so each case
 covers every table of its shape.
 */
module Examples {
  import opened Seqs
  import opened Frame
  import opened BqSchema
  import opened Pd

  /** An int64 column maps to INTEGER, an object column to STRING. */
  lemma BuildSchema(id: Label, name: Label)
    ensures DfToBqSchema([Column(id, "int64", Data(0)), Column(name, "object", Data(1))])
            == [Field(id, "INTEGER"), Field(name, "STRING")]
  {
  }

  /** Against a remote `id, name, age`, the frame's `id, name` yield no `add` or `update`. */
  lemma DropFirstPass(id: Label, name: Label, age: Label)
    requires id != name && id != age && name != age
    ensures var fi, fn, fa := Field(id, "INTEGER"), Field(name, "STRING"), Field(age, "INTEGER");
            AddsAndUpdates([fi, fn], [fi, fn, fa]) == []
  {
    var fi, fn, fa := Field(id, "INTEGER"), Field(name, "STRING"), Field(age, "INTEGER");
    var remote := [fi, fn, fa];
    assert Names(remote) == [id, name, age];
    assert remote[0] == fi && remote[1] == fn;
    assert LastWith(remote, id) == fi && LastWith(remote, name) == fn;
    assert [fi, fn][..1] == [fi] && [fi][..0] == [];
    assert AddsAndUpdates([fi], remote) == [];
  }

  /** Against a frame `id, name`, the remote's `age` yields a `drop`. */
  lemma DropSecondPass(id: Label, name: Label, age: Label)
    requires id != name && id != age && name != age
    ensures var fi, fn, fa := Field(id, "INTEGER"), Field(name, "STRING"), Field(age, "INTEGER");
            Drops([fi, fn, fa], [fi, fn]) == [Drop(fa)]
  {
    var fi, fn, fa := Field(id, "INTEGER"), Field(name, "STRING"), Field(age, "INTEGER");
    var frameSchema := [fi, fn];
    assert Names(frameSchema) == [id, name];
    assert [fi, fn, fa][..2] == frameSchema;
    assert frameSchema[..1] == [fi] && [fi][..0] == [];
    assert Drops([fi], frameSchema) == [];
    assert Drops(frameSchema, frameSchema) == [];
  }

  /** Against a remote `id, name, age`, a frame `id, name` yields one `drop` entry. */
  lemma DropDiff(id: Label, name: Label, age: Label)
    requires id != name && id != age && name != age
    ensures var fi, fn, fa := Field(id, "INTEGER"), Field(name, "STRING"), Field(age, "INTEGER");
            SchemaDiff([fi, fn, fa], [fi, fn]) == [Drop(fa)]
  {
    var fi, fn, fa := Field(id, "INTEGER"), Field(name, "STRING"), Field(age, "INTEGER");
    assert Names([fi, fn, fa]) == [id, name, age];
    assert Names([fi, fn]) == [id, name];
    assert SchemaDict([fi, fn, fa]) == [fi, fn, fa] && SchemaDict([fi, fn]) == [fi, fn];
    DropFirstPass(id, name, age);
    DropSecondPass(id, name, age);
  }

  /** The `drop` of `age` backfills an all-`None` `age` column, which the remote order
      puts last. */
  lemma DropReshape(id: Label, name: Label, age: Label)
    requires id != name && id != age && name != age
    ensures var df := [Column(id, "int64", Data(0)), Column(name, "object", Data(1))];
            var remote := [Field(id, "INTEGER"), Field(name, "STRING"), Field(age, "INTEGER")];
            UpdateDfSchema(remote, [Drop(Field(age, "INTEGER"))], df) == Ok(df + [Placeholder(age)])
  {
    var df := [Column(id, "int64", Data(0)), Column(name, "object", Data(1))];
    var remote := [Field(id, "INTEGER"), Field(name, "STRING"), Field(age, "INTEGER")];
    var diffs := [Drop(Field(age, "INTEGER"))];
    assert diffs[0] in diffs;
    assert HasDrop(diffs);
    assert Labels(df) == [id, name];
    assert diffs[..0] == [];
    var filled := df + [Placeholder(age)];
    assert Backfill(df, diffs) == filled;
    assert Labels(filled) == Names(remote);
    SelectIdentity(filled);
  }

  /** A remote column the frame lacks stays in the table untouched, and comes back into
      the frame as an all-`None` column in the remote position. */
  lemma DroppedColumnBackfilled(id: Label, name: Label, age: Label)
    requires id != name && id != age && name != age
    ensures var df := [Column(id, "int64", Data(0)), Column(name, "object", Data(1))];
            var remote := [Field(id, "INTEGER"), Field(name, "STRING"), Field(age, "INTEGER")];
            var diffs := SchemaDiff(remote, DfToBqSchema(df));
            && diffs == [Drop(Field(age, "INTEGER"))]
            && UpdateBqSchema(remote, diffs) == SchemaUpdate(true, [], remote)
            && UpdateDfSchema(remote, diffs, df) == Ok(df + [Placeholder(age)])
  {
    BuildSchema(id, name);
    DropDiff(id, name, age);
    assert !HasAdd([Drop(Field(age, "INTEGER"))]);
    DropReshape(id, name, age);
  }

  /** Against a remote `id`, the frame's `extra` yields an `add`. */
  lemma AddFirstPass(id: Label, extra: Label)
    requires id != extra
    ensures var fi, fe := Field(id, "INTEGER"), Field(extra, "STRING");
            AddsAndUpdates([fi, fe], [fi]) == [Add(fe)]
  {
    var fi, fe := Field(id, "INTEGER"), Field(extra, "STRING");
    assert Names([fi]) == [id];
    assert LastWith([fi], id) == fi;
    assert [fi, fe][..1] == [fi] && [fi][..0] == [];
    assert AddsAndUpdates([fi], [fi]) == [];
  }

  /** Against a remote `id`, a frame `id, extra` yields one `add` entry. */
  lemma AddDiff(id: Label, extra: Label)
    requires id != extra
    ensures var fi, fe := Field(id, "INTEGER"), Field(extra, "STRING");
            SchemaDiff([fi], [fi, fe]) == [Add(fe)]
  {
    var fi, fe := Field(id, "INTEGER"), Field(extra, "STRING");
    assert Names([fi]) == [id];
    assert Names([fi, fe]) == [id, extra];
    assert SchemaDict([fi]) == [fi] && SchemaDict([fi, fe]) == [fi, fe];
    AddFirstPass(id, extra);
    assert Drops([fi], [fi, fe]) == [];
  }

  /** One `add` entry is one write of the snapshot plus the new field. */
  lemma AddUpdate(id: Label, extra: Label)
    requires id != extra
    ensures var fi, fe := Field(id, "INTEGER"), Field(extra, "STRING");
            UpdateBqSchema([fi], [Add(fe)]) == SchemaUpdate(true, [[fi, fe]], [fi, fe])
  {
    var fi, fe := Field(id, "INTEGER"), Field(extra, "STRING");
    assert Names([fi]) == [id];
    OneNewAdd([fi], fe);
    assert [fi] + [fe] == [fi, fe];
  }

  /** A diff holding one `add` of a new column writes the snapshot plus that field once. */
  lemma OneNewAdd(remote: Schema, f: Field)
    requires f.name !in Names(remote)
    ensures UpdateBqSchema(remote, [Add(f)]) == SchemaUpdate(true, [remote + [f]], remote + [f])
  {
    var diffs := [Add(f)];
    assert diffs[0] in diffs && diffs[..0] == [];
    assert HasAdd(diffs);
    assert PendingAdds(remote, diffs) == [f];
  }

  /** After the write the frame already has the remote columns in the remote order. */
  lemma AddReshape(id: Label, extra: Label)
    requires id != extra
    ensures var df := [Column(id, "int64", Data(0)), Column(extra, "object", Data(1))];
            UpdateDfSchema([Field(id, "INTEGER"), Field(extra, "STRING")], [Add(Field(extra, "STRING"))], df) == Ok(df)
  {
    var df := [Column(id, "int64", Data(0)), Column(extra, "object", Data(1))];
    assert !HasDrop([Add(Field(extra, "STRING"))]);
    assert Labels(df) == Names([Field(id, "INTEGER"), Field(extra, "STRING")]);
    SelectIdentity(df);
  }

  /** A frame column the remote lacks is added to the table, typed from its dtype, and
      the frame keeps it. */
  lemma NewColumnAdded(id: Label, extra: Label)
    requires id != extra
    ensures var df := [Column(id, "int64", Data(0)), Column(extra, "object", Data(1))];
            var fi, fe := Field(id, "INTEGER"), Field(extra, "STRING");
            var diffs := SchemaDiff([fi], DfToBqSchema(df));
            var u := UpdateBqSchema([fi], diffs);
            && diffs == [Add(fe)]
            && u == SchemaUpdate(true, [[fi, fe]], [fi, fe])
            && UpdateDfSchema(u.remote, diffs, df) == Ok(df)
  {
    BuildSchema(id, extra);
    AddDiff(id, extra);
    AddUpdate(id, extra);
    AddReshape(id, extra);
  }

  /** Against a remote `id`, the frame's `x` and `y` yield an `add` each. */
  lemma TwoAddsFirstPass(id: Label, x: Label, y: Label)
    requires id != x && id != y && x != y
    ensures var fi, fx, fy := Field(id, "INTEGER"), Field(x, "STRING"), Field(y, "STRING");
            AddsAndUpdates([fi, fx, fy], [fi]) == [Add(fx), Add(fy)]
  {
    var fi, fx, fy := Field(id, "INTEGER"), Field(x, "STRING"), Field(y, "STRING");
    assert Names([fi]) == [id];
    assert LastWith([fi], id) == fi;
    assert [fi, fx, fy][..2] == [fi, fx] && [fi, fx][..1] == [fi] && [fi][..0] == [];
    assert AddsAndUpdates([fi], [fi]) == [];
    assert AddsAndUpdates([fi, fx], [fi]) == [Add(fx)];
  }

  /** Against a remote `id`, a frame `id, x, y` yields two `add` entries. */
  lemma TwoAddsDiff(id: Label, x: Label, y: Label)
    requires id != x && id != y && x != y
    ensures var fi, fx, fy := Field(id, "INTEGER"), Field(x, "STRING"), Field(y, "STRING");
            SchemaDiff([fi], [fi, fx, fy]) == [Add(fx), Add(fy)]
  {
    var fi, fx, fy := Field(id, "INTEGER"), Field(x, "STRING"), Field(y, "STRING");
    assert Names([fi]) == [id];
    assert Names([fi, fx, fy]) == [id, x, y];
    assert SchemaDict([fi]) == [fi] && SchemaDict([fi, fx, fy]) == [fi, fx, fy];
    TwoAddsFirstPass(id, x, y);
    assert Drops([fi], [fi, fx, fy]) == [];
  }

  /** Both `add` entries name fields the snapshot lacks. */
  lemma TwoPending(id: Label, x: Label, y: Label)
    requires id != x && id != y && x != y
    ensures var fi, fx, fy := Field(id, "INTEGER"), Field(x, "STRING"), Field(y, "STRING");
            PendingAdds([fi], [Add(fx), Add(fy)]) == [fx, fy]
  {
    var fi, fx, fy := Field(id, "INTEGER"), Field(x, "STRING"), Field(y, "STRING");
    var diffs := [Add(fx), Add(fy)];
    assert Names([fi]) == [id];
    assert diffs[..1] == [Add(fx)] && diffs[..1][..0] == [];
    assert PendingAdds([fi], diffs[..1]) == [fx];
  }

  /** Two `add` entries: two writes, each of the one snapshot plus one field, the second
      replacing the first. */
  lemma TwoAddsUpdate(id: Label, x: Label, y: Label)
    requires id != x && id != y && x != y
    ensures var fi, fx, fy := Field(id, "INTEGER"), Field(x, "STRING"), Field(y, "STRING");
            UpdateBqSchema([fi], [Add(fx), Add(fy)]) == SchemaUpdate(true, [[fi, fx], [fi, fy]], [fi, fy])
  {
    var fi, fx, fy := Field(id, "INTEGER"), Field(x, "STRING"), Field(y, "STRING");
    var diffs := [Add(fx), Add(fy)];
    assert diffs[0] in diffs;
    TwoPending(id, x, y);
    TwoWrites([fi], diffs, fx, fy);
    assert [fi] + [fx] == [fi, fx] && [fi] + [fy] == [fi, fy];
  }

  /** Two pending fields make two writes, the stored schema being the second. */
  lemma TwoWrites(remote: Schema, diffs: seq<Change>, f: Field, g: Field)
    requires HasAdd(diffs) && PendingAdds(remote, diffs) == [f, g]
    ensures UpdateBqSchema(remote, diffs) == SchemaUpdate(true, [remote + [f], remote + [g]], remote + [g])
  {
  }


  /** Two columns drawn from a three-column frame with distinct labels, labelled like
      its first and last, are its first and last. */
  lemma FirstAndLast(df: Frame, o: Frame)
    requires |df| == 3 && NoDups(Labels(df))
    requires forall c | c in o :: c in df
    requires Labels(o) == [df[0].name, df[2].name]
    ensures o == [df[0], df[2]]
  {
    assert o[0] in o && o[1] in o;
    ColumnByLabel(df, o[0], 0);
    ColumnByLabel(df, o[1], 2);
  }

  /** Reshaping `id, x, y` to the stored `id, y` drops `x`. */
  lemma TwoAddsReshape(id: Label, x: Label, y: Label)
    requires id != x && id != y && x != y
    ensures var df := [Column(id, "int64", Data(0)), Column(x, "object", Data(1)), Column(y, "object", Data(2))];
            var fi, fx, fy := Field(id, "INTEGER"), Field(x, "STRING"), Field(y, "STRING");
            UpdateDfSchema([fi, fy], [Add(fx), Add(fy)], df) == Ok([df[0], df[2]])
  {
    var df := [Column(id, "int64", Data(0)), Column(x, "object", Data(1)), Column(y, "object", Data(2))];
    var fi, fx, fy := Field(id, "INTEGER"), Field(x, "STRING"), Field(y, "STRING");
    var diffs := [Add(fx), Add(fy)];
    assert Labels(df) == [id, x, y];
    assert NoDups(Labels(df));
    assert Names([fi, fy]) == [id, y];
    assert DroppedNames(diffs) == {};
    var o := UpdateDfSchema([fi, fy], diffs, df);
    assert o.Ok? && Labels(o.value) == [id, y];
    FirstAndLast(df, o.value);
  }

  /** Two new columns: both writes start from the one snapshot, so the second replaces
      the first; the table ends with `id, y`, and the frame is cut down to match, losing
      `x` altogether. */
  lemma StaleSnapshotExample(id: Label, x: Label, y: Label)
    requires id != x && id != y && x != y
    ensures var df := [Column(id, "int64", Data(0)), Column(x, "object", Data(1)), Column(y, "object", Data(2))];
            var fi, fx, fy := Field(id, "INTEGER"), Field(x, "STRING"), Field(y, "STRING");
            var diffs := SchemaDiff([fi], DfToBqSchema(df));
            var u := UpdateBqSchema([fi], diffs);
            && diffs == [Add(fx), Add(fy)]
            && u == SchemaUpdate(true, [[fi, fx], [fi, fy]], [fi, fy])
            && UpdateDfSchema(u.remote, diffs, df) == Ok([df[0], df[2]])
  {
    var df := [Column(id, "int64", Data(0)), Column(x, "object", Data(1)), Column(y, "object", Data(2))];
    assert DfToBqSchema(df) == [Field(id, "INTEGER"), Field(x, "STRING"), Field(y, "STRING")];
    TwoAddsDiff(id, x, y);
    TwoAddsUpdate(id, x, y);
    TwoAddsReshape(id, x, y);
  }

  /** The default sanitiser on one name: each bad character becomes '_'. */
  lemma SanitizeDefault(s: string, expected: string)
    requires |s| == |expected|
    requires forall i | 0 <= i < |s| :: expected[i] == if s[i] in BadChars then '_' else s[i]
    ensures Sanitize(s, BadChars, CharDefault) == expected
  {
  }

  /** '.' is a default bad character. */
  lemma DotReplaced()
    ensures Sanitize("a.b", BadChars, CharDefault) == "a_b"
  {
    SanitizeDefault("a.b", "a_b");
  }

  /** '#' is a default bad character. */
  lemma HashReplaced()
    ensures Sanitize("c#d", BadChars, CharDefault) == "c_d"
  {
    SanitizeDefault("c#d", "c_d");
  }

  /** The '_' prefix of a renamed label is not a bad character, so it stays. */
  lemma PrefixKept()
    ensures Sanitize(Renamed(Other("5"), CharDefault), BadChars, CharDefault) == "_5"
  {
    assert Renamed(Other("5"), CharDefault) == "_5";
    SanitizeDefault("_5", "_5");
  }
}
