/**
 Properties of `schema_diff` and `update_bq_schema` that relate several calls or need
 an induction: entry order, distinct entry names, the empty self-diff, when a diff is
 empty, and what the single-snapshot remote update leaves in the table.
 */
module DiffProps {
  import opened Seqs
  import opened Frame
  import opened BqSchema

  /** The first pass emits its entries in the order of the new schema's dict. */
  lemma {:induction false} AddsAndUpdatesInOrder(newDict: Schema, oldSchema: Schema)
    ensures IsSubseq(ChangeNames(AddsAndUpdates(newDict, oldSchema)), Names(newDict))
  {
    if newDict != [] {
      var front, f := newDict[..|newDict| - 1], newDict[|newDict| - 1];
      AddsAndUpdatesInOrder(front, oldSchema);
      var a, e := AddsAndUpdates(front, oldSchema), NewSideChange(f, oldSchema);
      var xs, ys := ChangeNames(a), Names(front);
      assert newDict == front + [f];
      assert Names(newDict) == ys + [f.name];
      if e == [] {
        assert AddsAndUpdates(newDict, oldSchema) == a;
        SubseqExtend(xs, ys, f.name);
      } else {
        assert ChangeNames(AddsAndUpdates(newDict, oldSchema)) == xs + [f.name];
        SubseqAppendBoth(xs, ys, f.name);
      }
    }
  }

  /** The second pass emits its entries in the order of the old schema's dict. */
  lemma {:induction false} DropsInOrder(oldDict: Schema, newSchema: Schema)
    ensures IsSubseq(ChangeNames(Drops(oldDict, newSchema)), Names(oldDict))
  {
    if oldDict != [] {
      var front, g := oldDict[..|oldDict| - 1], oldDict[|oldDict| - 1];
      DropsInOrder(front, newSchema);
      var xs, ys := ChangeNames(Drops(front, newSchema)), Names(front);
      assert oldDict == front + [g];
      assert Names(oldDict) == ys + [g.name];
      if g.name in Names(newSchema) {
        assert Drops(oldDict, newSchema) == Drops(front, newSchema);
        SubseqExtend(xs, ys, g.name);
      } else {
        assert ChangeNames(Drops(oldDict, newSchema)) == xs + [g.name];
        SubseqAppendBoth(xs, ys, g.name);
      }
    }
  }

  /** One more diff entry adds its field to the pending fields exactly when it adds a
      column the snapshot lacks. */
  lemma PendingAddsStep(snapshot: Schema, front: seq<Change>, c: Change)
    ensures PendingAdds(snapshot, front + [c]) ==
            PendingAdds(snapshot, front) + (if c.Add? && c.field.name !in Names(snapshot) then [c.field] else [])
  {
    assert (front + [c])[..|front|] == front;
  }

  /** `update_bq_schema` writes the pending fields in diff order. */
  lemma {:induction false} PendingAddsInOrder(snapshot: Schema, diffs: seq<Change>)
    ensures IsSubseq(Names(PendingAdds(snapshot, diffs)), ChangeNames(diffs))
  {
    if diffs != [] {
      var front, c := diffs[..|diffs| - 1], diffs[|diffs| - 1];
      PendingAddsInOrder(snapshot, front);
      var xs, ys := Names(PendingAdds(snapshot, front)), ChangeNames(front);
      assert diffs == front + [c];
      PendingAddsStep(snapshot, front, c);
      assert ChangeNames(diffs) == ys + [c.Name()];
      if c.Add? && c.field.name !in Names(snapshot) {
        assert Names(PendingAdds(snapshot, diffs)) == xs + [c.Name()];
        SubseqAppendBoth(xs, ys, c.Name());
      } else {
        assert PendingAdds(snapshot, diffs) == PendingAdds(snapshot, front);
        SubseqExtend(xs, ys, c.Name());
      }
    }
  }

  /** Entry `k` of `diffs` adds a column the snapshot lacks, and no later entry does. */
  predicate LastNewAdd(snapshot: Schema, diffs: seq<Change>, k: int) {
    && 0 <= k < |diffs|
    && diffs[k].Add? && diffs[k].field.name !in Names(snapshot)
    && forall j | k < j < |diffs| :: !(diffs[j].Add? && diffs[j].field.name !in Names(snapshot))
  }

  /** An entry that adds no new column keeps the last such entry where it was. */
  lemma LastNewAddKept(snapshot: Schema, front: seq<Change>, c: Change, k: int)
    requires LastNewAdd(snapshot, front, k)
    requires !(c.Add? && c.field.name !in Names(snapshot))
    ensures LastNewAdd(snapshot, front + [c], k)
  {
  }

  /** The last pending field comes from the last entry that adds a new column. */
  lemma {:induction false} PendingLast(snapshot: Schema, diffs: seq<Change>)
    requires PendingAdds(snapshot, diffs) != []
    ensures exists k :: LastNewAdd(snapshot, diffs, k) &&
              diffs[k].field == PendingAdds(snapshot, diffs)[|PendingAdds(snapshot, diffs)| - 1]
  {
    var front, c := diffs[..|diffs| - 1], diffs[|diffs| - 1];
    assert diffs == front + [c];
    PendingAddsStep(snapshot, front, c);
    if c.Add? && c.field.name !in Names(snapshot) {
      assert LastNewAdd(snapshot, diffs, |diffs| - 1);
    } else {
      var adds := PendingAdds(snapshot, front);
      assert PendingAdds(snapshot, diffs) == adds;
      PendingLast(snapshot, front);
      var k :| LastNewAdd(snapshot, front, k) && front[k].field == adds[|adds| - 1];
      LastNewAddKept(snapshot, front, c, k);
    }
  }

  /** `update_bq_schema` makes one write per pending field, in diff order, each the
      snapshot plus that field. */
  lemma WritesFollowPending(remote: Schema, diffs: seq<Change>)
    ensures var r, adds := UpdateBqSchema(remote, diffs), PendingAdds(remote, diffs);
            && |r.writes| == |adds|
            && forall i | 0 <= i < |r.writes| :: r.writes[i] == remote + [adds[i]]
  {
    var adds := PendingAdds(remote, diffs);
    if adds != [] {
      assert Add(adds[0]) in diffs;
    }
  }

  /** After a write the table holds the snapshot plus the last pending field. */
  lemma EndsWithLastPending(remote: Schema, diffs: seq<Change>)
    requires UpdateBqSchema(remote, diffs).writes != []
    ensures var adds := PendingAdds(remote, diffs);
            adds != [] && UpdateBqSchema(remote, diffs).remote == remote + [adds[|adds| - 1]]
  {
    WritesFollowPending(remote, diffs);
    var r := UpdateBqSchema(remote, diffs);
    assert r.remote == r.writes[|r.writes| - 1];
  }

  /** Whichever writes happen, the table ends with the snapshot plus the field of the
      diff's last `add` entry for a column the snapshot lacks; the earlier adds are lost. */
  lemma LastAddSurvives(remote: Schema, diffs: seq<Change>)
    ensures var r := UpdateBqSchema(remote, diffs);
            r.writes != [] ==>
              exists k :: LastNewAdd(remote, diffs, k) && r.remote == remote + [diffs[k].field]
  {
    if UpdateBqSchema(remote, diffs).writes != [] {
      EndsWithLastPending(remote, diffs);
      PendingLast(remote, diffs);
    }
  }

  /** Soundness of the first pass: it emits `add` only for names the old schema lacks
      and `update` only when the old schema's field of that name differs. */
  lemma {:induction false} AddsAndUpdatesSound(newDict: Schema, oldSchema: Schema)
    ensures forall c | c in AddsAndUpdates(newDict, oldSchema) ::
              || (c.Add? && c.field in newDict && c.field.name !in Names(oldSchema))
              || (&& c.Update? && c.after in newDict && c.after.name in Names(oldSchema)
                  && c.before == LastWith(oldSchema, c.after.name) && c.before != c.after)
  {
    if newDict != [] {
      var front, f := newDict[..|newDict| - 1], newDict[|newDict| - 1];
      AddsAndUpdatesSound(front, oldSchema);
      assert newDict == front + [f];
      assert AddsAndUpdates(newDict, oldSchema) == AddsAndUpdates(front, oldSchema) + NewSideChange(f, oldSchema);
    }
  }

  /** Completeness of the first pass: every field of the new dict whose name is new gets
      an `add`, and every one whose old field differs gets an `update`. */
  lemma {:induction false} AddsAndUpdatesComplete(newDict: Schema, oldSchema: Schema)
    ensures forall f | f in newDict && f.name !in Names(oldSchema) ::
              Add(f) in AddsAndUpdates(newDict, oldSchema)
    ensures forall f | f in newDict && f.name in Names(oldSchema) && f != LastWith(oldSchema, f.name) ::
              Update(LastWith(oldSchema, f.name), f) in AddsAndUpdates(newDict, oldSchema)
  {
    if newDict != [] {
      var front, f := newDict[..|newDict| - 1], newDict[|newDict| - 1];
      AddsAndUpdatesComplete(front, oldSchema);
      assert newDict == front + [f];
      assert AddsAndUpdates(newDict, oldSchema) == AddsAndUpdates(front, oldSchema) + NewSideChange(f, oldSchema);
    }
  }

  /** Soundness of the second pass: only `drop`, only for old names the new schema lacks. */
  lemma {:induction false} DropsSound(oldDict: Schema, newSchema: Schema)
    ensures forall c | c in Drops(oldDict, newSchema) ::
              c.Drop? && c.field in oldDict && c.field.name !in Names(newSchema)
  {
    if oldDict != [] {
      var front, g := oldDict[..|oldDict| - 1], oldDict[|oldDict| - 1];
      DropsSound(front, newSchema);
      assert oldDict == front + [g];
    }
  }

  /** Completeness of the second pass: every old field whose name the new schema lacks
      gets a `drop`. */
  lemma {:induction false} DropsComplete(oldDict: Schema, newSchema: Schema)
    ensures forall g | g in oldDict && g.name !in Names(newSchema) :: Drop(g) in Drops(oldDict, newSchema)
  {
    if oldDict != [] {
      var front, g := oldDict[..|oldDict| - 1], oldDict[|oldDict| - 1];
      DropsComplete(front, newSchema);
      assert oldDict == front + [g];
    }
  }

  /** A field of the name-keyed dict is the last field of its name. */
  lemma DictMember(s: Schema, f: Field)
    requires f in SchemaDict(s)
    ensures f in s && f.name in Names(s) && f == LastWith(s, f.name)
  {
    var d := SchemaDict(s);
    var i :| 0 <= i < |d| && d[i] == f;
    NameInNames(s, f);
  }

  /** Each kind of entry obeys its membership rule: `add` names are new only, `update`
      pairs share a name but differ, `drop` names are old only; the fields are the ones
      the name-keyed dicts hold. */
  lemma DiffMembership(oldSchema: Schema, newSchema: Schema)
    ensures forall c | c in SchemaDiff(oldSchema, newSchema) ::
              && (c.Add? ==> && c.field.name in Names(newSchema) && c.field.name !in Names(oldSchema)
                             && c.field == LastWith(newSchema, c.field.name))
              && (c.Update? ==> && c.after.name in Names(newSchema) && c.after.name in Names(oldSchema)
                                && c.before.name == c.after.name && c.before != c.after
                                && c.after == LastWith(newSchema, c.after.name)
                                && c.before == LastWith(oldSchema, c.after.name))
              && (c.Drop? ==> && c.field.name in Names(oldSchema) && c.field.name !in Names(newSchema)
                              && c.field == LastWith(oldSchema, c.field.name))
  {
    var a := AddsAndUpdates(SchemaDict(newSchema), oldSchema);
    var b := Drops(SchemaDict(oldSchema), newSchema);
    AddsAndUpdatesSound(SchemaDict(newSchema), oldSchema);
    DropsSound(SchemaDict(oldSchema), newSchema);
    forall c: Change | c in a + b
      ensures && (c.Add? ==> && c.field.name in Names(newSchema) && c.field.name !in Names(oldSchema)
                             && c.field == LastWith(newSchema, c.field.name))
              && (c.Update? ==> && c.after.name in Names(newSchema) && c.after.name in Names(oldSchema)
                                && c.before.name == c.after.name && c.before != c.after
                                && c.after == LastWith(newSchema, c.after.name)
                                && c.before == LastWith(oldSchema, c.after.name))
              && (c.Drop? ==> && c.field.name in Names(oldSchema) && c.field.name !in Names(newSchema)
                              && c.field == LastWith(oldSchema, c.field.name))
    {
      if c in a {
        if c.Add? {
          DictMember(newSchema, c.field);
        } else {
          DictMember(newSchema, c.after);
        }
      } else {
        DictMember(oldSchema, c.field);
      }
    }
  }

  /** The converse: every name that differs gets its entry. */
  lemma DiffComplete(oldSchema: Schema, newSchema: Schema)
    ensures forall n | n in Names(newSchema) && n !in Names(oldSchema) ::
              Add(LastWith(newSchema, n)) in SchemaDiff(oldSchema, newSchema)
    ensures forall n | n in Names(newSchema) && n in Names(oldSchema)
                       && LastWith(newSchema, n) != LastWith(oldSchema, n) ::
              Update(LastWith(oldSchema, n), LastWith(newSchema, n)) in SchemaDiff(oldSchema, newSchema)
    ensures forall n | n in Names(oldSchema) && n !in Names(newSchema) ::
              Drop(LastWith(oldSchema, n)) in SchemaDiff(oldSchema, newSchema)
  {
    var nd, od := SchemaDict(newSchema), SchemaDict(oldSchema);
    var a, b := AddsAndUpdates(nd, oldSchema), Drops(od, newSchema);
    assert SchemaDiff(oldSchema, newSchema) == a + b;
    AddsAndUpdatesComplete(nd, oldSchema);
    DropsComplete(od, newSchema);
    forall n | n in Names(newSchema) ensures LastWith(newSchema, n) in nd {
      DictHolds(newSchema, n);
    }
    forall n | n in Names(oldSchema) ensures LastWith(oldSchema, n) in od {
      DictHolds(oldSchema, n);
    }
  }

  /** The dict built from a schema holds, for every name, the last field of that name. */
  lemma DictHolds(s: Schema, n: Label)
    requires n in Names(s)
    ensures LastWith(s, n) in SchemaDict(s)
  {
    var d := SchemaDict(s);
    assert n in Names(d);
    var i :| 0 <= i < |d| && Names(d)[i] == n;
    assert d[i] == LastWith(s, n);
  }

  /** Every `add`/`update` entry precedes every `drop` entry; the first group follows the
      new schema's (first-occurrence) name order, the second the old schema's. */
  lemma DiffOrder(oldSchema: Schema, newSchema: Schema)
    ensures var r := SchemaDiff(oldSchema, newSchema);
            var k := |AddsAndUpdates(SchemaDict(newSchema), oldSchema)|;
            && k <= |r|
            && (forall i | 0 <= i < k :: !r[i].Drop?)
            && (forall i | k <= i < |r| :: r[i].Drop?)
            && IsSubseq(ChangeNames(r[..k]), Dedup(Names(newSchema)))
            && IsSubseq(ChangeNames(r[k..]), Dedup(Names(oldSchema)))
  {
    var nd, od := SchemaDict(newSchema), SchemaDict(oldSchema);
    var a, b := AddsAndUpdates(nd, oldSchema), Drops(od, newSchema);
    var r := SchemaDiff(oldSchema, newSchema);
    assert r == a + b;
    assert r[..|a|] == a;
    assert r[|a|..] == b;
    AddsAndUpdatesInOrder(nd, oldSchema);
    DropsInOrder(od, newSchema);
    PassKinds(oldSchema, newSchema);
  }

  /** The first pass emits no `drop`. */
  lemma {:induction false} FirstPassNoDrop(newDict: Schema, oldSchema: Schema)
    ensures forall c | c in AddsAndUpdates(newDict, oldSchema) :: !c.Drop?
  {
    if newDict != [] {
      FirstPassNoDrop(newDict[..|newDict| - 1], oldSchema);
    }
  }

  /** The second pass emits only `drop`. */
  lemma {:induction false} SecondPassOnlyDrops(oldDict: Schema, newSchema: Schema)
    ensures forall c | c in Drops(oldDict, newSchema) :: c.Drop?
  {
    if oldDict != [] {
      SecondPassOnlyDrops(oldDict[..|oldDict| - 1], newSchema);
    }
  }

  /** Entries without `drop` followed by `drop` entries split at the junction. */
  lemma SplitAtDrops(a: seq<Change>, b: seq<Change>)
    requires forall c | c in a :: !c.Drop?
    requires forall c | c in b :: c.Drop?
    ensures forall i | 0 <= i < |a| :: !(a + b)[i].Drop?
    ensures forall i | |a| <= i < |a + b| :: (a + b)[i].Drop?
  {
    forall i | 0 <= i < |a| ensures !(a + b)[i].Drop? {
      assert a[i] in a;
    }
    forall i | |a| <= i < |a + b| ensures (a + b)[i].Drop? {
      assert b[i - |a|] in b;
    }
  }

  /** The first pass emits no `drop`; the second pass emits only `drop`. */
  lemma PassKinds(oldSchema: Schema, newSchema: Schema)
    ensures var a := AddsAndUpdates(SchemaDict(newSchema), oldSchema);
            var r := SchemaDiff(oldSchema, newSchema);
            && (forall i | 0 <= i < |a| :: !r[i].Drop?)
            && (forall i | |a| <= i < |r| :: r[i].Drop?)
  {
    var nd, od := SchemaDict(newSchema), SchemaDict(oldSchema);
    FirstPassNoDrop(nd, oldSchema);
    SecondPassOnlyDrops(od, newSchema);
    SplitAtDrops(AddsAndUpdates(nd, oldSchema), Drops(od, newSchema));
  }

  /** The first pass names distinct columns, all of them in the new schema. */
  lemma FirstPassNames(oldSchema: Schema, newSchema: Schema)
    ensures var xs := ChangeNames(AddsAndUpdates(SchemaDict(newSchema), oldSchema));
            NoDups(xs) && forall x | x in xs :: x in Names(newSchema)
  {
    var nd := SchemaDict(newSchema);
    var a := AddsAndUpdates(nd, oldSchema);
    var xs := ChangeNames(a);
    AddsAndUpdatesInOrder(nd, oldSchema);
    SubseqNoDups(xs, Names(nd));
    SubseqMembers(xs, Names(nd));
  }

  /** The second pass names distinct columns, none of them in the new schema. */
  lemma SecondPassNames(oldSchema: Schema, newSchema: Schema)
    ensures var ys := ChangeNames(Drops(SchemaDict(oldSchema), newSchema));
            NoDups(ys) && forall y | y in ys :: y !in Names(newSchema)
  {
    var od := SchemaDict(oldSchema);
    var b := Drops(od, newSchema);
    var ys := ChangeNames(b);
    DropsInOrder(od, newSchema);
    SubseqNoDups(ys, Names(od));
    DropsSound(od, newSchema);
    forall y | y in ys ensures y !in Names(newSchema) {
      var j :| 0 <= j < |b| && ys[j] == y;
      assert b[j] in b;
    }
  }

  /** The names of a diff are the first pass's names followed by the second pass's. */
  lemma DiffNames(oldSchema: Schema, newSchema: Schema)
    ensures ChangeNames(SchemaDiff(oldSchema, newSchema)) ==
              ChangeNames(AddsAndUpdates(SchemaDict(newSchema), oldSchema)) +
              ChangeNames(Drops(SchemaDict(oldSchema), newSchema))
  {
  }

  /** No column name occurs in more than one entry of a diff. */
  lemma DiffNamesDistinct(oldSchema: Schema, newSchema: Schema)
    ensures NoDups(ChangeNames(SchemaDiff(oldSchema, newSchema)))
  {
    var xs := ChangeNames(AddsAndUpdates(SchemaDict(newSchema), oldSchema));
    var ys := ChangeNames(Drops(SchemaDict(oldSchema), newSchema));
    DiffNames(oldSchema, newSchema);
    FirstPassNames(oldSchema, newSchema);
    SecondPassNames(oldSchema, newSchema);
    NoDupsConcat(xs, ys);
  }

  /** Comparing any schema with itself finds no difference. */
  lemma DiffSelfEmpty(s: Schema)
    ensures SchemaDiff(s, s) == []
  {
    var d := SchemaDict(s);
    var a, b := AddsAndUpdates(d, s), Drops(d, s);
    assert SchemaDiff(s, s) == a + b;
    AddsAndUpdatesSound(d, s);
    DropsSound(d, s);
    if a != [] {
      var c := a[0];
      assert c in a;
      if c.Add? {
        DictMember(s, c.field);
      } else {
        DictMember(s, c.after);
      }
    }
    if b != [] {
      assert b[0] in b;
      DictMember(s, b[0].field);
    }
  }

  /** Schemas with distinct names holding the same fields have an empty diff. */
  lemma DiffEmptyWhenSame(oldSchema: Schema, newSchema: Schema)
    requires NoDups(Names(oldSchema)) && NoDups(Names(newSchema))
    requires forall f | f in newSchema :: f in oldSchema
    requires forall f | f in oldSchema :: f in newSchema
    ensures SchemaDiff(oldSchema, newSchema) == []
  {
    var a, b := AddsAndUpdates(newSchema, oldSchema), Drops(oldSchema, newSchema);
    assert SchemaDiff(oldSchema, newSchema) == a + b;
    AddsAndUpdatesSound(newSchema, oldSchema);
    DropsSound(oldSchema, newSchema);
    if a != [] {
      var c := a[0];
      assert c in a;
      if c.Add? {
        NameInNames(oldSchema, c.field);
      }
    }
    if b != [] {
      assert b[0] in b;
      NameInNames(newSchema, b[0].field);
    }
  }

  /** An empty diff of schemas with distinct names means they hold the same fields. */
  lemma SameWhenDiffEmpty(oldSchema: Schema, newSchema: Schema)
    requires NoDups(Names(oldSchema)) && NoDups(Names(newSchema))
    requires SchemaDiff(oldSchema, newSchema) == []
    ensures forall f | f in newSchema :: f in oldSchema
    ensures forall f | f in oldSchema :: f in newSchema
  {
    var a, b := AddsAndUpdates(newSchema, oldSchema), Drops(oldSchema, newSchema);
    assert SchemaDiff(oldSchema, newSchema) == a + b;
    AddsAndUpdatesComplete(newSchema, oldSchema);
    DropsComplete(oldSchema, newSchema);
    assert a == [] && b == [];
    forall f | f in newSchema ensures f in oldSchema {
      assert Add(f) !in a;
      if f.name in Names(oldSchema) {
        assert Update(LastWith(oldSchema, f.name), f) !in a;
      }
    }
    forall g | g in oldSchema ensures g in newSchema {
      assert Drop(g) !in b;
      var h := LastWith(newSchema, g.name);
      assert Add(h) !in a;
      assert Update(LastWith(oldSchema, h.name), h) !in a;
    }
  }

  /** For schemas with distinct names, the diff is empty exactly when both hold the
      same fields. */
  lemma DiffEmptyIff(oldSchema: Schema, newSchema: Schema)
    requires NoDups(Names(oldSchema)) && NoDups(Names(newSchema))
    ensures SchemaDiff(oldSchema, newSchema) == [] <==>
              (forall f | f in newSchema :: f in oldSchema) && (forall f | f in oldSchema :: f in newSchema)
  {
    if (forall f | f in newSchema :: f in oldSchema) && (forall f | f in oldSchema :: f in newSchema) {
      DiffEmptyWhenSame(oldSchema, newSchema);
    }
    if SchemaDiff(oldSchema, newSchema) == [] {
      SameWhenDiffEmpty(oldSchema, newSchema);
    }
  }

  /** The remote schema after `update_bq_schema`: each write restarts from the same
      snapshot, so with distinct entry names every field written before the last write
      is missing from the table afterwards. */
  lemma StaleSnapshotLosesAdds(remote: Schema, diffs: seq<Change>)
    requires NoDups(ChangeNames(diffs))
    ensures var u := UpdateBqSchema(remote, diffs);
            forall k | 0 <= k < |u.writes| - 1 :: u.writes[k][|remote|] !in u.remote
  {
    var u := UpdateBqSchema(remote, diffs);
    if HasAdd(diffs) && |u.writes| > 1 {
      var adds := PendingAdds(remote, diffs);
      PendingAddsInOrder(remote, diffs);
      SubseqNoDups(Names(adds), ChangeNames(diffs));
      forall k | 0 <= k < |u.writes| - 1 ensures u.writes[k][|remote|] !in u.remote {
        assert u.writes[k] == remote + [adds[k]];
        assert u.remote == remote + [adds[|adds| - 1]];
        assert adds[k] in adds;
        assert Names(adds)[k] != Names(adds)[|adds| - 1];
      }
    }
  }

  /** The diff has an `add` entry, so `update_bq_schema` does its work, exactly when the
      new schema has a column name the old one lacks. */
  lemma AddIffNewName(oldSchema: Schema, newSchema: Schema)
    ensures HasAdd(SchemaDiff(oldSchema, newSchema))
            <==> exists n | n in Names(newSchema) :: n !in Names(oldSchema)
  {
    var diffs := SchemaDiff(oldSchema, newSchema);
    DiffMembership(oldSchema, newSchema);
    DiffComplete(oldSchema, newSchema);
    if HasAdd(diffs) {
      var c :| c in diffs && c.Add?;
      assert c.field.name in Names(newSchema) && c.field.name !in Names(oldSchema);
    }
    if exists n | n in Names(newSchema) :: n !in Names(oldSchema) {
      var n :| n in Names(newSchema) && n !in Names(oldSchema);
      assert Add(LastWith(newSchema, n)) in diffs;
    }
  }

  /** The diff has a `drop` entry, so `update_df_schema` backfills, exactly when the old
      schema has a column name the new one lacks. */
  lemma DropIffLostName(oldSchema: Schema, newSchema: Schema)
    ensures HasDrop(SchemaDiff(oldSchema, newSchema))
            <==> exists n | n in Names(oldSchema) :: n !in Names(newSchema)
  {
    var diffs := SchemaDiff(oldSchema, newSchema);
    DiffMembership(oldSchema, newSchema);
    DiffComplete(oldSchema, newSchema);
    if HasDrop(diffs) {
      var c :| c in diffs && c.Drop?;
      assert c.field.name in Names(oldSchema) && c.field.name !in Names(newSchema);
    }
    if exists n | n in Names(oldSchema) :: n !in Names(newSchema) {
      var n :| n in Names(oldSchema) && n !in Names(newSchema);
      assert Drop(LastWith(oldSchema, n)) in diffs;
    }
  }

  /** The dict comprehension keyed by name keeps each name once, in the order of first
      occurrence, holding the last field of that name. */
  lemma DictKeysAndValues(s: Schema)
    ensures var d := SchemaDict(s);
            && NoDups(Names(d))
            && InFirstOrder(Names(s), Names(d))
            && forall i | 0 <= i < |d| :: IsLastNamed(s, d[i].name, d[i])
  {
    var d := SchemaDict(s);
    DedupFirstOrder(Names(s));
    forall i | 0 <= i < |d| ensures IsLastNamed(s, d[i].name, d[i]) {
      assert d[i].name in Names(d);
      LastWithIsLast(s, d[i].name);
    }
  }
}
