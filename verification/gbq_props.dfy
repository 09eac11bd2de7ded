/**
 What `df_to_gbq` guarantees end to end: when it reconciles at all, that the
 reshaping never meets an absent column, what the uploaded frame's columns are, that
 the remote schema only grows (by at most one field per call), that schema writes come
 before the read the reshaping uses, and that cleaned names are what reach BigQuery.
 */
module GbqProps {
  import opened Seqs
  import opened Frame
  import opened BqSchema
  import opened DiffProps
  import opened Pd

  /** A schema write of reconciliation: the old remote schema plus one field of the
      frame's schema that the remote lacked. */
  predicate AddsOneField(remote: Schema, frameSchema: Schema, w: Schema) {
    && |w| == |remote| + 1 && w[..|remote|] == remote
    && w[|remote|] in frameSchema && w[|remote|].name !in Names(remote)
  }

  /** Every write `update_bq_schema` makes for a diff appends to the remote schema one
      field of the new schema. */
  lemma WritesAddNewFields(remote: Schema, newSchema: Schema)
    ensures forall w | w in UpdateBqSchema(remote, SchemaDiff(remote, newSchema)).writes ::
              AddsOneField(remote, newSchema, w)
  {
    var diffs := SchemaDiff(remote, newSchema);
    DiffMembership(remote, newSchema);
    forall w | w in UpdateBqSchema(remote, diffs).writes ensures AddsOneField(remote, newSchema, w) {
      var c := Add(w[|remote|]);
      assert c in diffs;
      assert c.field == LastWith(newSchema, c.field.name);
    }
  }

  /** The schema of every write call is one of the schemas written. */
  lemma WriteCallSchemas(writes: seq<Schema>)
    ensures forall c | c in WriteCalls(writes) :: c.WriteSchema? && c.schema in writes
  {
    forall c | c in WriteCalls(writes) ensures c.WriteSchema? && c.schema in writes {
      var j :| 0 <= j < |writes| && WriteCalls(writes)[j] == c;
    }
  }

  /** The steps of a reconciliation that found differences, named. */
  lemma ReconcileSteps(df: Frame, remote: Schema)
    requires SchemaDiff(remote, DfToBqSchema(df)) != []
    ensures var diffs := SchemaDiff(remote, DfToBqSchema(df));
            var u := UpdateBqSchema(remote, diffs);
            var lookups := if HasAdd(diffs) then [FetchSchema] else [];
            && Reconcile(df, remote).remote == u.remote
            && Reconcile(df, remote).calls == [FetchSchema] + lookups + WriteCalls(u.writes) + [FetchSchema]
  {
  }

  /** Every write the reconciliation makes adds to the remote schema it read one field
      of the frame's schema that the remote lacked. */
  lemma ReconcileWritesAdd(df: Frame, remote: Schema)
    ensures forall c | c in Reconcile(df, remote).calls && c.WriteSchema? ::
              AddsOneField(remote, DfToBqSchema(df), c.schema)
  {
    var newSchema := DfToBqSchema(df);
    var diffs := SchemaDiff(remote, newSchema);
    if |diffs| > 0 {
      WritesAddNewFields(remote, newSchema);
      WriteCallSchemas(UpdateBqSchema(remote, diffs).writes);
      ReconcileSteps(df, remote);
    }
  }

  /** After reconciliation the remote schema is the one read, possibly with one extra
      field of the frame's schema. */
  lemma ReconcileRemoteGrows(df: Frame, remote: Schema)
    ensures var rec := Reconcile(df, remote);
            && remote <= rec.remote && |rec.remote| <= |remote| + 1
            && (|rec.remote| > |remote| ==> AddsOneField(remote, DfToBqSchema(df), rec.remote))
  {
    var newSchema := DfToBqSchema(df);
    var diffs := SchemaDiff(remote, newSchema);
    if |diffs| > 0 {
      var u := UpdateBqSchema(remote, diffs);
      WritesAddNewFields(remote, newSchema);
      ReconcileSteps(df, remote);
      if |u.remote| > |remote| {
        assert u.remote == u.writes[|u.writes| - 1];
      }
    }
  }

  /** A remote name the new schema lacks is the name of a `drop` entry. */
  lemma AbsentIsDropped(remote: Schema, newSchema: Schema, n: Label)
    requires n in Names(remote) && n !in Names(newSchema)
    ensures n in DroppedNames(SchemaDiff(remote, newSchema))
  {
    DiffComplete(remote, newSchema);
    assert Drop(LastWith(remote, n)) in SchemaDiff(remote, newSchema);
  }

  /** Every name of a schema that extends the remote one by at most a field of the new
      schema is a name of the new schema or of a `drop` entry of their diff. */
  lemma StoredNamesCovered(remote: Schema, newSchema: Schema, stored: Schema)
    requires remote <= stored && |stored| <= |remote| + 1
    requires |stored| > |remote| ==> AddsOneField(remote, newSchema, stored)
    ensures forall n | n in Names(stored) ::
              n in Names(newSchema) || n in DroppedNames(SchemaDiff(remote, newSchema))
  {
    forall n | n in Names(stored)
      ensures n in Names(newSchema) || n in DroppedNames(SchemaDiff(remote, newSchema))
    {
      var i :| 0 <= i < |stored| && Names(stored)[i] == n;
      if i < |remote| {
        assert Names(remote)[i] == n;
        if n !in Names(newSchema) {
          AbsentIsDropped(remote, newSchema, n);
        }
      } else {
        NameInNames(newSchema, stored[i]);
      }
    }
  }

  /** Every column name of the remote schema after reconciliation is a column of the
      frame or the name of a `drop` entry, so `df[remote names]` never raises. */
  lemma ReconcileTotal(df: Frame, remote: Schema)
    ensures Reconcile(df, remote).outcome.Ok?
  {
    var newSchema := DfToBqSchema(df);
    if |SchemaDiff(remote, newSchema)| > 0 {
      ReconcileRemoteGrows(df, remote);
      StoredNamesCovered(remote, newSchema, Reconcile(df, remote).remote);
    }
  }

  /** With distinct column labels, a reconciliation that found differences hands back
      exactly the remote schema's columns, in the remote order; one that found none hands
      back the frame untouched. */
  lemma ReconcileColumns(df: Frame, remote: Schema)
    requires NoDups(Labels(df))
    ensures var rec := Reconcile(df, remote);
            && rec.outcome.Ok?
            && (SchemaDiff(remote, DfToBqSchema(df)) != [] ==> Labels(rec.outcome.value) == Names(rec.remote))
            && (SchemaDiff(remote, DfToBqSchema(df)) == [] ==> rec.outcome.value == df && rec.remote == remote)
  {
    ReconcileTotal(df, remote);
  }

  /** Unless the mode is "wrangle", the table exists and `if_exists` is not "replace",
      `df_to_gbq` reads and writes no schema and uploads the frame as cleaned and
      stringified, untouched otherwise. */
  lemma SkipsUnlessReconciling(df: Frame, opts: Options, tableExists: bool, remote: Schema)
    requires !Reconciles(opts, tableExists)
    ensures var run := DfToGbq(df, opts, tableExists, remote);
            && run.outcome == Ok(Finished(Prepared(df, opts), opts))
            && run.remote == remote
            && (forall c | c in run.calls :: !c.FetchSchema? && !c.WriteSchema?)
            && run.calls[|run.calls| - 1] == Upload(run.outcome.value)
  {
  }

  /** Called with its default arguments, `df_to_gbq` never looks at the table schema: it
      cleans the column names and uploads. */
  lemma DefaultCallSkips(df: Frame, tableExists: bool, remote: Schema)
    ensures var out := CleanColnames(df, CharDefault, BadChars);
            DfToGbq(df, DefaultOptions, tableExists, remote) == Run(Ok(out), remote, [Upload(out)])
  {
    SkipsUnlessReconciling(df, DefaultOptions, tableExists, remote);
  }

  /** When the diff is empty, nothing is written and the frame is only cleaned and
      stringified: one existence check, one schema read, the upload. */
  lemma NoDiffNoUpdate(df: Frame, opts: Options, remote: Schema)
    requires Reconciles(opts, true)
    requires SchemaDiff(remote, DfToBqSchema(Prepared(df, opts))) == []
    ensures var run := DfToGbq(df, opts, true, remote);
            var out := Finished(Prepared(df, opts), opts);
            run == Run(Ok(out), remote, [TableExists, FetchSchema, Upload(out)])
  {
    var prepared := Prepared(df, opts);
    ReconcileNoDiff(prepared, remote);
    var rec := Reconcile(prepared, remote);
    RunOfReconcile(df, opts, remote, rec);
    var out := Finished(prepared, opts);
    LogOfNoDiff(rec.calls, out);
  }

  /** The log of a run whose reconciliation only read the schema. */
  lemma LogOfNoDiff(recCalls: seq<Call>, out: Frame)
    requires recCalls == [FetchSchema]
    ensures [TableExists] + recCalls + [Upload(out)] == [TableExists, FetchSchema, Upload(out)]
  {
  }

  /** A reconciling run whose reshape succeeds: the existence check, the reconciliation's
      calls, then the upload of the reshaped frame after the optional stringification. */
  lemma RunOfReconcile(df: Frame, opts: Options, remote: Schema, rec: Run)
    requires Reconciles(opts, true)
    requires rec == Reconcile(Prepared(df, opts), remote) && rec.outcome.Ok?
    ensures var out := Finished(rec.outcome.value, opts);
            DfToGbq(df, opts, true, remote) == Run(Ok(out), rec.remote, [TableExists] + rec.calls + [Upload(out)])
  {
  }

  /** With nothing to reconcile, the schema is read once and the frame is handed back. */
  lemma ReconcileNoDiff(df: Frame, remote: Schema)
    requires SchemaDiff(remote, DfToBqSchema(df)) == []
    ensures Reconcile(df, remote) == Run(Ok(df), remote, [FetchSchema])
  {
  }

  /** When `df_to_gbq` reconciles, it always reaches the upload; the remote schema only
      grows, by at most one field; and every write appends to the schema it read one
      field built from the cleaned but not yet stringified frame. */
  lemma ReconcilingRun(df: Frame, opts: Options, remote: Schema)
    requires Reconciles(opts, true)
    ensures var run := DfToGbq(df, opts, true, remote);
            && run.outcome.Ok?
            && run.calls[|run.calls| - 1] == Upload(run.outcome.value)
            && remote <= run.remote && |run.remote| <= |remote| + 1
            && (forall c | c in run.calls && c.WriteSchema? :: AddsOneField(remote, DfToBqSchema(Prepared(df, opts)), c.schema))
  {
    var prepared := Prepared(df, opts);
    ReconcileTotal(prepared, remote);
    ReconcileRemoteGrows(prepared, remote);
    ReconcileWritesAdd(prepared, remote);
    var rec := Reconcile(prepared, remote);
    var run := DfToGbq(df, opts, true, remote);
    assert run.calls == [TableExists] + rec.calls + [Upload(run.outcome.value)];
  }

  /** When `df_to_gbq` reconciles a frame whose cleaned labels are distinct and finds a
      difference, the uploaded frame has exactly the remote table's columns afterwards,
      in its order. */
  lemma ReconciledFrameMatchesRemote(df: Frame, opts: Options, remote: Schema)
    requires Reconciles(opts, true)
    requires NoDups(Labels(Prepared(df, opts)))
    requires SchemaDiff(remote, DfToBqSchema(Prepared(df, opts))) != []
    ensures var run := DfToGbq(df, opts, true, remote);
            run.outcome.Ok? && Labels(run.outcome.value) == Names(run.remote)
  {
    ReconcileColumns(Prepared(df, opts), remote);
  }

  /** A label as BigQuery receives it after cleaning: a string free of the default bad
      characters. */
  predicate CleanName(name: Label) {
    name.Str? && forall ch | ch in name.text :: ch !in BadChars
  }

  /** With name cleaning on, every field of the frame's schema has a clean name. */
  lemma PreparedFieldsClean(df: Frame, opts: Options)
    requires opts.cleanColNames
    ensures forall f | f in DfToBqSchema(Prepared(df, opts)) :: CleanName(f.name)
  {
    var prepared := CleanColnames(df, CharDefault, BadChars);
    assert forall c | c in CharDefault :: c !in BadChars;
    assert forall i | 0 <= i < |prepared| :: CleanName(prepared[i].name);
    var s := DfToBqSchema(prepared);
    forall f | f in s ensures CleanName(f.name) {
      var i :| 0 <= i < |s| && s[i] == f;
      assert Names(s)[i] == Labels(prepared)[i];
    }
  }

  /** With name cleaning on, every field `df_to_gbq` adds to the remote schema has a
      string name free of the default bad characters. */
  lemma CleanNamesReachRemote(df: Frame, opts: Options, remote: Schema)
    requires Reconciles(opts, true) && opts.cleanColNames
    ensures var run := DfToGbq(df, opts, true, remote);
            forall c | c in run.calls && c.WriteSchema? ::
              |c.schema| == |remote| + 1 && CleanName(c.schema[|remote|].name)
  {
    ReconcilingRun(df, opts, remote);
    PreparedFieldsClean(df, opts);
  }

  /** The log of a reconciliation that found differences ends with a schema read, and
      every write comes before it. */
  lemma ReconcileLog(df: Frame, remote: Schema)
    requires SchemaDiff(remote, DfToBqSchema(df)) != []
    ensures var calls := Reconcile(df, remote).calls;
            && |calls| >= 2 && calls[0] == FetchSchema && calls[|calls| - 1] == FetchSchema
            && forall i | 0 <= i < |calls| && calls[i].WriteSchema? :: 0 < i < |calls| - 1
  {
    ReconcileSteps(df, remote);
  }

  /** Every schema write happens before the schema read the reshaping uses: the log of
      a reconciling run that found differences ends with that read and the upload. */
  lemma WritesBeforeReshape(df: Frame, opts: Options, remote: Schema)
    requires Reconciles(opts, true)
    requires SchemaDiff(remote, DfToBqSchema(Prepared(df, opts))) != []
    ensures var calls := DfToGbq(df, opts, true, remote).calls;
            && |calls| >= 4
            && calls[|calls| - 2] == FetchSchema
            && forall i | 0 <= i < |calls| && calls[i].WriteSchema? :: 1 < i < |calls| - 2
  {
    var prepared := Prepared(df, opts);
    ReconcileTotal(prepared, remote);
    ReconcileLog(prepared, remote);
    var rec := Reconcile(prepared, remote);
    var run := DfToGbq(df, opts, true, remote);
    var calls := run.calls;
    assert calls == [TableExists] + rec.calls + [Upload(run.outcome.value)];
    forall i | 0 <= i < |calls| && calls[i].WriteSchema? ensures 1 < i < |calls| - 2 {
      assert 0 < i < |calls| - 1;
      assert calls[i] == rec.calls[i - 1];
    }
  }
}
