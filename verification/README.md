# am4894bq schema reconciliation, modelled in Dafny

`am4894bq` appends a pandas DataFrame to a BigQuery table. Before uploading, in
"wrangle" mode, it reconciles the two schemas. It builds a BigQuery schema from the
frame's dtypes, diffs it against the table's schema, adds the frame's new columns to
the table, backfills the columns the frame lacks as all-`None` columns, and reorders
the frame to the table's column order. This project models that logic as pure
functions over immutable values and proves what it guarantees.

## Model

How the code is represented:

- **Frames.** A frame is a sequence of columns, each with a label, a dtype tag and an
  abstract description of its cells (`frame.dfy`).
- **Labels.** A label is a Python string or any other value together with its
  `str()` rendering.
- **Schemas.** A BigQuery schema is a sequence of fields, each a name plus a type tag
  (`schema.dfy`).
- **The remote table.** It is a schema value passed in and handed back. Every schema
  write replaces it.
- **`df_to_gbq`.** It returns the frame it uploads, or the `KeyError` it raises. It
  also returns the remote schema afterwards and the list of BigQuery calls it made,
  in order (`pd.dfy`).

Points where the model follows the code closely:

- **Duplicate names.** `{col.name: col for col in schema}` is modelled as Python
  evaluates it: each name is kept once, at its first position, holding the last field
  of that name (`BqSchema.SchemaDict`, with the order and the last-field rule proved by
  `DiffProps.DictKeysAndValues`). The diff is therefore defined for every pair of
  schemas. Distinct names appear only as hypotheses of the lemmas that need them.
- **Field equality.** Fields compare on name and type only. A `SchemaField`'s mode,
  description and nested fields are not modelled.
- **Type inference.** `df_to_bq_schema` never passes a default type, so every
  non-`int64` dtype becomes `STRING`.
- **The schema snapshot.** `update_bq_schema` reads the table schema once
  (am4894bq/schema.py:85-86) and does not read it again between writes. Every write is
  that one snapshot plus one new field. The modelled store accepts every write and keeps
  the last one. Under that store, only the last added field survives when a diff holds
  several `add` entries. The later reshape then cuts the frame down to what the table
  holds, so the other new columns are lost from the upload as well. This is modelled
  as the code does it, not corrected. `DiffProps.StaleSnapshotLosesAdds` states it in
  general, and `Examples.StaleSnapshotExample` shows it on a table. Both depend on the
  accept-every-write store, as do `GbqProps.ReconcilingRun` and
  `GbqProps.ReconcileTotal`. A service that refused a schema omitting an existing
  column would make the second write raise instead.
- **Name cleaning.** `str.replace(f'[{bad_chars}]', char_default)` is modelled as
  substituting characters one by one. Its precondition is that `bad_chars` is
  non-empty and free of the characters a regex class treats specially (`]`, `\`, `^`,
  `-`), and that `char_default` contains no backslash. The defaults `"#:!. "` and `"_"`
  satisfy it (`PdProps.DefaultsClean`).
- **`df[names]`.** This selects, for each requested label in order, every column with
  that label. Otherwise it raises `KeyError` naming the absent labels
  (`Frame.Select`).

| member | source | states |
|---|---|---|
| Seqs.Dedup | am4894bq/schema.py:61-62 | the keys of a dict built from a sequence: duplicate-free, exactly the same elements, never longer, and a duplicate-free input comes back unchanged |
| Seqs.DedupFirstOrder | am4894bq/schema.py:61-62 | the keys come in the order of their first occurrences in the sequence |
| Frame.Missing | am4894bq/schema.py:122 | the labels `df[names]` reports missing are exactly the requested labels the frame lacks |
| Frame.Gather | am4894bq/schema.py:122 | a successful `df[names]` takes only columns of the frame whose labels were requested |
| Frame.ColumnsNamed | am4894bq/schema.py:122 | the columns one label selects are exactly the frame's columns with that label; none iff the label is absent; at most one when labels are distinct |
| Frame.Select | am4894bq/schema.py:122 | `df[names]` succeeds iff every requested label is present; the result draws only columns of the frame with requested labels; with distinct labels its labels are exactly the requested ones in request order; a `KeyError` lists each absent requested label once and nothing else |
| Frame.GatherLabels | am4894bq/schema.py:122 | with distinct labels, all present, the selection's labels equal the request |
| Frame.SelectIdentity | am4894bq/schema.py:122 | selecting a frame's own distinct labels gives the frame back unchanged |
| BqSchema.DtypeToBqType | am4894bq/schema.py:29-36 | `int64` maps to INTEGER; any result other than the default comes from `int64`; the result is INTEGER or the default |
| BqSchema.DfToBqSchema | am4894bq/schema.py:43-50 | one field per column, in column order, named by the column; INTEGER exactly for `int64` columns and STRING for every other dtype |
| BqSchema.LastWith | am4894bq/schema.py:61-62 | the value a name-keyed dict keeps is a field of the schema with that name, and the only one when names are distinct |
| BqSchema.LastWithIsLast | am4894bq/schema.py:61-62 | that value is the last field of its name: no later field of the schema has that name |
| BqSchema.SchemaDict | am4894bq/schema.py:61-62 | the dict's names are the de-duplicated schema names and each holds the name-keyed lookup of that name; it holds only schema fields and is the schema itself when names are distinct |
| DiffProps.DictKeysAndValues | am4894bq/schema.py:61-62 | the dict holds each name once, in first-occurrence order, with the last field of that name |
| BqSchema.AddsAndUpdates | am4894bq/schema.py:64-68 | the first pass emits at most one entry per dict key; what each entry is, is stated by `DiffProps.AddsAndUpdatesSound`, `AddsAndUpdatesComplete` and `AddsAndUpdatesInOrder` |
| BqSchema.Drops | am4894bq/schema.py:69-71 | the second pass emits at most one entry per dict key; what each entry is, is stated by `DiffProps.DropsSound`, `DropsComplete` and `DropsInOrder` |
| BqSchema.SchemaDiff | am4894bq/schema.py:57-72 | the diff has at most as many entries as both schemas together |
| BqSchema.PendingAdds | am4894bq/schema.py:88-92 | the fields written are exactly the `add` entries whose names the snapshot lacks |
| BqSchema.UpdateBqSchema | am4894bq/schema.py:79-99 | it returns True. Without an `add` it writes nothing. Each write is the snapshot plus one `add` field the snapshot lacks, and each such field gets a write. Adds already present write nothing. The table ends with the last write, which extends the snapshot by at most one field. How many writes and in which order: `DiffProps.WritesFollowPending`; which field survives: `DiffProps.LastAddSurvives` |
| BqSchema.Backfill | am4894bq/schema.py:111-118 | the frame's own columns stay first and untouched; each appended column is an all-`None` placeholder for a `drop` name the frame lacked; every `drop` name ends up present |
| BqSchema.BackfillInOrder | am4894bq/schema.py:112-118 | the appended placeholders follow the order of their `drop` entries |
| BqSchema.BackfillNoDups | am4894bq/schema.py:112-118 | backfilling a frame with distinct labels keeps them distinct |
| BqSchema.BackfillColumns | am4894bq/schema.py:112-118 | every backfilled column is the frame's own or a placeholder for a dropped name the frame lacked |
| BqSchema.UpdateDfSchema | am4894bq/schema.py:106-123 | the reshape succeeds iff every remote name is a frame column or a `drop` name. With distinct labels the result has exactly the remote names in remote order. Every result column is the frame's own or a placeholder for a dropped name the frame lacked |
| DiffProps.AddsAndUpdatesInOrder | am4894bq/schema.py:64-68 | the first pass's entry names follow the new dict's key order |
| DiffProps.DropsInOrder | am4894bq/schema.py:69-71 | the second pass's entry names follow the old dict's key order |
| DiffProps.PendingAddsInOrder | am4894bq/schema.py:88-98 | the pending fields (the `add` entries whose names the snapshot lacks) keep the diff's order |
| DiffProps.WritesFollowPending | am4894bq/schema.py:88-98 | there is exactly one write per pending field, in that order; write `i` is the snapshot plus pending field `i` |
| DiffProps.PendingLast | am4894bq/schema.py:88-98 | the last pending field is the field of the diff's last `add` entry for a name the snapshot lacks |
| DiffProps.EndsWithLastPending | am4894bq/schema.py:85-98 | once anything is written, the table is the snapshot plus the last pending field |
| DiffProps.LastAddSurvives | am4894bq/schema.py:85-98 | once anything is written, the table is the snapshot plus the field of the diff's last `add` entry for a new name; every earlier added field is lost |
| DiffProps.AddsAndUpdatesSound | am4894bq/schema.py:64-68 | the first pass emits `add` only for new names and `update` only when the old field of that name differs |
| DiffProps.AddsAndUpdatesComplete | am4894bq/schema.py:64-68 | every new-dict field with a new name gets an `add`, and every one whose old field differs gets an `update` |
| DiffProps.DropsSound | am4894bq/schema.py:69-71 | the second pass emits only `drop`, for old fields whose names the new schema lacks |
| DiffProps.DropsComplete | am4894bq/schema.py:69-71 | every old-dict field whose name the new schema lacks gets a `drop` |
| DiffProps.DictMember | am4894bq/schema.py:61-62 | a field of the dict is the last field of its name in the schema |
| DiffProps.DictHolds | am4894bq/schema.py:61-62 | for every name of the schema, the dict holds that name's last field |
| DiffProps.DiffMembership | am4894bq/schema.py:64-71 | `add` names are new only, `update` pairs share a name but differ, `drop` names are old only, each with the field the dicts hold |
| DiffProps.DiffComplete | am4894bq/schema.py:64-71 | every name only in the new schema gets an `add`, every shared name with differing fields gets an `update`, every name only in the old schema gets a `drop` |
| DiffProps.DiffOrder | am4894bq/schema.py:64-71 | all `add`/`update` entries precede all `drop` entries; the first group follows the new schema's name order, the second the old schema's |
| DiffProps.PassKinds | am4894bq/schema.py:64-71 | the diff splits into a first part without `drop` and a second part of `drop` only |
| DiffProps.FirstPassNames | am4894bq/schema.py:64-68 | the first pass names distinct columns of the new schema |
| DiffProps.SecondPassNames | am4894bq/schema.py:69-71 | the second pass names distinct columns absent from the new schema |
| DiffProps.DiffNamesDistinct | am4894bq/schema.py:64-71 | no column name occurs in two entries of a diff |
| DiffProps.DiffSelfEmpty | am4894bq/schema.py:57-72 | a schema diffed against itself gives no entries, duplicates or not |
| DiffProps.DiffEmptyWhenSame | am4894bq/schema.py:57-72 | schemas with distinct names and the same fields have an empty diff |
| DiffProps.SameWhenDiffEmpty | am4894bq/schema.py:57-72 | an empty diff of schemas with distinct names means they hold the same fields |
| DiffProps.DiffEmptyIff | am4894bq/schema.py:57-72 | for distinct names, the diff is empty exactly when both schemas hold the same fields |
| DiffProps.AddIffNewName | am4894bq/schema.py:84 | `update_bq_schema` finds an `add` entry exactly when the frame's schema has a column name the table lacks |
| DiffProps.DropIffLostName | am4894bq/schema.py:111 | `update_df_schema` finds a `drop` entry exactly when the table has a column name the frame's schema lacks |
| DiffProps.StaleSnapshotLosesAdds | am4894bq/schema.py:85-98 | with distinct entry names, every field written before the last write is missing from the table afterwards |
| Pd.Sanitize | am4894bq/pd.py:28 | a clean replacement leaves no bad character; a name without bad characters is unchanged; with a one-character replacement the length is kept and each bad character is replaced in place |
| Pd.CleanColnames | am4894bq/pd.py:21-29 | count, order, dtypes and cells are kept. Every label becomes a string: a string label is sanitised, and any other label is prefixed with `char_default` before sanitising. With a clean replacement no bad character remains |
| Pd.ColsToStr | am4894bq/pd.py:36-43 | labels and order are kept; every dtype becomes `object`; `object` columns are untouched and the others hold the text of their cells |
| PdProps.NonStringPrefixed | am4894bq/pd.py:22-28 | a non-string label becomes the sanitised `char_default` followed by its sanitised rendering, and a clean `char_default` stays as the prefix |
| PdProps.SanitizeChar | am4894bq/pd.py:28 | a bad character becomes the whole `char_default`, whatever its length, and any other character stays |
| PdProps.SanitizeConcat | am4894bq/pd.py:28 | the substitution acts on each character independently: sanitising a concatenation concatenates the sanitised parts |
| PdProps.SanitizeIdempotent | am4894bq/pd.py:28 | with a clean replacement, sanitising twice is sanitising once |
| PdProps.CleanColnamesIdempotent | am4894bq/pd.py:21-29 | with a clean replacement, cleaning a cleaned frame changes nothing |
| PdProps.DefaultsClean | am4894bq/pd.py:21 | the default arguments meet the precondition, and cleaning with them is idempotent and leaves no bad character |
| PdProps.ColsToStrIdempotent | am4894bq/pd.py:40-43 | stringifying twice is stringifying once |
| PdProps.StringifiedSchema | am4894bq/pd.py:82-83 | a stringified frame maps to a schema of the same names, all STRING |
| Pd.Reconcile | am4894bq/pd.py:67-80 | the reconciliation's calls start and end with a schema read, and the table only grows, by at most one field; `GbqProps.ReconcileTotal`, `ReconcileColumns` and `ReconcileLog` state the rest |
| Pd.DfToGbq | am4894bq/pd.py:50-91 | the run logs at least one call and, when it succeeds, its last call uploads the returned frame; the table only grows, by at most one field, and stays as it was unless the run reconciles; the `GbqProps` lemmas state the rest |
| GbqProps.DefaultCallSkips | am4894bq/pd.py:50-52 | with the default arguments the run only cleans the names and uploads, whether or not the table exists |
| GbqProps.WritesAddNewFields | am4894bq/schema.py:95-98 | every write for a diff appends to the snapshot one field of the new schema that the snapshot lacks |
| GbqProps.ReconcileWritesAdd | am4894bq/pd.py:70-77 | every schema write during reconciliation adds to the table one field of the frame's schema that the table lacked |
| GbqProps.ReconcileRemoteGrows | am4894bq/pd.py:70-77 | after reconciliation the table schema is the one read, possibly with one more field of the frame's schema |
| GbqProps.AbsentIsDropped | am4894bq/schema.py:69-71 | a remote name the frame's schema lacks is the name of a `drop` entry |
| GbqProps.StoredNamesCovered | am4894bq/schema.py:111-122 | every name of the updated table is a frame column or a `drop` name |
| GbqProps.ReconcileTotal | am4894bq/pd.py:70-80 | the reshape inside `df_to_gbq` never raises `KeyError` |
| GbqProps.ReconcileColumns | am4894bq/pd.py:74-80 | with distinct labels, a non-empty diff leaves the frame with exactly the table's columns in table order; an empty diff leaves frame and table untouched |
| GbqProps.SkipsUnlessReconciling | am4894bq/pd.py:58-89 | unless mode is "wrangle", the table exists and `if_exists` is not "replace", no schema is read or written. The upload, the last call, gets the cleaned and stringified input and nothing else |
| GbqProps.NoDiffNoUpdate | am4894bq/pd.py:70-83 | with an empty diff the calls are the existence check, one schema read and the upload, and the table is untouched |
| GbqProps.ReconcilingRun | am4894bq/pd.py:58-89 | a reconciling run always reaches the upload as its last call. The table only grows, by at most one field. Every write adds a field of the cleaned, not yet stringified frame |
| GbqProps.ReconciledFrameMatchesRemote | am4894bq/pd.py:74-83 | with distinct cleaned labels and a non-empty diff, the uploaded frame has exactly the table's final columns in table order |
| GbqProps.PreparedFieldsClean | am4894bq/pd.py:58-71 | with cleaning on, every field of the frame's schema has a clean string name |
| GbqProps.CleanNamesReachRemote | am4894bq/pd.py:58-77 | with cleaning on, every field added to the table has a string name free of the default bad characters |
| GbqProps.ReconcileLog | am4894bq/pd.py:70-80 | a reconciliation that found differences starts and ends with a schema read, and every write lies strictly between them |
| GbqProps.WritesBeforeReshape | am4894bq/pd.py:74-80 | every schema write happens before the schema read that the reshape uses, which comes just before the upload |
| Examples.BuildSchema | am4894bq/schema.py:43-50 | an `int64` column gives INTEGER and an `object` column gives STRING |
| Examples.DroppedColumnBackfilled | am4894bq/schema.py:57-123 | table `id, name, age` against frame `id, name`: one `drop`, no write, and the frame gains an all-`None` `age` column at the end |
| Examples.OneNewAdd | am4894bq/schema.py:79-99 | a diff holding one `add` for a name the table lacks gives one write of the table plus that field, and the table keeps it |
| Examples.NewColumnAdded | am4894bq/schema.py:57-123 | table `id` against frame `id, extra`: one `add`, one write of `id, extra`, and the frame stays as it is |
| Examples.StaleSnapshotExample | am4894bq/schema.py:57-123 | table `id` against frame `id, x, y`: two writes from the one snapshot; the table ends with `id, y` and the frame loses `x` |
| Examples.DotReplaced | am4894bq/pd.py:28 | "a.b" becomes "a_b" under the defaults |
| Examples.HashReplaced | am4894bq/pd.py:28 | "c#d" becomes "c_d" under the defaults |
| Examples.PrefixKept | am4894bq/pd.py:24-28 | the non-string label 5 becomes "_5" |

## Left out

- BigQuery client calls are not modelled as calls. `get_schema`, `get_table` and
  `update_table` become a remote-schema value passed in and returned, plus a call
  log. `does_table_exist` comes from `am4894bq/utils.py`, which is not part of this
  model; its answer is a boolean argument.
- `load_dotenv` and the `BQ_PROJECT_ID` lookup are left out: they only read
  configuration.
- The upload `df.to_gbq` and its bare-`except` retry are left out as network I/O. The
  model logs one `Upload` call, which stands for at most two attempts.
- `print_info` output is left out: it is logging only.
- Cell values and the string rendering of `astype(str)` are left out. A column's cells
  are abstract: caller data, all `None`, or "the text of" other cells.
- Changes to the caller's own frame object are left out. The model is value-based
  and tracks only the frames the functions return. Three places write in place:
  - `clean_colnames` assigns the new labels to the caller's frame when no label needed
    renaming (am4894bq/pd.py:26-28);
  - `cols_to_str` converts columns in place (am4894bq/pd.py:42);
  - `update_df_schema` adds its placeholders in place (am4894bq/schema.py:118).
- Full `SchemaField` attributes are left out. Field equality is name plus type tag.
- Behaviour that depends on the pandas version is assumed, not modelled: `iteritems`
  exists, and `str.replace` treats the pattern as a regex.
- Python's cross-type key equality is not modelled, so the label `1` and the label
  `True` stay distinct here. Repeated labels in `cols_to_str`, where `df[col]` would
  select several columns at once, are also not modelled.
- BigQuery's own checks on schema writes are not modelled. The store accepts every
  write and keeps the last. The service may refuse a schema that omits a column the
  table already has. If it does, the second of two added columns raises at
  am4894bq/schema.py:98 instead of replacing the first.
  `DiffProps.StaleSnapshotLosesAdds`, `Examples.StaleSnapshotExample`,
  `GbqProps.ReconcilingRun` and `GbqProps.ReconcileTotal` hold only for that store.
- Other writers to the table are not modelled. `df_to_gbq` reads the table schema up
  to three times: at am4894bq/pd.py:70, am4894bq/schema.py:85 and
  am4894bq/schema.py:119. The model assumes that between these reads only the call's
  own writes change the table. `GbqProps.ReconcileTotal` ("never raises `KeyError`")
  and `GbqProps.ReconcilingRun` ("always reaches the upload") depend on this. A column
  added by someone else before am4894bq/schema.py:119 makes `df[...]` at line 122
  raise.
- BqSchema.UpdateDfSchema: the exact-columns guarantee is stated only for frames with
  distinct labels, because with a repeated label pandas selects every column carrying
  it.
- Pd.Sanitize: the length and in-place statements are made only for a one-character
  replacement. For a `char_default` of any length, `PdProps.SanitizeChar` states what
  one character becomes, and `PdProps.SanitizeConcat` extends that to every string.
- BqSchema.SchemaDiff: its own contract only bounds the length. The membership, order
  and completeness properties are the `DiffProps` lemmas.
- Pd.DfToGbq: its own contract covers only the shape of the call log and how the table
  grows. What it uploads, when it reads and writes the schema, and in which order are
  the `GbqProps` lemmas.
- Pd.Reconcile: its own contract covers only the first and last calls and how the
  table grows. Totality, the reshaped columns and the position of the writes are the
  `GbqProps` lemmas.
- BqSchema.AddsAndUpdates: its own contract only bounds the length. Soundness,
  completeness and order are `DiffProps` lemmas.
- BqSchema.Drops: its own contract only bounds the length. Soundness, completeness and
  order are `DiffProps` lemmas.
- BqSchema.UpdateBqSchema: the number and order of the writes, and the field the table
  ends with, are proved by `DiffProps.WritesFollowPending` and
  `DiffProps.LastAddSurvives` rather than stated in its own contract. This keeps the
  proofs that use `UpdateBqSchema` small.
- Seqs.Dedup: first-occurrence order is proved by `Seqs.DedupFirstOrder` rather than
  stated in its own contract. This keeps the proofs that use `Dedup` small.
- BqSchema.LastWith: "no later field has that name" is proved by
  `BqSchema.LastWithIsLast` rather than stated in its own contract, for the same
  reason.
