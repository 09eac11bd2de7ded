/**
 The DataFrame side (am4894bq/pd.py): the column-name sanitiser, the stringifier and
 the decisions `df_to_gbq` takes before uploading. BigQuery is replaced by a table
 existence flag and a remote schema value; the calls the function would make are
 returned as a log.
 */
module Pd {
  import opened Seqs
  import opened Frame
  import opened BqSchema

  /** The defaults `df_to_gbq` calls `clean_colnames` with. */
  const CharDefault: string := "_"
  const BadChars: string := "#:!. "

  /** `bad_chars` spliced between `[` and `]` is a plain character class: non-empty, and
      free of the characters a class gives a meaning to. */
  predicate PlainClass(badChars: string) {
    |badChars| > 0 && forall c | c in badChars :: c !in "]\\^-"
  }

  /** `char_default` used as a replacement string is taken literally: no backslash. */
  predicate PlainReplacement(charDefault: string) {
    '\\' !in charDefault
  }

  /** `re.sub(f'[{badChars}]', charDefault, s)`: every character of `badChars` is
      replaced by `charDefault`, every other character stays. */
  function Sanitize(s: string, badChars: string, charDefault: string): (r: string)
    ensures (forall c | c in charDefault :: c !in badChars) ==> forall c | c in r :: c !in badChars
    ensures (forall c | c in s :: c !in badChars) ==> r == s
    ensures |charDefault| == 1 ==> |r| == |s|
    ensures |charDefault| == 1 ==>
              forall i | 0 <= i < |s| :: r[i] == if s[i] in badChars then charDefault[0] else s[i]
  {
    if s == [] then []
    else
      var front, c := s[..|s| - 1], s[|s| - 1];
      assert s == front + [c];
      Sanitize(front, badChars, charDefault) + (if c in badChars then charDefault else [c])
  }

  /** The name a column has after the rename step of `clean_colnames`: non-string labels
      become `f"{char_default}{col}"`, strings stay. */
  function Renamed(name: Label, charDefault: string): string {
    match name
    case Str(t) => t
    case Other(repr) => charDefault + repr
  }

  /** `clean_colnames`: rename non-string labels, then substitute the bad characters in
      every name. */
  function CleanColnames(df: Frame, charDefault: string, badChars: string): (r: Frame)
    requires PlainClass(badChars) && PlainReplacement(charDefault)
    ensures |r| == |df|
    ensures forall i | 0 <= i < |r| :: r[i].dtype == df[i].dtype && r[i].cells == df[i].cells
    ensures forall i | 0 <= i < |r| :: r[i].name.Str?
    ensures forall i | 0 <= i < |r| && df[i].name.Other? ::
              r[i].name.text == Sanitize(charDefault + df[i].name.repr, badChars, charDefault)
    ensures forall i | 0 <= i < |r| && df[i].name.Str? ::
              r[i].name.text == Sanitize(df[i].name.text, badChars, charDefault)
    ensures (forall c | c in charDefault :: c !in badChars) ==>
              forall i | 0 <= i < |r| :: forall c | c in r[i].name.text :: c !in badChars
  {
    seq(|df|, i requires 0 <= i < |df| =>
      Column(Str(Sanitize(Renamed(df[i].name, charDefault), badChars, charDefault)), df[i].dtype, df[i].cells))
  }

  /** `cols_to_str`: every column whose dtype is not "object" is replaced by its text
      rendering, which has dtype "object"; names and order stay. */
  function ColsToStr(df: Frame): (r: Frame)
    ensures Labels(r) == Labels(df)
    ensures forall i | 0 <= i < |r| :: r[i].dtype == "object"
    ensures forall i | 0 <= i < |r| && df[i].dtype == "object" :: r[i] == df[i]
    ensures forall i | 0 <= i < |r| && df[i].dtype != "object" :: r[i].cells == AsText(df[i].cells)
  {
    seq(|df|, i requires 0 <= i < |df| =>
      if df[i].dtype == "object" then df[i] else Column(df[i].name, "object", AsText(df[i].cells)))
  }

  /** The keyword arguments of `df_to_gbq` that steer it (`print_info` only logs). */
  datatype Options = Options(ifExists: string, mode: string, colsAsStr: bool, cleanColNames: bool)

  /** The defaults of `df_to_gbq`: append, plain pandas mode, no stringifying, clean names. */
  const DefaultOptions: Options := Options("append", "pandas", false, true)

  /** The BigQuery calls `df_to_gbq` makes: the existence check, a read of the table
      schema, a schema write with `update_table`, and the upload. */
  datatype Call = TableExists | FetchSchema | WriteSchema(schema: Schema) | Upload(frame: Frame)

  /** The frame `df_to_gbq` ends with (or the `KeyError` it raises), the remote schema
      afterwards and the calls it made, in order. */
  datatype Run = Run(outcome: Outcome<Frame>, remote: Schema, calls: seq<Call>)

  /** The three conditions under which `df_to_gbq` reconciles schemas. */
  predicate Reconciles(opts: Options, tableExists: bool) {
    opts.mode == "wrangle" && tableExists && opts.ifExists != "replace"
  }

  /** The frame after the optional name cleaning that opens `df_to_gbq`. */
  function Prepared(df: Frame, opts: Options): Frame {
    if opts.cleanColNames then CleanColnames(df, CharDefault, BadChars) else df
  }

  /** The frame after the optional stringification that precedes the upload. */
  function Finished(df: Frame, opts: Options): Frame {
    if opts.colsAsStr then ColsToStr(df) else df
  }

  /** One schema write per schema sent. */
  function WriteCalls(writes: seq<Schema>): (r: seq<Call>)
    ensures |r| == |writes|
    ensures forall i | 0 <= i < |r| :: r[i] == WriteSchema(writes[i])
  {
    seq(|writes|, i requires 0 <= i < |writes| => WriteSchema(writes[i]))
  }

  /** The reconciliation block of `df_to_gbq` once the table is known to exist: read the
      remote schema, diff it against the frame's, and when they differ update the remote
      schema and then reshape the frame to it. */
  function Reconcile(df: Frame, remote: Schema): (rec: Run)
    ensures rec.calls != [] && rec.calls[0] == FetchSchema && rec.calls[|rec.calls| - 1] == FetchSchema
    ensures remote <= rec.remote && |rec.remote| <= |remote| + 1
  {
    var diffs := SchemaDiff(remote, DfToBqSchema(df));
    if |diffs| == 0 then Run(Ok(df), remote, [FetchSchema])
    else
      var u := UpdateBqSchema(remote, diffs);
      var lookups := if HasAdd(diffs) then [FetchSchema] else [];
      var calls := [FetchSchema] + lookups + WriteCalls(u.writes) + [FetchSchema];
      assert calls[0] == FetchSchema && calls[|calls| - 1] == FetchSchema;
      Run(UpdateDfSchema(u.remote, diffs, df), u.remote, calls)
  }

  /** `df_to_gbq`, with the table's existence and current schema as inputs; the upload
      itself is the last call of the log. */
  function DfToGbq(df: Frame, opts: Options, tableExists: bool, remote: Schema): (run: Run)
    ensures run.calls != []
    ensures run.outcome.Ok? ==> run.calls[|run.calls| - 1] == Upload(run.outcome.value)
    ensures remote <= run.remote && |run.remote| <= |remote| + 1
    ensures !Reconciles(opts, tableExists) ==> run.remote == remote
  {
    var prepared := Prepared(df, opts);
    if opts.mode == "wrangle" then
      if tableExists && opts.ifExists != "replace" then
        var rec := Reconcile(prepared, remote);
        match rec.outcome
        case KeyError(missing) => Run(KeyError(missing), rec.remote, [TableExists] + rec.calls)
        case Ok(reshaped) =>
          var out := Finished(reshaped, opts);
          Run(Ok(out), rec.remote, [TableExists] + rec.calls + [Upload(out)])
      else
        var out := Finished(prepared, opts);
        Run(Ok(out), remote, [TableExists, Upload(out)])
    else
      var out := Finished(prepared, opts);
      Run(Ok(out), remote, [Upload(out)])
  }
}
