/**
 The in-memory dataset (a pandas DataFrame) reduced to what schema reconciliation
 observes: an ordered sequence of columns, each with a label, a dtype tag and an
 abstract description of its cells.
 */
module Frame {
  import opened Seqs

  /** A pandas column label: a Python `str`, or any other hashable value (an int, say)
      carried together with its `str()` rendering. */
  datatype Label = Str(text: string) | Other(repr: string)

  /** A pandas dtype name such as "int64", "float64", "bool" or "object". */
  type Dtype = string

  /** What a column holds, abstractly: the caller's data, the all-`None` column written
      by `df[name] = None`, or the text rendering made by `astype(str)`. */
  datatype Cells = Data(key: nat) | AllNull | AsText(source: Cells)

  datatype Column = Column(name: Label, dtype: Dtype, cells: Cells)

  type Frame = seq<Column>

  /** `df.columns`, in order. */
  function Labels(df: Frame): (r: seq<Label>)
    ensures |r| == |df|
    ensures forall i | 0 <= i < |df| :: r[i] == df[i].name
  {
    seq(|df|, i requires 0 <= i < |df| => df[i].name)
  }

  /** The column `df[name] = None` appends: object dtype, every cell `None`. */
  function Placeholder(name: Label): Column {
    Column(name, "object", AllNull)
  }

  /** The outcome of an operation that may raise pandas' `KeyError` for absent labels. */
  datatype Outcome<T> = Ok(value: T) | KeyError(missing: seq<Label>)

  /** The columns of `df` labelled `name`, in frame order (pandas allows repeated labels). */
  function ColumnsNamed(df: Frame, name: Label): (r: Frame)
    ensures forall c | c in r :: c in df && c.name == name
    ensures forall c | c in df && c.name == name :: c in r
    ensures r == [] <==> name !in Labels(df)
    ensures NoDups(Labels(df)) ==> |r| <= 1
  {
    if df == [] then []
    else
      var front := df[..|df| - 1];
      var last := df[|df| - 1];
      assert df == front + [last];
      assert Labels(front) == Labels(df)[..|df| - 1];
      ColumnsNamed(front, name) + (if last.name == name then [last] else [])
  }

  /** The requested labels that `df` lacks, in request order. */
  function Missing(df: Frame, names: seq<Label>): (r: seq<Label>)
    ensures forall n | n in r :: n in names && n !in Labels(df)
    ensures forall n | n in names && n !in Labels(df) :: n in r
  {
    if names == [] then []
    else
      var n := names[|names| - 1];
      assert names == names[..|names| - 1] + [n];
      Missing(df, names[..|names| - 1]) + (if n in Labels(df) then [] else [n])
  }

  /** The columns `df[names]` selects when every label is present: for each requested
      label, every column carrying it. */
  function Gather(df: Frame, names: seq<Label>): (r: Frame)
    ensures forall c | c in r :: c in df && c.name in names
  {
    if names == [] then []
    else
      assert names == names[..|names| - 1] + [names[|names| - 1]];
      Gather(df, names[..|names| - 1]) + ColumnsNamed(df, names[|names| - 1])
  }

  /** The labels of a concatenation are the concatenated labels. */
  lemma LabelsConcat(a: Frame, b: Frame)
    ensures Labels(a + b) == Labels(a) + Labels(b)
  {
  }

  /** With distinct labels, a present label picks exactly one column. */
  lemma OneNamed(df: Frame, name: Label)
    requires NoDups(Labels(df)) && name in Labels(df)
    ensures Labels(ColumnsNamed(df, name)) == [name]
  {
    var picked := ColumnsNamed(df, name);
    assert |picked| == 1 && picked[0] in picked;
  }

  /** With distinct labels and every requested label present, `df[names]` has exactly
      the requested labels, in request order. */
  lemma {:induction false} GatherLabels(df: Frame, names: seq<Label>)
    requires NoDups(Labels(df))
    requires forall n | n in names :: n in Labels(df)
    ensures Labels(Gather(df, names)) == names
  {
    if names != [] {
      var front, n := names[..|names| - 1], names[|names| - 1];
      assert names == front + [n];
      GatherLabels(df, front);
      OneNamed(df, n);
      LabelsConcat(Gather(df, front), ColumnsNamed(df, n));
    }
  }

  /** `df[names]`: the selected, reordered frame, or `KeyError` naming the absent labels. */
  function Select(df: Frame, names: seq<Label>): (r: Outcome<Frame>)
    ensures r.Ok? <==> forall n | n in names :: n in Labels(df)
    ensures r.Ok? ==> forall c | c in r.value :: c in df && c.name in names
    ensures r.Ok? && NoDups(Labels(df)) ==> Labels(r.value) == names
    ensures r.KeyError? ==> NoDups(r.missing) && r.missing != []
    ensures r.KeyError? ==> forall n | n in r.missing :: n in names && n !in Labels(df)
    ensures r.KeyError? ==> forall n | n in names :: n in r.missing <==> n !in Labels(df)
  {
    var absent := Missing(df, names);
    if absent == [] then
      (if NoDups(Labels(df)) then GatherLabels(df, names); Ok(Gather(df, names))
       else Ok(Gather(df, names)))
    else
      assert absent[0] in Dedup(absent);
      KeyError(Dedup(absent))
  }

  /** In a frame with distinct labels a column is fixed by its label. */
  lemma ColumnByLabel(df: Frame, c: Column, i: int)
    requires NoDups(Labels(df))
    requires c in df && 0 <= i < |df| && df[i].name == c.name
    ensures c == df[i]
  {
    var j :| 0 <= j < |df| && df[j] == c;
    assert Labels(df)[j] == Labels(df)[i];
  }

  /** Columns drawn from a frame with distinct labels are fixed by their labels. */
  lemma DrawnByLabel(r: Frame, df: Frame)
    requires NoDups(Labels(df))
    requires forall c | c in r :: c in df
    requires Labels(r) == Labels(df)
    ensures r == df
  {
    forall i | 0 <= i < |df| ensures r[i] == df[i] {
      assert r[i] in r;
      var j :| 0 <= j < |df| && df[j] == r[i];
      assert Labels(df)[j] == Labels(r)[i];
    }
  }

  /** Selecting a frame's own labels, when they are distinct, gives the frame back. */
  lemma SelectIdentity(df: Frame)
    requires NoDups(Labels(df))
    ensures Select(df, Labels(df)) == Ok(df)
  {
    var o := Select(df, Labels(df));
    assert o.Ok?;
    DrawnByLabel(o.value, df);
  }
}
