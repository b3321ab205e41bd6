/** The dataset handed to the trainer and the builder that assembles it from a
    raw table: column selection, header selection and label encoding
    (src/dataset.rs). */
module Datasets {
  import opened Wrappers
  import opened Grids
  import opened Unique

  /** A built dataset. `released` records the trainer's post-training release of
      the numeric buffer; the shape of `data` stays readable after it. */
  datatype Dataset = Dataset(
    headers: seq<string>,
    data: Matrix,
    labels: seq<int>,
    labelNames: map<int, string>,
    released: bool)
  {
    predicate Valid() {
      data.Valid()
    }

    /** The number of feature columns the dataset was built with. */
    function NFeatures(): nat {
      data.ncols
    }
  }

  /** Why `build` stops (each is a panic in the source). */
  datatype BuildError =
    | NoDataLoaded
    | ColumnOutOfRange(column: nat)
    | Unparsable(column: nat)
    | HeaderOutOfRange(column: nat)

  /** Column f of the table parsed entry by entry, or None when some entry does
      not parse (`f64::from_str(..).unwrap()` panics on it). */
  function ParseColumn(t: Table, f: nat, parse: string -> Option<real>): (r: Option<seq<real>>)
    requires t.Valid() && f < t.ncols
    ensures r.Some? <==> forall i :: 0 <= i < |t.rows| ==> parse(t.rows[i][f]).Some?
    ensures r.Some? ==> |r.value| == |t.rows|
    ensures r.Some? ==> forall i :: 0 <= i < |t.rows| ==> Some(r.value[i]) == parse(t.rows[i][f])
  {
    if forall i :: 0 <= i < |t.rows| ==> parse(t.rows[i][f]).Some? then
      Some(seq(|t.rows|, i requires 0 <= i < |t.rows| => parse(t.rows[i][f]).value))
    else
      None
  }

  /** `concatenate![Axis(1), m, col]`: one more column on the right. */
  function AppendColumn(m: Matrix, col: seq<real>): (r: Matrix)
    requires m.Valid() && |col| == |m.rows|
    ensures r.Valid() && r.ncols == m.ncols + 1 && |r.rows| == |m.rows|
    ensures forall i, j :: 0 <= i < |m.rows| && 0 <= j < m.ncols ==> r.rows[i][j] == m.rows[i][j]
    ensures forall i :: 0 <= i < |m.rows| ==> r.rows[i][m.ncols] == col[i]
  {
    Grid(seq(|m.rows|, i requires 0 <= i < |m.rows| => m.rows[i] + [col[i]]), m.ncols + 1)
  }

  /** Column f of the table exists and every entry of it parses. */
  ghost predicate ColumnParses(t: Table, f: nat, parse: string -> Option<real>)
  {
    t.Valid() && f < t.ncols && forall i :: 0 <= i < |t.rows| ==> parse(t.rows[i][f]).Some?
  }

  /** No two entries of u are equal. */
  ghost predicate AllDifferent(u: seq<string>) {
    forall a, b :: 0 <= a < b < |u| ==> u[a] != u[b]
  }

  /** The loop that numbers the unique labels: entry i of u gets number i, in a
      map from numbers to labels and in a map from labels to numbers
      (src/dataset.rs:82-87). */
  method NumberLabels(u: seq<string>) returns (labelMapping: map<int, string>, inverse: map<string, int>)
    requires AllDifferent(u)
    ensures forall i :: i in labelMapping <==> 0 <= i < |u|
    ensures forall i :: 0 <= i < |u| ==> labelMapping[i] == u[i]
    ensures forall s :: s in inverse ==> 0 <= inverse[s] < |u| && u[inverse[s]] == s
    ensures forall i :: 0 <= i < |u| ==> u[i] in inverse && inverse[u[i]] == i
  {
    labelMapping, inverse := map[], map[];
    var k := 0;
    while k < |u|
      invariant 0 <= k <= |u|
      invariant forall i :: i in labelMapping <==> 0 <= i < k
      invariant forall i :: 0 <= i < k ==> labelMapping[i] == u[i]
      invariant forall s :: s in inverse ==> 0 <= inverse[s] < k && u[inverse[s]] == s
      invariant forall i :: 0 <= i < k ==> u[i] in inverse && inverse[u[i]] == i
    {
      labelMapping := labelMapping[k := u[k]];
      inverse := inverse[u[k] := k];
      k := k + 1;
    }
  }

  /** The distinct labels, read off the `unique` adaptor: no repeats, every raw
      label among them, and each of them a raw label. */
  lemma DistinctLabels(raw: seq<string>)
    ensures AllDifferent(Distinct(raw))
    ensures forall j :: 0 <= j < |raw| ==> raw[j] in Distinct(raw)
    ensures forall i :: 0 <= i < |Distinct(raw)| ==> Distinct(raw)[i] in raw
  {
    var u := Distinct(raw);
    UniqueFromKeysDistinct(raw, Id, {});
    forall a, b | 0 <= a < b < |u| ensures u[a] != u[b] {
      assert Id(u[a]) != Id(u[b]);
    }
    UniqueFromCovers(raw, Id, {});
    forall j | 0 <= j < |raw| ensures raw[j] in u {
      var i :| 0 <= i < |u| && Id(u[i]) == Id(raw[j]);
    }
    UniqueFromFirstOccurrences(raw, Id, {});
    forall i | 0 <= i < |u| ensures u[i] in raw {
      assert IsFirstOccurrence(u[i], raw, Id);
      var j :| 0 <= j < |raw| && u[i] == raw[j] && FirstOfKey(raw, Id, j);
    }
  }

  /** Numbers the distinct raw labels by first occurrence and encodes every raw
      label by its number (src/dataset.rs:80-89). `labelMapping` goes from number
      to label, `inverse` from label to number, and the two are inverses. */
  method EncodeLabels(raw: seq<string>)
    returns (labelMapping: map<int, string>, inverse: map<string, int>, encoded: seq<int>)
    ensures forall i :: i in labelMapping <==> 0 <= i < |Distinct(raw)|
    ensures forall i :: 0 <= i < |Distinct(raw)| ==> labelMapping[i] == Distinct(raw)[i]
    ensures forall s :: s in inverse <==> s in raw
    ensures forall i :: i in labelMapping ==> labelMapping[i] in inverse && inverse[labelMapping[i]] == i
    ensures forall s :: s in inverse ==> inverse[s] in labelMapping && labelMapping[inverse[s]] == s
    ensures |encoded| == |raw|
    ensures forall j :: 0 <= j < |raw| ==>
      0 <= encoded[j] < |Distinct(raw)| && labelMapping[encoded[j]] == raw[j]
  {
    var u := Distinct(raw);
    DistinctLabels(raw);
    labelMapping, inverse := NumberLabels(u);
    encoded := seq(|raw|, j requires 0 <= j < |raw| => inverse[raw[j]]);
  }

  class DatasetBuilder {
    var unprocessedData: Option<Table>
    var categoryCol: nat
    var selectColumns: seq<nat>
    var headers: seq<string>

    ghost predicate Valid()
      reads this
    {
      unprocessedData.Some? ==> unprocessedData.value.Valid()
    }

    /** `DatasetBuilder::new`: no data, class column 0, nothing selected, no headers. */
    constructor ()
      ensures Valid()
      ensures unprocessedData == None && categoryCol == 0 && selectColumns == [] && headers == []
    {
      unprocessedData := None;
      categoryCol := 0;
      selectColumns := [];
      headers := [];
    }

    /** `read_csv` after the file has been read: stores the table and appends the
        header row to the headers. */
    method ReadCsv(table: Table, header: seq<string>)
      requires Valid() && table.Valid()
      modifies this
      ensures Valid()
      ensures unprocessedData == Some(table) && headers == old(headers) + header
      ensures categoryCol == old(categoryCol) && selectColumns == old(selectColumns)
    {
      unprocessedData := Some(table);
      var k := 0;
      while k < |header|
        invariant 0 <= k <= |header|
        invariant headers == old(headers) + header[..k]
        invariant unprocessedData == Some(table)
        invariant categoryCol == old(categoryCol) && selectColumns == old(selectColumns)
      {
        headers := headers + [header[k]];
        k := k + 1;
      }
    }

    /** `select_columns`: appends the given column indices, in order. */
    method SelectColumns(cols: seq<nat>)
      requires Valid()
      modifies this
      ensures Valid()
      ensures selectColumns == old(selectColumns) + cols
      ensures unprocessedData == old(unprocessedData) && categoryCol == old(categoryCol) && headers == old(headers)
    {
      var k := 0;
      while k < |cols|
        invariant 0 <= k <= |cols|
        invariant selectColumns == old(selectColumns) + cols[..k]
        invariant unprocessedData == old(unprocessedData) && categoryCol == old(categoryCol) && headers == old(headers)
      {
        selectColumns := selectColumns + [cols[k]];
        k := k + 1;
      }
    }

    /** `class_column`: replaces the index of the class column. */
    method ClassColumn(col: nat)
      requires Valid()
      modifies this
      ensures Valid()
      ensures categoryCol == col
      ensures unprocessedData == old(unprocessedData) && selectColumns == old(selectColumns) && headers == old(headers)
    {
      categoryCol := col;
    }

    /** `build`: the feature matrix has one column per selected index, in
        selection order, each the parse of that raw column; the headers are the
        selected headers; the labels are the class column, encoded. */
    method Build(parse: string -> Option<real>) returns (r: Result<Dataset, BuildError>)
      requires Valid()
      ensures unprocessedData.None? ==> r == Err(NoDataLoaded)
      ensures r.Ok? <==>
        && unprocessedData.Some?
        && (forall j :: 0 <= j < |selectColumns| ==> ColumnParses(unprocessedData.value, selectColumns[j], parse))
        && (forall j :: 0 <= j < |selectColumns| ==> selectColumns[j] < |headers|)
        && categoryCol < unprocessedData.value.ncols
      ensures r.Ok? ==>
        var t, d := unprocessedData.value, r.value;
        && d.Valid() && !d.released
        && |d.data.rows| == |t.rows| && d.data.ncols == |selectColumns|
        && (forall i, j :: 0 <= i < |t.rows| && 0 <= j < |selectColumns| ==>
              Some(d.data.rows[i][j]) == parse(t.rows[i][selectColumns[j]]))
        && |d.headers| == |selectColumns|
        && (forall j :: 0 <= j < |selectColumns| ==> d.headers[j] == headers[selectColumns[j]])
        && |d.labels| == |t.rows|
        && (forall i :: i in d.labelNames <==> 0 <= i < |Distinct(t.Column(categoryCol))|)
        && (forall i :: 0 <= i < |Distinct(t.Column(categoryCol))| ==> d.labelNames[i] == Distinct(t.Column(categoryCol))[i])
        && (forall i :: 0 <= i < |t.rows| ==>
              d.labels[i] in d.labelNames && d.labelNames[d.labels[i]] == t.rows[i][categoryCol])
    {
      if unprocessedData.None? {
        return Err(NoDataLoaded);
      }
      var t := unprocessedData.value;
      var features: Matrix := Grid(seq(|t.rows|, _ => []), 0);
      var j := 0;
      while j < |selectColumns|
        invariant 0 <= j <= |selectColumns|
        invariant features.Valid() && features.ncols == j && |features.rows| == |t.rows|
        invariant forall c :: 0 <= c < j ==> ColumnParses(t, selectColumns[c], parse)
        invariant forall i, c :: 0 <= i < |t.rows| && 0 <= c < j ==>
          Some(features.rows[i][c]) == parse(t.rows[i][selectColumns[c]])
      {
        var f := selectColumns[j];
        if f >= t.ncols {
          return Err(ColumnOutOfRange(f));
        }
        var col := ParseColumn(t, f, parse);
        if col.None? {
          return Err(Unparsable(f));
        }
        features := AppendColumn(features, col.value);
        j := j + 1;
      }
      var newHeaders: seq<string> := [];
      j := 0;
      while j < |selectColumns|
        invariant 0 <= j <= |selectColumns|
        invariant |newHeaders| == j
        invariant forall c :: 0 <= c < j ==> selectColumns[c] < |headers| && newHeaders[c] == headers[selectColumns[c]]
      {
        if selectColumns[j] >= |headers| {
          return Err(HeaderOutOfRange(selectColumns[j]));
        }
        newHeaders := newHeaders + [headers[selectColumns[j]]];
        j := j + 1;
      }
      if categoryCol >= t.ncols {
        return Err(ColumnOutOfRange(categoryCol));
      }
      var raw := t.Column(categoryCol);
      var labelMapping, _, labels := EncodeLabels(raw);
      r := Ok(Dataset(newHeaders, features, labels, labelMapping, false));
    }
  }
}
