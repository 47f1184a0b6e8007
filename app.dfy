/**
 * The serving process (app.py): `upload_model` installs a loaded artifact in
 * the three process-wide variables by the shape of the loaded object, and
 * `predict` substitutes the unknown marker, encodes the uploaded table with
 * the installed encoders, runs the classifier and decodes its answers into
 * numbered result rows.
 */
module App {
  import opened Wrappers
  import opened LabelEncoder
  import opened Series
  import opened Artifact

  const ClassColumn: string := "class"
  const EdibleText: string := "Edible (Ăn được)"
  const PoisonousText: string := "Poisonous (Độc)"

  /** A column of the uploaded table: raw cells, or codes once its encoder has been applied. */
  datatype Column = Raw(cells: seq<string>) | Coded(codes: seq<nat>)

  /** The uploaded CSV as `read_csv` returns it: the header names in order and each column's cells. */
  datatype CsvTable = CsvTable(names: seq<string>, cols: map<string, seq<string>>)

  /** pandas gives a table distinct column names, each with its cells. */
  predicate WellFormed(t: CsvTable)
  {
    && (forall i, j :: 0 <= i < j < |t.names| ==> t.names[i] != t.names[j])
    && t.cols.Keys == set c | c in t.names
  }

  /** Why a prediction request ends with an error message instead of a result table. */
  datatype PredictError =
    | NoModel                    // no model has been loaded (`model is None`)
    | NoCsvFile                  // the form carried no file
    | NoFallback(column: string) // a marker with neither `replace_map` entry nor any class (`classes_[0]` raises)
    | UnseenLabel(column: string)// `transform` met a value the encoder was not fitted on
    | ClassifierFailed           // `model.predict` raised
    | NoClassEncoder             // `label_encoders['class']` raised KeyError
    | UnseenCode                 // `inverse_transform` met a code outside the class list

  /**
   * The classifier's `predict` on the encoded table: it sees the columns in the
   * uploaded header's order (sklearn matches features by position) and answers
   * with label codes, or None when it raises.
   */
  type Classify = (Classifier, seq<string>, map<string, Column>) -> Option<seq<int>>

  /** One line of the result table: the 1-based row number and the readable prediction. */
  datatype ResultRow = ResultRow(index: nat, readable: string)

  /** `label_meaning.get(label, label)`. */
  function Readable(decoded: string): string
  {
    if decoded == "e" then EdibleText
    else if decoded == "p" then PoisonousText
    else decoded
  }

  /** What a marker cell of column `name` becomes: `replace_map[name]` if present, else the encoder's first class. */
  function Placeholder(enc: Encoder, replaceMap: map<string, string>, name: string): Option<string>
  {
    if name in replaceMap then Some(replaceMap[name])
    else if enc.classes != [] then Some(enc.classes[0])
    else None
  }

  /** The per-column step of `predict`: substitute the marker if the column holds one, then `transform`. */
  function PrepareColumn(enc: Encoder, replaceMap: map<string, string>, name: string, cells: seq<string>): Result<seq<nat>, PredictError>
  {
    var filled :-
      if Marker !in cells then Ok(cells)
      else match Placeholder(enc, replaceMap, name)
        case None => Err(NoFallback(name))
        case Some(v) => Ok(ReplaceAll(cells, Marker, v));
    match Transform(enc, filled)
    case None => Err(UnseenLabel(name))
    case Some(codes) => Ok(codes)
  }

  /** The uploaded table before any column is encoded. */
  function RawFrame(t: CsvTable): map<string, Column>
  {
    map c | c in t.cols :: Raw(t.cols[c])
  }

  /** The loop of `predict` over the columns, in header order, stopping at the first column that fails. */
  function EncodeFrame(names: seq<string>, frame: map<string, Column>, encoders: map<string, Encoder>,
                       replaceMap: map<string, string>): Result<map<string, Column>, PredictError>
  {
    if names == [] then Ok(frame)
    else
      var c := names[0];
      if c in encoders && c in frame && frame[c].Raw? then
        match PrepareColumn(encoders[c], replaceMap, c, frame[c].cells)
        case Err(e) => Err(e)
        case Ok(codes) => EncodeFrame(names[1..], frame[c := Coded(codes)], encoders, replaceMap)
      else EncodeFrame(names[1..], frame, encoders, replaceMap)
  }

  /** The result table: row i (from 1) holds the readable form of the i-th decoded label. */
  function NumberedRows(labels: seq<string>): seq<ResultRow>
  {
    seq(|labels|, i requires 0 <= i < |labels| => ResultRow(i + 1, Readable(labels[i])))
  }

  /**
   * The whole of `predict` as one value; `classify` is handed the header order
   * together with the encoded columns.
   */
  function PredictSpec(model: ModelValue, encoders: map<string, Encoder>, replaceMap: map<string, string>,
                       file: Option<CsvTable>, classify: Classify): Result<seq<ResultRow>, PredictError>
  {
    if model.Absent? then Err(NoModel)
    else if file.None? then Err(NoCsvFile)
    else
      var frame :- EncodeFrame(file.value.names, RawFrame(file.value), encoders, replaceMap);
      var predictions :-
        match model
        case Fitted(c) => (match classify(c, file.value.names, frame) case None => Err(ClassifierFailed) case Some(p) => Ok(p))
        case _ => Err(ClassifierFailed);
      if ClassColumn !in encoders then Err(NoClassEncoder)
      else
        match InverseTransform(encoders[ClassColumn], predictions)
        case None => Err(UnseenCode)
        case Some(labels) => Ok(NumberedRows(labels))
  }

  /**
   * A column that encodes successfully keeps its length, and each code names
   * the substituted cell: the placeholder where the cell was the marker, the
   * cell itself otherwise.
   */
  lemma PlaceholderRule(enc: Encoder, replaceMap: map<string, string>, name: string, cells: seq<string>, codes: seq<nat>)
    requires PrepareColumn(enc, replaceMap, name, cells) == Ok(codes)
    ensures Marker in cells ==> Placeholder(enc, replaceMap, name).Some?
    ensures |codes| == |cells|
    ensures forall i :: 0 <= i < |cells| ==>
              codes[i] < |enc.classes| &&
              enc.classes[codes[i]] == if cells[i] == Marker then Placeholder(enc, replaceMap, name).value else cells[i]
  {
  }

  /**
   * A cell whose substituted value is missing or outside the encoder's domain
   * makes the whole column fail: it is neither dropped nor given some code.
   */
  lemma UnseenValueRejected(enc: Encoder, replaceMap: map<string, string>, name: string, cells: seq<string>, i: int)
    requires 0 <= i < |cells|
    requires cells[i] == Marker ==>
               Placeholder(enc, replaceMap, name).None? || Placeholder(enc, replaceMap, name).value !in enc.classes
    requires cells[i] != Marker ==> cells[i] !in enc.classes
    ensures PrepareColumn(enc, replaceMap, name, cells).Err?
  {
    if PrepareColumn(enc, replaceMap, name, cells).Ok? {
      PlaceholderRule(enc, replaceMap, name, cells, PrepareColumn(enc, replaceMap, name, cells).value);
    }
  }

  /** The columns `names` lists are all present and still raw. */
  predicate RawColumns(names: seq<string>, frame: map<string, Column>)
  {
    forall c :: c in names ==> c in frame && frame[c].Raw?
  }

  /**
   * Encoding the table succeeds exactly when every listed column that has an
   * encoder prepares successfully; then those columns hold their codes and
   * every other column is left as it was.
   */
  lemma {:induction false} EncodeFrameOutcome(names: seq<string>, frame: map<string, Column>,
                                              encoders: map<string, Encoder>, replaceMap: map<string, string>)
    requires forall i, j :: 0 <= i < j < |names| ==> names[i] != names[j]
    requires RawColumns(names, frame)
    ensures EncodeFrame(names, frame, encoders, replaceMap).Err? <==>
              exists c :: c in names && c in encoders && PrepareColumn(encoders[c], replaceMap, c, frame[c].cells).Err?
    ensures EncodeFrame(names, frame, encoders, replaceMap).Ok? ==>
              var out := EncodeFrame(names, frame, encoders, replaceMap).value;
              && out.Keys == frame.Keys
              && (forall c :: c in names && c in encoders ==>
                    out[c] == Coded(PrepareColumn(encoders[c], replaceMap, c, frame[c].cells).value))
              && (forall c :: c in frame && (c !in names || c !in encoders) ==> out[c] == frame[c])
  {
    if names != [] {
      var c := names[0];
      var rest := names[1..];
      assert forall x :: x in names <==> x == c || x in rest;
      assert c !in rest;
      if c in encoders {
        var prepared := PrepareColumn(encoders[c], replaceMap, c, frame[c].cells);
        if prepared.Ok? {
          var next := frame[c := Coded(prepared.value)];
          assert forall x :: x in rest ==> next[x] == frame[x];
          EncodeFrameOutcome(rest, next, encoders, replaceMap);
        }
      } else {
        EncodeFrameOutcome(rest, frame, encoders, replaceMap);
      }
    }
  }

  /**
   * With a model loaded, a cell of an encoded column whose substituted value
   * the encoder has not seen makes the whole prediction fail.
   */
  lemma UnseenValueFailsPrediction(model: ModelValue, encoders: map<string, Encoder>, replaceMap: map<string, string>,
                                   t: CsvTable, classify: Classify,
                                   c: string, i: int)
    requires WellFormed(t) && !model.Absent?
    requires c in t.cols && c in encoders && 0 <= i < |t.cols[c]|
    requires t.cols[c][i] == Marker ==>
               Placeholder(encoders[c], replaceMap, c).None? || Placeholder(encoders[c], replaceMap, c).value !in encoders[c].classes
    requires t.cols[c][i] != Marker ==> t.cols[c][i] !in encoders[c].classes
    ensures PredictSpec(model, encoders, replaceMap, Some(t), classify).Err?
  {
    UnseenValueRejected(encoders[c], replaceMap, c, t.cols[c], i);
    EncodeFrameOutcome(t.names, RawFrame(t), encoders, replaceMap);
    assert RawFrame(t)[c].cells == t.cols[c];
  }

  /**
   * When the classifier answers with codes the `class` encoder knows, the result
   * has one row per prediction, numbered from 1, holding the readable form of
   * the decoded label.
   */
  lemma PredictRows(classifier: Classifier, encoders: map<string, Encoder>, replaceMap: map<string, string>,
                    t: CsvTable, classify: Classify,
                    frame: map<string, Column>, predictions: seq<int>)
    requires EncodeFrame(t.names, RawFrame(t), encoders, replaceMap) == Ok(frame)
    requires classify(classifier, t.names, frame) == Some(predictions)
    requires ClassColumn in encoders
    requires forall i :: 0 <= i < |predictions| ==> 0 <= predictions[i] < |encoders[ClassColumn].classes|
    ensures PredictSpec(Fitted(classifier), encoders, replaceMap, Some(t), classify).Ok?
    ensures var rows := PredictSpec(Fitted(classifier), encoders, replaceMap, Some(t), classify).value;
      && |rows| == |predictions|
      && forall i :: 0 <= i < |rows| ==>
           rows[i] == ResultRow(i + 1, Readable(encoders[ClassColumn].classes[predictions[i]]))
  {
  }

  /** Without a `class` encoder (a bare-classifier artifact, say) every prediction with a model fails. */
  lemma NoClassEncoderFails(model: ModelValue, encoders: map<string, Encoder>, replaceMap: map<string, string>,
                            t: CsvTable, classify: Classify)
    requires !model.Absent? && ClassColumn !in encoders
    ensures PredictSpec(model, encoders, replaceMap, Some(t), classify).Err?
  {
  }

  /** The serving process's state: the globals `model`, `label_encoders` and `replace_map`. */
  class Server {
    var model: ModelValue
    var labelEncoders: map<string, Encoder>
    var replaceMap: map<string, string>

    constructor ()
      ensures model == Absent && labelEncoders == map[] && replaceMap == map[]
    {
      model := Absent;
      labelEncoders := map[];
      replaceMap := map[];
    }

    /** `upload_model`: install the loaded object by its shape; without a file nothing changes. */
    method UploadModel(file: Option<Loaded>)
      modifies this
      ensures file.None? ==>
                model == old(model) && labelEncoders == old(labelEncoders) && replaceMap == old(replaceMap)
      ensures file.Some? && file.value.Triple? ==>
                model == file.value.model && labelEncoders == file.value.encoders && replaceMap == file.value.replaceMap
      ensures file.Some? && file.value.Pair? ==>
                model == file.value.model && labelEncoders == file.value.encoders && replaceMap == map[]
      ensures file.Some? && file.value.Other? ==>
                model == file.value.model && labelEncoders == map[] && replaceMap == map[]
    {
      if file.Some? {
        match file.value
        case Triple(m, e, r) =>
          model, labelEncoders, replaceMap := m, e, r;
        case Pair(m, e) =>
          model, labelEncoders := m, e;
          replaceMap := map[];
        case Other(m) =>
          model := m;
          labelEncoders := map[];
          replaceMap := map[];
      }
    }

    /** `predict`: rewrite the uploaded table column by column, classify, decode and number the rows. */
    method Predict(file: Option<CsvTable>, classify: Classify)
      returns (r: Result<seq<ResultRow>, PredictError>)
      ensures model.Absent? ==> r == Err(NoModel)
      ensures r == PredictSpec(model, labelEncoders, replaceMap, file, classify)
    {
      if model.Absent? {
        return Err(NoModel);
      }
      if file.None? {
        return Err(NoCsvFile);
      }
      var data := file.value;
      var frame := RawFrame(data);
      for i := 0 to |data.names|
        invariant EncodeFrame(data.names, RawFrame(data), labelEncoders, replaceMap) ==
                  EncodeFrame(data.names[i..], frame, labelEncoders, replaceMap)
      {
        var col := data.names[i];
        assert data.names[i..][1..] == data.names[i + 1..];
        if col in labelEncoders && col in frame && frame[col].Raw? {
          var codes := PrepareColumn(labelEncoders[col], replaceMap, col, frame[col].cells);
          if codes.Err? {
            return Err(codes.error);
          }
          frame := frame[col := Coded(codes.value)];
        }
      }
      assert data.names[|data.names|..] == [];
      assert EncodeFrame(data.names, RawFrame(data), labelEncoders, replaceMap) == Ok(frame);
      var predictions: seq<int>;
      if model.Unusable? {
        return Err(ClassifierFailed);
      }
      var out := classify(model.classifier, data.names, frame);
      if out.None? {
        return Err(ClassifierFailed);
      }
      predictions := out.value;
      if ClassColumn !in labelEncoders {
        return Err(NoClassEncoder);
      }
      var decoded := InverseTransform(labelEncoders[ClassColumn], predictions);
      if decoded.None? {
        return Err(UnseenCode);
      }
      var labels := decoded.value;
      var rows: seq<ResultRow> := [];
      for i := 0 to |labels|
        invariant |rows| == i
        invariant forall j :: 0 <= j < i ==> rows[j] == ResultRow(j + 1, Readable(labels[j]))
      {
        rows := rows + [ResultRow(i + 1, Readable(labels[i]))];
      }
      assert rows == NumberedRows(labels);
      r := Ok(rows);
    }
  }
}
