/**
 * Training-time preparation of the mushroom table (`load_and_prepare_data`):
 * the unknown marker in `stalk-root` is replaced by the column's most
 * frequent known value, which is recorded in `replace_map`, and then one
 * label encoder per column turns every cell into its integer code.
 */
module TrainCore {
  import opened Wrappers
  import opened StringOrder
  import opened LabelEncoder
  import opened Series

  const StalkRoot: string := "stalk-root"

  /** The 23 column names given to `read_csv`, label column first. */
  const ColumnNames: seq<string> := [
    "class", "cap-shape", "cap-surface", "cap-color", "bruises", "odor",
    "gill-attachment", "gill-spacing", "gill-size", "gill-color",
    "stalk-shape", "stalk-root", "stalk-surface-above-ring",
    "stalk-surface-below-ring", "stalk-color-above-ring",
    "stalk-color-below-ring", "veil-type", "veil-color", "ring-number",
    "ring-type", "spore-print-color", "population", "habitat"
  ]

  /** The raw table: each column name to its cells, top to bottom. */
  type Table = map<string, seq<string>>

  /** `stalk-root` holds the marker and nothing else, so `mode()` is empty and `mode()[0]` raises. */
  datatype PrepareError = NoKnownStalkRoot

  /** What `load_and_prepare_data` returns: the encoded table, `label_encoders` and `replace_map`. */
  datatype Prepared = Prepared(df: map<string, seq<nat>>, labelEncoders: map<string, Encoder>, replaceMap: map<string, string>)

  /** The table after every marker in a column of `replaceMap` has been replaced by that column's entry. */
  function Filled(raw: Table, replaceMap: map<string, string>): Table
  {
    map c | c in raw :: if c in replaceMap then ReplaceAll(raw[c], Marker, replaceMap[c]) else raw[c]
  }

  /** The replacement map the preparation records, or the error it raises. */
  function StalkRootReplacement(raw: Table): Result<map<string, string>, PrepareError>
    requires StalkRoot in raw
  {
    if Marker in raw[StalkRoot] then
      match Mode(NonMarker(raw[StalkRoot]))
      case None => Err(NoKnownStalkRoot)
      case Some(m) => Ok(map[StalkRoot := m])
    else Ok(map[])
  }

  /** The whole preparation as one value: substitution, then one fitted encoder per column. */
  function Prepare(raw: Table): Result<Prepared, PrepareError>
    requires StalkRoot in raw
  {
    var replaceMap :- StalkRootReplacement(raw);
    var filled := Filled(raw, replaceMap);
    Ok(Prepared(EncodedTable(filled), FittedEncoders(filled), replaceMap))
  }

  /** Every column replaced by its codes under an encoder fitted on it. */
  function EncodedTable(filled: Table): (r: map<string, seq<nat>>)
    ensures r.Keys == filled.Keys
    ensures forall c :: c in filled ==> r[c] == FitTransform(filled[c]).1
  {
    map c | c in filled :: FitTransform(filled[c]).1
  }

  /** One encoder per column, fitted on that column. */
  function FittedEncoders(filled: Table): (r: map<string, Encoder>)
    ensures r.Keys == filled.Keys
    ensures forall c :: c in filled ==> r[c] == FitTransform(filled[c]).0
  {
    map c | c in filled :: FitTransform(filled[c]).0
  }

  /** The columns of the table are the 23 named ones, so `stalk-root` is one of them. */
  lemma StalkRootIsAColumn()
    ensures StalkRoot in set c | c in ColumnNames
  {
    assert ColumnNames[11] == StalkRoot;
  }

  /** The loop of `load_and_prepare_data` over the columns: fit an encoder on each and replace the column by its codes. */
  method EncodeColumns(df: Table, columns: seq<string>) returns (encoded: map<string, seq<nat>>, labelEncoders: map<string, Encoder>)
    requires df.Keys == set c | c in columns
    ensures encoded == EncodedTable(df)
    ensures labelEncoders == FittedEncoders(df)
  {
    encoded := map[];
    labelEncoders := map[];
    for i := 0 to |columns|
      invariant forall c :: c in encoded <==> c in columns[..i]
      invariant forall c :: c in labelEncoders <==> c in columns[..i]
      invariant forall c :: c in encoded ==> encoded[c] == EncodedTable(df)[c]
      invariant forall c :: c in labelEncoders ==> labelEncoders[c] == FittedEncoders(df)[c]
    {
      var column := columns[i];
      assert columns[..i + 1] == columns[..i] + [column];
      var fitted := FitTransform(df[column]);
      encoded := encoded[column := fitted.1];
      labelEncoders := labelEncoders[column := fitted.0];
    }
    assert columns[..|columns|] == columns;
    SameMap(encoded, EncodedTable(df));
    SameMap(labelEncoders, FittedEncoders(df));
  }

  lemma SameMap<V>(a: map<string, V>, b: map<string, V>)
    requires forall c :: c in a <==> c in b
    requires forall c :: c in a ==> a[c] == b[c]
    ensures a == b
  {
  }

  /** `load_and_prepare_data` after `read_csv`: `stalk-root` is rewritten in place, then every column is encoded. */
  method LoadAndPrepareData(raw: Table) returns (r: Result<Prepared, PrepareError>)
    requires raw.Keys == set c | c in ColumnNames
    ensures StalkRoot in raw
    ensures r.Err? <==> Marker in raw[StalkRoot] && forall i :: 0 <= i < |raw[StalkRoot]| ==> raw[StalkRoot][i] == Marker
    ensures r == Prepare(raw)
  {
    StalkRootIsAColumn();
    var df := raw;
    var replaceMap: map<string, string> := map[];
    if Marker in df[StalkRoot] {
      var mode := Mode(NonMarker(df[StalkRoot]));
      if mode.None? {
        assert forall i :: 0 <= i < |raw[StalkRoot]| ==> raw[StalkRoot][i] !in NonMarker(raw[StalkRoot]);
        return Err(NoKnownStalkRoot);
      }
      assert mode.value in raw[StalkRoot] && mode.value != Marker;
      df := df[StalkRoot := ReplaceAll(df[StalkRoot], Marker, mode.value)];
      replaceMap := replaceMap[StalkRoot := mode.value];
    }
    assert StalkRootReplacement(raw) == Ok(replaceMap);
    assert df == Filled(raw, replaceMap);
    var encoded, labelEncoders := EncodeColumns(df, ColumnNames);
    r := Ok(Prepared(encoded, labelEncoders, replaceMap));
  }

  /** A successful preparation, taken apart. */
  lemma PrepareParts(raw: Table, p: Prepared)
    requires StalkRoot in raw && Prepare(raw) == Ok(p)
    ensures StalkRootReplacement(raw) == Ok(p.replaceMap)
    ensures p.df == EncodedTable(Filled(raw, p.replaceMap))
    ensures p.labelEncoders == FittedEncoders(Filled(raw, p.replaceMap))
  {
  }

  /** After substitution `stalk-root` holds no marker. */
  lemma StalkRootHasNoMarker(raw: Table, replaceMap: map<string, string>)
    requires StalkRoot in raw && StalkRootReplacement(raw) == Ok(replaceMap)
    ensures Marker !in Filled(raw, replaceMap)[StalkRoot]
  {
    var col := raw[StalkRoot];
    if Marker in col {
      var m := Mode(NonMarker(col)).value;
      assert replaceMap == map[StalkRoot := m];
      assert m != Marker;
      assert Filled(raw, replaceMap)[StalkRoot] == ReplaceAll(col, Marker, m);
    } else {
      assert Filled(raw, replaceMap)[StalkRoot] == col;
    }
  }

  /** Because substitution comes before fitting, the marker is not in the `stalk-root` encoder's domain. */
  lemma MarkerNotInStalkRootDomain(raw: Table, p: Prepared)
    requires StalkRoot in raw && Prepare(raw) == Ok(p)
    ensures Marker !in p.labelEncoders[StalkRoot].classes
  {
    PrepareParts(raw, p);
    StalkRootHasNoMarker(raw, p.replaceMap);
    assert p.labelEncoders[StalkRoot] == FitTransform(Filled(raw, p.replaceMap)[StalkRoot]).0;
  }

  /** `replace_map` is empty unless `stalk-root` held the marker, and then its only key is `stalk-root`. */
  lemma ReplaceMapShape(raw: Table, p: Prepared)
    requires StalkRoot in raw && Prepare(raw) == Ok(p)
    ensures p.replaceMap.Keys == if Marker in raw[StalkRoot] then {StalkRoot} else {}
  {
    PrepareParts(raw, p);
  }

  /**
   * The recorded replacement is not the marker, occurs in `stalk-root`, occurs
   * there at least as often as any other known value, and is the smallest of
   * the values that tie with it.
   */
  lemma ReplacementIsMode(raw: Table, p: Prepared, w: string)
    requires StalkRoot in raw && Prepare(raw) == Ok(p)
    requires StalkRoot in p.replaceMap
    requires w != Marker
    ensures p.replaceMap[StalkRoot] != Marker && p.replaceMap[StalkRoot] in raw[StalkRoot]
    ensures Count(raw[StalkRoot], w) <= Count(raw[StalkRoot], p.replaceMap[StalkRoot])
    ensures w != p.replaceMap[StalkRoot] && Count(raw[StalkRoot], w) == Count(raw[StalkRoot], p.replaceMap[StalkRoot]) ==>
              Lt(p.replaceMap[StalkRoot], w)
  {
    var col := raw[StalkRoot];
    var known := NonMarker(col);
    PrepareParts(raw, p);
    var m := Mode(known).value;
    assert p.replaceMap[StalkRoot] == m;
    ModeIsSmallestMostFrequent(known, w);
    NonMarkerCount(col, w);
    NonMarkerCount(col, m);
  }

  /**
   * Substitution touches only the marker cells of `stalk-root`: every column
   * keeps its length, and every other cell keeps its value.
   */
  lemma SubstitutionKeepsOtherCells(raw: Table, replaceMap: map<string, string>, c: string, i: int)
    requires StalkRoot in raw && StalkRootReplacement(raw) == Ok(replaceMap)
    requires c in raw && 0 <= i < |raw[c]|
    ensures Filled(raw, replaceMap).Keys == raw.Keys
    ensures |Filled(raw, replaceMap)[c]| == |raw[c]|
    ensures Filled(raw, replaceMap)[c][i] ==
              if c == StalkRoot && raw[c][i] == Marker then replaceMap[StalkRoot] else raw[c][i]
  {
    if c == StalkRoot && raw[c][i] == Marker {
      assert Marker in raw[StalkRoot];
    }
  }

  /** `label_encoders` has one entry per column, among them those the test suite asks for. */
  lemma EncodersPerColumn(raw: Table, p: Prepared)
    requires raw.Keys == set c | c in ColumnNames
    requires StalkRoot in raw && Prepare(raw) == Ok(p)
    ensures p.labelEncoders.Keys == p.df.Keys == raw.Keys
    ensures "class" in p.labelEncoders && "cap-shape" in p.labelEncoders
    ensures "odor" in p.labelEncoders && "gill-size" in p.labelEncoders
  {
    PrepareParts(raw, p);
    assert p.labelEncoders.Keys == raw.Keys;
    TestedColumnsAreNamed();
  }

  lemma TestedColumnsAreNamed()
    ensures var names := set c | c in ColumnNames;
      "class" in names && "cap-shape" in names && "odor" in names && "gill-size" in names
  {
    assert ColumnNames[0] == "class" && ColumnNames[1] == "cap-shape";
    assert ColumnNames[5] == "odor" && ColumnNames[8] == "gill-size";
  }

  /**
   * Each encoded column takes its values in `0..k-1`, where k is the number of
   * distinct values of the column after substitution, and uses every one of them.
   */
  lemma CodesDense(raw: Table, p: Prepared, c: string)
    requires StalkRoot in raw && Prepare(raw) == Ok(p)
    requires c in raw
    ensures |p.labelEncoders[c].classes| == |set v | v in Filled(raw, p.replaceMap)[c]|
    ensures forall i :: 0 <= i < |p.df[c]| ==> p.df[c][i] < |p.labelEncoders[c].classes|
    ensures forall k :: 0 <= k < |p.labelEncoders[c].classes| ==> k in UsedCodes(p.df[c])
  {
    PrepareParts(raw, p);
    var column := Filled(raw, p.replaceMap)[c];
    assert p.labelEncoders[c] == FitTransform(column).0 && p.df[c] == FitTransform(column).1;
    FitCardinality(column);
    FitSurjective(column, p.labelEncoders[c], p.df[c]);
  }

  /** Decoding an encoded column with its encoder gives back the substituted raw column. */
  lemma DecodeGivesFilledColumn(raw: Table, p: Prepared, c: string)
    requires StalkRoot in raw && Prepare(raw) == Ok(p)
    requires c in raw
    ensures InverseTransform(p.labelEncoders[c], p.df[c]) == Some(Filled(raw, p.replaceMap)[c])
  {
    PrepareParts(raw, p);
    var column := Filled(raw, p.replaceMap)[c];
    assert p.labelEncoders[c] == FitTransform(column).0 && p.df[c] == FitTransform(column).1;
    RoundTrip(p.labelEncoders[c], column);
  }
}
