/**
 * sklearn's LabelEncoder, by its documented behaviour: fitting keeps the
 * sorted list of distinct values (`classes_`), `transform` maps a value to
 * its position in that list and fails on a value it has not seen, and
 * `inverse_transform` maps position i back to `classes_[i]`.
 */
module LabelEncoder {
  import opened Wrappers
  import opened StringOrder

  /** A fitted encoder; `classes` is `classes_`. */
  datatype Encoder = Encoder(classes: seq<string>)

  lemma SortedCons(h: string, t: seq<string>)
    requires StrictlySorted(t)
    requires forall v :: v in t ==> Lt(h, v)
    ensures StrictlySorted([h] + t)
  {
    var s := [h] + t;
    forall i, j | 0 <= i < j < |s| ensures Lt(s[i], s[j]) {
      if i == 0 {
        assert s[j] == t[j - 1];
      } else {
        assert s[i] == t[i - 1] && s[j] == t[j - 1];
      }
    }
  }

  lemma BelowAll(x: string, s: seq<string>)
    requires StrictlySorted(s) && s != [] && Lt(x, s[0])
    ensures forall v :: v in s ==> Lt(x, v)
  {
    forall v | v in s ensures Lt(x, v) {
      var j :| 0 <= j < |s| && s[j] == v;
      if j > 0 {
        LtTransitive(x, s[0], v);
      }
    }
  }

  /** Adds one value to a sorted class list, keeping it sorted and free of repeats. */
  function Insert(s: seq<string>, x: string): (r: seq<string>)
    requires StrictlySorted(s)
    ensures StrictlySorted(r)
    ensures forall v :: v in r <==> v in s || v == x
  {
    if s == [] then [x]
    else if x == s[0] then s
    else if Lt(x, s[0]) then
      BelowAll(x, s);
      SortedCons(x, s);
      [x] + s
    else
      LtTotal(x, s[0]);
      var rest := Insert(s[1..], x);
      assert forall v :: v in s[1..] ==> Lt(s[0], v) by {
        forall v | v in s[1..] ensures Lt(s[0], v) {
          var j :| 0 <= j < |s[1..]| && s[1..][j] == v;
          assert s[j + 1] == v;
        }
      }
      SortedCons(s[0], rest);
      assert s == [s[0]] + s[1..];
      [s[0]] + rest
  }

  /** `classes_` after `fit(column)`: its distinct values in sorted order. */
  function Fit(column: seq<string>): (classes: seq<string>)
    ensures StrictlySorted(classes)
    ensures forall v :: v in classes <==> v in column
  {
    if column == [] then []
    else
      var n := |column| - 1;
      assert column == column[..n] + [column[n]];
      Insert(Fit(column[..n]), column[n])
  }

  /** The position of `v` in `classes`, or None when `v` is not one of them. */
  function IndexOf(classes: seq<string>, v: string): (r: Option<nat>)
    ensures r.None? <==> v !in classes
    ensures r.Some? ==> r.value < |classes| && classes[r.value] == v
  {
    if classes == [] then None
    else if classes[0] == v then Some(0)
    else
      assert classes == [classes[0]] + classes[1..];
      match IndexOf(classes[1..], v)
      case None => None
      case Some(k) => Some(k + 1)
  }

  /** `transform`: None (sklearn raises ValueError) as soon as one value was not seen at fit time. */
  function Transform(enc: Encoder, column: seq<string>): (r: Option<seq<nat>>)
    ensures r.Some? <==> forall i :: 0 <= i < |column| ==> column[i] in enc.classes
    ensures r.Some? ==> |r.value| == |column|
    ensures r.Some? ==> forall i :: 0 <= i < |column| ==>
                          r.value[i] < |enc.classes| && enc.classes[r.value[i]] == column[i]
  {
    if column == [] then Some([])
    else
      match IndexOf(enc.classes, column[0])
      case None => None
      case Some(k) =>
        match Transform(enc, column[1..])
        case None =>
          assert !(forall i :: 0 <= i < |column| ==> column[i] in enc.classes) by {
            var i :| 0 <= i < |column[1..]| && column[1..][i] !in enc.classes;
            assert column[i + 1] !in enc.classes;
          }
          None
        case Some(rest) =>
          var codes := [k] + rest;
          assert forall i :: 0 < i < |column| ==> codes[i] == rest[i - 1] && column[i] == column[1..][i - 1];
          Some(codes)
  }

  /** `inverse_transform`: None (sklearn raises ValueError) as soon as one code is outside `0..k-1`. */
  function InverseTransform(enc: Encoder, codes: seq<int>): (r: Option<seq<string>>)
    ensures r.Some? <==> forall i :: 0 <= i < |codes| ==> 0 <= codes[i] < |enc.classes|
    ensures r.Some? ==> |r.value| == |codes|
    ensures r.Some? ==> forall i :: 0 <= i < |codes| ==> r.value[i] == enc.classes[codes[i]]
  {
    if codes == [] then Some([])
    else if !(0 <= codes[0] < |enc.classes|) then None
    else
      match InverseTransform(enc, codes[1..])
      case None =>
        assert !(forall i :: 0 <= i < |codes| ==> 0 <= codes[i] < |enc.classes|) by {
          var i :| 0 <= i < |codes[1..]| && !(0 <= codes[1..][i] < |enc.classes|);
          assert codes[i + 1] == codes[1..][i];
        }
        None
      case Some(rest) =>
        var labels := [enc.classes[codes[0]]] + rest;
        assert forall i :: 0 < i < |codes| ==> labels[i] == rest[i - 1] && codes[i] == codes[1..][i - 1];
        Some(labels)
  }

  /** `fit_transform`: the fitted encoder together with the codes of the column it was fitted on. */
  function FitTransform(column: seq<string>): (fitted: (Encoder, seq<nat>))
    ensures StrictlySorted(fitted.0.classes)
    ensures forall v :: v in fitted.0.classes <==> v in column
    ensures Transform(fitted.0, column) == Some(fitted.1)
  {
    var enc := Encoder(Fit(column));
    (enc, Transform(enc, column).value)
  }

  /** Decoding what was encoded gives the column back. */
  lemma RoundTrip(enc: Encoder, column: seq<string>)
    requires Transform(enc, column).Some?
    ensures InverseTransform(enc, Transform(enc, column).value) == Some(column)
  {
    var codes := Transform(enc, column).value;
    var back := InverseTransform(enc, codes);
    assert back.Some?;
    assert back.value == column;
  }

  /** Encoding what was decoded gives the codes back: codes and classes are in one-to-one correspondence. */
  lemma InverseRoundTrip(enc: Encoder, codes: seq<int>)
    requires StrictlySorted(enc.classes)
    requires InverseTransform(enc, codes).Some?
    ensures Transform(enc, InverseTransform(enc, codes).value) == Some(codes)
  {
    var labels := InverseTransform(enc, codes).value;
    var again := Transform(enc, labels);
    assert again.Some?;
    forall i | 0 <= i < |codes| ensures again.value[i] == codes[i] {
      SortedDistinct(enc.classes, again.value[i], codes[i]);
    }
    assert again.value == codes;
  }

  /** Encoding is injective: two columns with the same codes are the same column. */
  lemma TransformInjective(enc: Encoder, c1: seq<string>, c2: seq<string>)
    requires Transform(enc, c1).Some? && Transform(enc, c1) == Transform(enc, c2)
    ensures c1 == c2
  {
    RoundTrip(enc, c1);
    RoundTrip(enc, c2);
  }

  /** The set of codes that occur in an encoded column. */
  function UsedCodes(codes: seq<nat>): set<nat>
  {
    set i | 0 <= i < |codes| :: codes[i]
  }

  /** A fitted encoder has exactly as many classes as the column has distinct values. */
  lemma FitCardinality(column: seq<string>)
    ensures |Fit(column)| == |set v | v in column|
  {
    var classes := Fit(column);
    SortedCardinality(classes);
    assert (set v | v in classes) == (set v | v in column);
  }

  /** The codes of a fitted column are dense: every code in `0..k-1` is used by some cell. */
  lemma FitSurjective(column: seq<string>, enc: Encoder, codes: seq<nat>)
    requires FitTransform(column) == (enc, codes)
    ensures forall k :: 0 <= k < |enc.classes| ==> k in UsedCodes(codes)
  {
    assert Transform(enc, column) == Some(codes);
    forall k | 0 <= k < |enc.classes| ensures k in UsedCodes(codes) {
      assert enc.classes[k] in column;
      var i :| 0 <= i < |column| && column[i] == enc.classes[k];
      SortedDistinct(enc.classes, codes[i], k);
      assert codes[i] in UsedCodes(codes);
    }
  }
}
