/**
 * The pandas Series operations the core relies on, on a column of raw
 * string cells: `replace(old, new)`, filtering out the unknown marker,
 * and `mode()[0]` (a most frequent value, ties going to the smallest in
 * sorted order, as pandas returns its modes sorted).
 */
module Series {
  import opened Wrappers
  import opened StringOrder
  import opened LabelEncoder

  /** The unknown-value marker of the mushroom data set. */
  const Marker: string := "?"

  /** `Series.replace(from, to)`: every cell equal to `from` becomes `to`. */
  function ReplaceAll(cells: seq<string>, from: string, to: string): (r: seq<string>)
  {
    seq(|cells|, i requires 0 <= i < |cells| => if cells[i] == from then to else cells[i])
  }

  /** `s[s != '?']`: the cells that are not the marker, in order. */
  function NonMarker(cells: seq<string>): (r: seq<string>)
    ensures forall v :: v in r <==> v in cells && v != Marker
  {
    if cells == [] then []
    else
      assert cells == [cells[0]] + cells[1..];
      if cells[0] == Marker then NonMarker(cells[1..]) else [cells[0]] + NonMarker(cells[1..])
  }

  /** The number of cells equal to `v`. */
  function Count(cells: seq<string>, v: string): (n: nat)
    ensures n <= |cells|
    ensures n == 0 <==> v !in cells
  {
    if cells == [] then 0
    else
      assert cells == [cells[0]] + cells[1..];
      (if cells[0] == v then 1 else 0) + Count(cells[1..], v)
  }

  /** Dropping the markers does not change how often any other value occurs. */
  lemma {:induction false} NonMarkerCount(cells: seq<string>, v: string)
    requires v != Marker
    ensures Count(NonMarker(cells), v) == Count(cells, v)
  {
    if cells != [] {
      NonMarkerCount(cells[1..], v);
    }
  }

  /**
   * The index of the first candidate with the largest count: a later candidate
   * replaces the current one only when its count is strictly larger.
   */
  function FirstMostFrequent(candidates: seq<string>, cells: seq<string>): (k: nat)
    requires candidates != []
    ensures k < |candidates|
    ensures forall j :: 0 <= j < |candidates| ==> Count(cells, candidates[j]) <= Count(cells, candidates[k])
    ensures forall j :: 0 <= j < k ==> Count(cells, candidates[j]) < Count(cells, candidates[k])
  {
    if |candidates| == 1 then 0
    else
      var n := |candidates| - 1;
      var k := FirstMostFrequent(candidates[..n], cells);
      assert forall j :: 0 <= j < n ==> candidates[..n][j] == candidates[j];
      if Count(cells, candidates[n]) > Count(cells, candidates[k]) then n else k
  }

  /** `mode()[0]`: None when there are no cells (pandas returns an empty Series and `[0]` raises). */
  function Mode(cells: seq<string>): (m: Option<string>)
    ensures m.None? <==> cells == []
    ensures m.Some? ==> m.value in cells
  {
    var candidates := Fit(cells);
    if candidates == [] then None
    else Some(candidates[FirstMostFrequent(candidates, cells)])
  }

  /**
   * The mode occurs at least as often as any value, and any other value that
   * occurs as often is larger in sorted order.
   */
  lemma ModeIsSmallestMostFrequent(cells: seq<string>, v: string)
    requires Mode(cells).Some?
    ensures Count(cells, v) <= Count(cells, Mode(cells).value)
    ensures v != Mode(cells).value && Count(cells, v) == Count(cells, Mode(cells).value) ==> Lt(Mode(cells).value, v)
  {
    var candidates := Fit(cells);
    var k := FirstMostFrequent(candidates, cells);
    var m := candidates[k];
    assert Mode(cells).value == m;
    if v in cells {
      var j :| 0 <= j < |candidates| && candidates[j] == v;
      if v != m && Count(cells, v) == Count(cells, m) {
        assert j != k;
        assert k < j;
      }
    }
  }
}
