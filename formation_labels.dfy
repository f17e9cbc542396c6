/**
 * The `Formation` column of `ProjectManager.prepare_data`: the stored intervals are turned the right
 * way up, sorted by start, cut back where they overlap, and every depth is labelled with the
 * half-open interval `[start, end)` that holds it, or 'Unknown'.
 */
module FormationLabels {
  import opened StableSort
  import opened FormationIntervals

  /** A row of `formation_df`: StartDepth, EndDepth, Formation. */
  datatype Band = Band(start: real, end: real, name: string)

  function Min(a: real, b: real): real {
    if a <= b then a else b
  }

  function Max(a: real, b: real): real {
    if a <= b then b else a
  }

  /** `(min(base, top), max(base, top), formation_name)`. */
  function Normalized(v: Interval): (b: Band)
    ensures b.start <= b.end
    ensures (b.start == v.top && b.end == v.base) || (b.start == v.base && b.end == v.top)
    ensures b.name == v.name
  {
    Band(Min(v.top, v.base), Max(v.top, v.base), v.name)
  }

  function NormalizedAll(vs: seq<Interval>): (bs: seq<Band>)
    ensures |bs| == |vs|
    ensures forall i :: 0 <= i < |bs| ==> bs[i].start <= bs[i].end
  {
    seq(|vs|, i requires 0 <= i < |vs| => Normalized(vs[i]))
  }

  /** The sort key of `sort_values('StartDepth')`. */
  function StartOf(b: Band): real {
    b.start
  }

  /** The overlap pass: an end reaching past the next start is cut back to that start. */
  function Truncated(bands: seq<Band>): (r: seq<Band>)
    ensures |r| == |bands|
  {
    seq(|bands|, i requires 0 <= i < |bands| =>
      if i + 1 < |bands| && bands[i].end > bands[i + 1].start then bands[i].(end := bands[i + 1].start) else bands[i])
  }

  /**
   * The loop over `range(len(formation_df) - 1)`: it writes only ends and reads only starts, so each
   * end is compared with the next start as it was before the loop.
   */
  method AdjustOverlaps(a: array<Band>)
    modifies a
    ensures a[..] == Truncated(old(a[..]))
  {
    if a.Length == 0 {
      return;
    }
    for i := 0 to a.Length - 1
      invariant forall k :: 0 <= k < i ==> a[k] == Truncated(old(a[..]))[k]
      invariant forall k :: i <= k < a.Length ==> a[k] == old(a[k])
    {
      var currentEnd := a[i].end;
      var nextStart := a[i + 1].start;
      if currentEnd > nextStart {
        a[i] := a[i].(end := nextStart);
      }
    }
    assert a[..] == Truncated(old(a[..]));
  }

  /** Every band is the right way up and ends no lower than the next one starts. */
  predicate Tiled(bands: seq<Band>) {
    forall i :: 0 <= i < |bands| ==>
      bands[i].start <= bands[i].end && (i + 1 < |bands| ==> bands[i].end <= bands[i + 1].start)
  }

  /**
   * The pass keeps every start and name; an end only moves up, and a band that did not reach
   * past the next start keeps its end.
   */
  lemma TruncatedKeeps(bands: seq<Band>, i: nat)
    requires i < |bands|
    ensures var r := Truncated(bands)[i];
      && r.start == bands[i].start && r.name == bands[i].name && r.end <= bands[i].end
      && (i + 1 < |bands| && bands[i].end <= bands[i + 1].start ==> r.end == bands[i].end)
  {
  }

  /** After the pass over bands sorted by start and the right way up, no two bands overlap. */
  lemma TruncatedTiled(bands: seq<Band>)
    requires SortedBy(bands, StartOf)
    requires forall i :: 0 <= i < |bands| ==> bands[i].start <= bands[i].end
    ensures Tiled(Truncated(bands))
  {
    var r := Truncated(bands);
    forall i | 0 <= i < |r|
      ensures r[i].start <= r[i].end && (i + 1 < |r| ==> r[i].end <= r[i + 1].start)
    {
      TruncatedKeeps(bands, i);
      if i + 1 < |r| {
        assert StartOf(bands[i]) <= StartOf(bands[i + 1]);
        TruncatedKeeps(bands, i + 1);
      }
    }
  }

  /** The bands `prepare_data` labels with, from the intervals stored for a well. */
  function Bands(intervals: seq<Interval>): seq<Band> {
    Truncated(SortBy(NormalizedAll(intervals), StartOf))
  }

  /** Sorting keeps every band the right way up, so the bands of any stored intervals are tiled. */
  lemma BandsTiled(intervals: seq<Interval>)
    ensures Tiled(Bands(intervals))
    ensures |Bands(intervals)| == |intervals|
  {
    var norm := NormalizedAll(intervals);
    var sorted := SortBy(norm, StartOf);
    assert |sorted| == |multiset(sorted)| == |multiset(norm)| == |norm|;
    forall i | 0 <= i < |sorted| ensures sorted[i].start <= sorted[i].end {
      assert sorted[i] in multiset(norm);
      var j :| 0 <= j < |norm| && norm[j] == sorted[i];
    }
    TruncatedTiled(sorted);
  }

  /** Membership in the half-open interval `[start, end)` (`closed='left'`). */
  predicate Covers(b: Band, d: real) {
    b.start <= d < b.end
  }

  /** The first band from `j` on that holds `d`, or `|bands|` when none does. */
  function CoveringFrom(bands: seq<Band>, d: real, j: nat): (k: nat)
    requires j <= |bands|
    ensures j <= k <= |bands|
    ensures k < |bands| ==> Covers(bands[k], d)
    ensures forall i :: j <= i < k ==> !Covers(bands[i], d)
    decreases |bands| - j
  {
    if j == |bands| then j
    else if Covers(bands[j], d) then j
    else CoveringFrom(bands, d, j + 1)
  }

  /** The label of depth `d`: the name of the first band holding it, else 'Unknown'. */
  function LabelOf(bands: seq<Band>, d: real): string {
    var k := CoveringFrom(bands, d, 0);
    if k < |bands| then bands[k].name else UnknownName
  }

  /** In tiled bands every band ends no lower than any later band starts. */
  lemma {:induction false} TiledOrdered(bands: seq<Band>, i: nat, j: nat)
    requires Tiled(bands)
    requires i < j < |bands|
    ensures bands[i].end <= bands[j].start
  {
    if j > i + 1 {
      TiledOrdered(bands, i, j - 1);
    }
  }

  /**
   * A depth lies in at most one tiled band, so each depth gets one entry of pandas'
   * `get_indexer_non_unique` and the label is that band's name; a depth in no band is 'Unknown'.
   */
  lemma LabelUnique(bands: seq<Band>, d: real)
    requires Tiled(bands)
    ensures forall i, j :: 0 <= i < j < |bands| && Covers(bands[i], d) ==> !Covers(bands[j], d)
    ensures forall i :: 0 <= i < |bands| && Covers(bands[i], d) ==> LabelOf(bands, d) == bands[i].name
    ensures (forall i :: 0 <= i < |bands| ==> !Covers(bands[i], d)) ==> LabelOf(bands, d) == UnknownName
  {
    forall i, j | 0 <= i < j < |bands| && Covers(bands[i], d) ensures !Covers(bands[j], d) {
      TiledOrdered(bands, i, j);
    }
  }

  /** The index `get_indexer_non_unique` gives one depth: the band holding it, or -1. */
  method FindBand(bands: seq<Band>, d: real) returns (k: int)
    ensures k == (if CoveringFrom(bands, d, 0) < |bands| then CoveringFrom(bands, d, 0) else -1)
  {
    k := 0;
    while k < |bands| && !Covers(bands[k], d)
      invariant 0 <= k <= |bands|
      invariant CoveringFrom(bands, d, 0) == CoveringFrom(bands, d, k)
    {
      k := k + 1;
    }
    if k == |bands| {
      k := -1;
    }
  }

  /** `formation_for_depths`: 'Unknown' everywhere, then each depth held by a band gets its name. */
  method LabelDepths(bands: seq<Band>, depths: seq<real>) returns (labels: seq<string>)
    ensures |labels| == |depths|
    ensures forall i :: 0 <= i < |depths| ==> labels[i] == LabelOf(bands, depths[i])
  {
    var column := new string[|depths|](_ => UnknownName);
    for idx := 0 to |depths|
      invariant forall i :: 0 <= i < idx ==> column[i] == LabelOf(bands, depths[i])
      invariant forall i :: idx <= i < |depths| ==> column[i] == UnknownName
    {
      var k := FindBand(bands, depths[idx]);
      if k != -1 {
        column[idx] := bands[k].name;
      }
    }
    labels := column[..];
  }

  /** The `Formation` column of a well with stored intervals: each depth labelled by the bands. */
  function Labelled(intervals: seq<Interval>, depths: seq<real>): (r: seq<string>)
    ensures |r| == |depths|
  {
    seq(|depths|, i requires 0 <= i < |depths| => LabelOf(Bands(intervals), depths[i]))
  }

  /** The column as `prepare_data` builds it: normalise, sort, cut back in place, label. */
  method LabelFormations(intervals: seq<Interval>, depths: seq<real>) returns (labels: seq<string>)
    ensures labels == Labelled(intervals, depths)
  {
    var sorted := SortBy(NormalizedAll(intervals), StartOf);
    var frame := new Band[|sorted|](i requires 0 <= i < |sorted| => sorted[i]);
    assert frame[..] == sorted;
    AdjustOverlaps(frame);
    labels := LabelDepths(frame[..], depths);
    assert labels == Labelled(intervals, depths);
  }

  /** The example intervals as `prepare_data` stores them. */
  function ExampleIntervals(): seq<Interval> {
    [Interval(900.0, 1000.0, UnknownName), Interval(1000.0, 1200.0, "A"), Interval(1200.0, 1250.0, "B")]
  }

  function ExampleBandList(): seq<Band> {
    [Band(900.0, 1000.0, UnknownName), Band(1000.0, 1200.0, "A"), Band(1200.0, 1250.0, "B")]
  }

  lemma ExampleNormalized()
    ensures NormalizedAll(ExampleIntervals()) == ExampleBandList()
  {
    var norm := NormalizedAll(ExampleIntervals());
    assert norm[0] == ExampleBandList()[0];
    assert norm[1] == ExampleBandList()[1];
    assert norm[2] == ExampleBandList()[2];
  }

  lemma ExampleSorted()
    ensures SortBy(ExampleBandList(), StartOf) == ExampleBandList()
  {
    assert SortedBy(ExampleBandList(), StartOf);
    SortBySorted(ExampleBandList(), StartOf);
  }

  lemma ExampleTruncated()
    ensures Truncated(ExampleBandList()) == ExampleBandList()
  {
    var bands := ExampleBandList();
    var r := Truncated(bands);
    assert r[0] == bands[0] && r[1] == bands[1] && r[2] == bands[2];
  }

  /** The example intervals are already sorted and meet end to end, so the bands are the intervals themselves. */
  lemma ExampleBands()
    ensures Bands(ExampleIntervals()) == ExampleBandList()
  {
    ExampleNormalized();
    ExampleSorted();
    ExampleTruncated();
  }

  /** With the example intervals, 950 is in the cap, 1100 in A, 1200 in B and 1300 past the last base. */
  lemma LabelExample()
    ensures var bands := Bands(ExampleIntervals());
      && LabelOf(bands, 950.0) == UnknownName
      && LabelOf(bands, 1100.0) == "A"
      && LabelOf(bands, 1200.0) == "B"
      && LabelOf(bands, 1300.0) == UnknownName
  {
    ExampleBands();
    var bands := ExampleBandList();
    assert CoveringFrom(bands, 1100.0, 1) == 1;
    assert CoveringFrom(bands, 1200.0, 2) == 2;
    assert CoveringFrom(bands, 1200.0, 1) == 2;
    assert CoveringFrom(bands, 1300.0, 3) == 3;
    assert CoveringFrom(bands, 1300.0, 2) == 3;
    assert CoveringFrom(bands, 1300.0, 1) == 3;
  }
}
