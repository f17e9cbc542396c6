/**
 * merge_las_files_with_nan: the LAS files of one well resampled onto a common depth grid by
 * linear interpolation, each depth slot of a curve taking the first defined value in file order.
 */
module LasMerge {
  import opened Wrappers
  import opened LasTypes

  /** Strictly increasing depths, as np.interp expects of its sample points. */
  predicate Increasing(xs: seq<real>) {
    forall i, j :: 0 <= i < j < |xs| ==> xs[i] < xs[j]
  }

  /** The last position below `hi` whose depth is at most `x`. */
  function LastAtMost(xp: seq<real>, x: real, hi: nat): (j: nat)
    requires 0 < hi <= |xp| && xp[0] <= x
    ensures j < hi && xp[j] <= x
    ensures forall i :: j < i < hi ==> xp[i] > x
    decreases hi
  {
    if xp[hi - 1] <= x then hi - 1 else LastAtMost(xp, x, hi - 1)
  }

  /**
   * np.interp(x, xp, fp, left=nan, right=nan) at one point, NaN being None: nothing outside
   * [xp[0], xp[last]], the sample itself at a sample point, otherwise the straight line
   * between the two neighbouring samples, NaN when either of them is NaN.
   */
  function Interp(x: real, xp: seq<real>, fp: seq<Option<real>>): Option<real>
    requires 0 < |xp| == |fp|
  {
    var last := |xp| - 1;
    if x < xp[0] || x > xp[last] then None
    else if x == xp[last] then fp[last]
    else
      var j := LastAtMost(xp, x, last);
      if x == xp[j] then fp[j]
      else if fp[j].Some? && fp[j + 1].Some? then
        var slope := (fp[j + 1].value - fp[j].value) / (xp[j + 1] - xp[j]);
        Some(slope * (x - xp[j]) + fp[j].value)
      else None
  }

  /** Interpolating at a sample point gives the sample. */
  lemma InterpAtSample(xp: seq<real>, fp: seq<Option<real>>, i: nat)
    requires 0 < |xp| == |fp| && Increasing(xp) && i < |xp|
    ensures Interp(xp[i], xp, fp) == fp[i]
  {
    var last := |xp| - 1;
    if i < last {
      var j := LastAtMost(xp, xp[i], last);
      assert j == i;
    }
  }

  /** An interpolated value is a sample, or lies between the two neighbouring samples it is drawn from. */
  lemma InterpBetweenSamples(x: real, xp: seq<real>, fp: seq<Option<real>>)
    requires 0 < |xp| == |fp|
    requires Interp(x, xp, fp).Some?
    ensures xp[0] <= x <= xp[|xp| - 1]
    ensures exists j :: FromSamples(x, xp, fp, j)
  {
    var last := |xp| - 1;
    if x == xp[last] {
      assert FromSamples(x, xp, fp, last);
    } else {
      var j := LastAtMost(xp, x, last);
      if x != xp[j] {
        LerpBetween(fp[j].value, fp[j + 1].value, xp[j], xp[j + 1], x);
      }
      assert FromSamples(x, xp, fp, j);
    }
  }

  /** The interpolated value at `x` is sample `j`, or lies between samples `j` and `j + 1` that bracket `x`. */
  predicate FromSamples(x: real, xp: seq<real>, fp: seq<Option<real>>, j: int)
    requires 0 < |xp| == |fp|
  {
    && 0 <= j < |xp| && fp[j].Some? && Interp(x, xp, fp).Some?
    && ((x == xp[j] && Interp(x, xp, fp) == fp[j])
        || (j + 1 < |xp| && fp[j + 1].Some? && xp[j] < x < xp[j + 1]
            && Between(Interp(x, xp, fp).value, fp[j].value, fp[j + 1].value)))
  }

  /** `v` lies between `a` and `b`, in either order. */
  predicate Between(v: real, a: real, b: real) {
    (a <= v <= b) || (b <= v <= a)
  }

  lemma LerpBetween(a: real, b: real, x0: real, x1: real, x: real)
    requires x0 < x < x1
    ensures Between((b - a) / (x1 - x0) * (x - x0) + a, a, b)
  {
    var d := x1 - x0;
    var slope := (b - a) / d;
    assert slope * d == b - a;
    if a <= b {
      assert slope >= 0.0;
      assert slope * (x - x0) <= slope * d;
    } else {
      assert slope <= 0.0;
      assert slope * (x - x0) >= slope * d;
    }
  }

  /** One curve of one input file, with the depths of that file. */
  datatype Source = Source(mnemonic: string, index: seq<real>, data: seq<Option<real>>)

  /** A source np.interp accepts: samples present, one per depth. */
  predicate ValidSource(s: Source) {
    0 < |s.index| == |s.data|
  }

  predicate AllValid(sources: seq<Source>) {
    forall i :: 0 <= i < |sources| ==> ValidSource(sources[i])
  }

  /** The curves of one file as sources, in curve order. */
  function CurveSources(d: LasDoc): (r: seq<Source>)
    ensures |r| == |d.curves|
  {
    seq(|d.curves|, j requires 0 <= j < |d.curves| => Source(d.curves[j].mnemonic, d.index, d.curves[j].data))
  }

  /** Every curve of every file, file by file, in curve order. */
  function Sources(docs: seq<LasDoc>): seq<Source> {
    if docs == [] then [] else Sources(docs[..|docs| - 1]) + CurveSources(docs[|docs| - 1])
  }

  /** A file lasio has read: data present, one sample per depth in every curve. */
  predicate WellShaped(d: LasDoc) {
    |d.index| > 0 && forall c <- d.curves :: |c.data| == |d.index|
  }

  lemma CurveSourcesValid(d: LasDoc)
    requires WellShaped(d)
    ensures AllValid(CurveSources(d))
  {
    forall s <- CurveSources(d) ensures ValidSource(s) {
      var j :| 0 <= j < |d.curves| && CurveSources(d)[j] == s;
      assert d.curves[j] in d.curves;
    }
  }

  lemma AllValidConcat(a: seq<Source>, b: seq<Source>)
    requires AllValid(a) && AllValid(b)
    ensures AllValid(a + b)
  {
    assert forall s <- a + b :: s in a || s in b;
  }

  lemma {:induction false} SourcesValid(docs: seq<LasDoc>)
    requires forall d <- docs :: WellShaped(d)
    ensures AllValid(Sources(docs))
  {
    if docs != [] {
      var d := docs[|docs| - 1];
      assert forall e <- docs[..|docs| - 1] :: e in docs;
      SourcesValid(docs[..|docs| - 1]);
      CurveSourcesValid(d);
      AllValidConcat(Sources(docs[..|docs| - 1]), CurveSources(d));
    }
  }

  /** The merged value of curve `m` at depth `x`: the first source, in file and curve order, that defines it. */
  function Slot(x: real, sources: seq<Source>, m: string): Option<real>
    requires AllValid(sources)
  {
    if sources == [] then None
    else if sources[0].mnemonic == m && Interp(x, sources[0].index, sources[0].data).Some? then
      Interp(x, sources[0].index, sources[0].data)
    else Slot(x, sources[1..], m)
  }

  /** Adding a source at the end only fills a slot no earlier source defined. */
  lemma {:induction false} SlotAppend(x: real, sources: seq<Source>, s: Source, m: string)
    requires AllValid(sources)
    requires ValidSource(s)
    ensures Slot(x, sources + [s], m) ==
      if Slot(x, sources, m).Some? then Slot(x, sources, m)
      else if s.mnemonic == m then Interp(x, s.index, s.data)
      else None
  {
    if sources == [] {
      assert [s][1..] == [];
    } else {
      assert (sources + [s])[1..] == sources[1..] + [s];
      SlotAppend(x, sources[1..], s, m);
    }
  }

  /** No extrapolation: a depth outside the range of every source of the curve stays NaN. */
  lemma {:induction false} SlotOutsideIsNaN(x: real, sources: seq<Source>, m: string)
    requires AllValid(sources)
    requires forall s <- sources :: s.mnemonic == m ==> x < s.index[0] || x > s.index[|s.index| - 1]
    ensures Slot(x, sources, m) == None
  {
    if sources != [] {
      assert sources[0] in sources;
      SlotOutsideIsNaN(x, sources[1..], m);
    }
  }

  /** The earliest source that defines a slot gives its value, whatever follows. */
  lemma {:induction false} SlotFirstWins(x: real, sources: seq<Source>, m: string, i: nat)
    requires AllValid(sources)
    requires i < |sources| && sources[i].mnemonic == m
    requires Interp(x, sources[i].index, sources[i].data).Some?
    requires forall k :: 0 <= k < i && sources[k].mnemonic == m ==> Interp(x, sources[k].index, sources[k].data).None?
    ensures Slot(x, sources, m) == Interp(x, sources[i].index, sources[i].data)
  {
    if i > 0 {
      SlotFirstWins(x, sources[1..], m, i - 1);
    }
  }

  /** The mnemonics of the sources, each once, in order of first appearance. */
  function Mnemonics(sources: seq<Source>): (ms: seq<string>)
    ensures forall a, b :: 0 <= a < b < |ms| ==> ms[a] != ms[b]
    ensures forall m :: m in ms <==> exists s <- sources :: s.mnemonic == m
  {
    if sources == [] then []
    else
      var ms := Mnemonics(sources[..|sources| - 1]);
      var m := sources[|sources| - 1].mnemonic;
      assert forall s <- sources[..|sources| - 1] :: s in sources;
      assert forall s <- sources :: s in sources[..|sources| - 1] || s == sources[|sources| - 1];
      if m in ms then ms else ms + [m]
  }

  /** The smallest depth of a non-empty depth list. */
  function MinOf(xs: seq<real>): (r: real)
    requires |xs| > 0
    ensures r in xs && forall x <- xs :: r <= x
  {
    if |xs| == 1 then xs[0]
    else
      var rest := MinOf(xs[1..]);
      assert forall x <- xs :: x == xs[0] || x in xs[1..];
      if xs[0] <= rest then xs[0] else rest
  }

  /** The largest depth of a non-empty depth list. */
  function MaxOf(xs: seq<real>): (r: real)
    requires |xs| > 0
    ensures r in xs && forall x <- xs :: x <= r
  {
    if |xs| == 1 then xs[0]
    else
      var rest := MaxOf(xs[1..]);
      assert forall x <- xs :: x == xs[0] || x in xs[1..];
      if xs[0] >= rest then xs[0] else rest
  }

  /** The first depth of every file's range: its least index value. */
  function MinDepth(docs: seq<LasDoc>): real
    requires |docs| > 0 && forall d <- docs :: WellShaped(d)
  {
    assert docs[0] in docs && WellShaped(docs[0]);
    assert forall d <- docs[1..] :: d in docs;
    if |docs| == 1 then MinOf(docs[0].index)
    else
      var rest := MinDepth(docs[1..]);
      var m := MinOf(docs[0].index);
      if m <= rest then m else rest
  }

  function MaxDepth(docs: seq<LasDoc>): real
    requires |docs| > 0 && forall d <- docs :: WellShaped(d)
  {
    assert docs[0] in docs && WellShaped(docs[0]);
    assert forall d <- docs[1..] :: d in docs;
    if |docs| == 1 then MaxOf(docs[0].index)
    else
      var rest := MaxDepth(docs[1..]);
      var m := MaxOf(docs[0].index);
      if m >= rest then m else rest
  }

  /** `arr[mask] = incoming[mask]` with `mask = isnan(arr)`: only NaN slots take the new values. */
  function FillGaps(current: seq<Option<real>>, incoming: seq<Option<real>>): (r: seq<Option<real>>)
    requires |current| == |incoming|
    ensures |r| == |current|
    ensures forall k :: 0 <= k < |r| ==> r[k] == if current[k].Some? then current[k] else incoming[k]
  {
    seq(|current|, k requires 0 <= k < |current| => if current[k].Some? then current[k] else incoming[k])
  }

  /** The merged file: the depth grid and the curves in order of first appearance. */
  datatype Merged = Merged(depth: seq<real>, mnemonics: seq<string>, data: map<string, seq<Option<real>>>)

  /** How a merge ends: nothing to merge (None), a file without depths (min() raises ValueError), or the merged file. */
  datatype MergeResult = NoFiles | EmptyIndex | MergedFile(las: Merged)

  /** The NaN-filled curves merged_data starts from: one per mnemonic, in order of first appearance. */
  method NaNCurves(all: seq<Source>, n: nat) returns (mnemonics: seq<string>, data: map<string, seq<Option<real>>>)
    ensures mnemonics == Mnemonics(all)
    ensures forall m :: m in data <==> m in mnemonics
    ensures forall m :: m in data ==> |data[m]| == n && forall k :: 0 <= k < n ==> data[m][k] == None
  {
    var nans := seq(n, k => None);
    mnemonics := [];
    data := map[];
    var i := 0;
    while i < |all|
      invariant 0 <= i <= |all|
      invariant mnemonics == Mnemonics(all[..i])
      invariant forall m :: m in data <==> m in mnemonics
      invariant forall m :: m in data ==> data[m] == nans
    {
      assert all[..i + 1][..i] == all[..i];
      if all[i].mnemonic !in mnemonics {
        mnemonics := mnemonics + [all[i].mnemonic];
      }
      data := data[all[i].mnemonic := nans];
      i := i + 1;
    }
    assert all[..i] == all;
  }

  /** One file's pass of the merge loop: each of its curves fills the still-NaN slots of its mnemonic. */
  method FillFromFile(data: map<string, seq<Option<real>>>, depth: seq<real>, d: LasDoc, ghost prior: seq<Source>)
    returns (r: map<string, seq<Option<real>>>)
    requires WellShaped(d) && AllValid(prior) && AllValid(prior + CurveSources(d))
    requires forall m :: m in data ==> |data[m]| == |depth|
    requires forall m, k :: m in data && 0 <= k < |depth| ==> data[m][k] == Slot(depth[k], prior, m)
    ensures r.Keys == data.Keys
    ensures forall m :: m in r ==> |r[m]| == |depth|
    ensures forall m, k :: m in r && 0 <= k < |depth| ==> r[m][k] == Slot(depth[k], prior + CurveSources(d), m)
  {
    r := data;
    var c := 0;
    assert prior + CurveSources(d)[..0] == prior;
    while c < |d.curves|
      invariant 0 <= c <= |d.curves|
      invariant r.Keys == data.Keys
      invariant forall m :: m in r ==> |r[m]| == |depth|
      invariant AllValid(prior + CurveSources(d)[..c])
      invariant forall m, k :: m in r && 0 <= k < |depth| ==> r[m][k] == Slot(depth[k], prior + CurveSources(d)[..c], m)
    {
      ghost var done := prior + CurveSources(d)[..c];
      var src := CurveSources(d)[c];
      assert prior + CurveSources(d)[..c + 1] == done + [src];
      assert ValidSource(src) by {
        assert src in prior + CurveSources(d);
      }
      AllValidConcat(done, [src]);
      var m := d.curves[c].mnemonic;
      if m in r {
        var interpolated := seq(|depth|, k requires 0 <= k < |depth| => Interp(depth[k], src.index, src.data));
        r := r[m := FillGaps(r[m], interpolated)];
      }
      forall m', k | m' in r && 0 <= k < |depth|
        ensures r[m'][k] == Slot(depth[k], done + [src], m')
      {
        SlotAppend(depth[k], done, src, m');
      }
      c := c + 1;
    }
    assert CurveSources(d)[..c] == CurveSources(d);
  }

  /**
   * merge_las_files_with_nan. `arange(lo, hi)` stands for np.arange(lo, hi + 0.1, 0.1), the grid
   * the files are resampled on.
   */
  method MergeLasFilesWithNan(docs: seq<LasDoc>, arange: (real, real) -> seq<real>) returns (result: MergeResult)
    requires forall d <- docs :: forall c <- d.curves :: |c.data| == |d.index|
    ensures docs == [] <==> result.NoFiles?
    ensures result.EmptyIndex? <==> docs != [] && exists d <- docs :: |d.index| == 0
    ensures result.MergedFile? ==>
      && (forall d <- docs :: WellShaped(d))
      && var las := result.las;
      && las.depth == arange(MinDepth(docs), MaxDepth(docs))
      && las.mnemonics == Mnemonics(Sources(docs))
      && (forall m :: m in las.data <==> m in las.mnemonics)
      && (forall m :: m in las.data ==> |las.data[m]| == |las.depth|)
      && (SourcesValid(docs);
          forall m, k :: m in las.data && 0 <= k < |las.depth| ==> las.data[m][k] == Slot(las.depth[k], Sources(docs), m))
  {
    if docs == [] {
      return NoFiles;
    }
    if exists d <- docs :: |d.index| == 0 {
      return EmptyIndex;
    }
    var depth := arange(MinDepth(docs), MaxDepth(docs));
    var mnemonics, data := NaNCurves(Sources(docs), |depth|);
    var f := 0;
    while f < |docs|
      invariant 0 <= f <= |docs|
      invariant forall m :: m in data <==> m in mnemonics
      invariant forall m :: m in data ==> |data[m]| == |depth|
      invariant AllValid(Sources(docs[..f]))
      invariant forall m, k :: m in data && 0 <= k < |depth| ==> data[m][k] == Slot(depth[k], Sources(docs[..f]), m)
    {
      assert docs[..f + 1][..f] == docs[..f];
      assert forall e <- docs[..f + 1] :: e in docs;
      SourcesValid(docs[..f + 1]);
      data := FillFromFile(data, depth, docs[f], Sources(docs[..f]));
      f := f + 1;
    }
    assert docs[..f] == docs;
    return MergedFile(Merged(depth, mnemonics, data));
  }
}
