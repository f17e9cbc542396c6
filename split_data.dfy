/**
 * `preprocessing/split_data.py`: the curve presence matrix of the wells, and the split of the
 * wells that carry the target curves into a training/validation set and an external test set.
 * The random generator is a parameter: `draw(k)` is the k-th number it yields.
 */
module SplitData {
  import opened Sequences

  /** A well of `data`: its name (the dictionary key) and the columns of its DataFrame. */
  datatype Well = Well(name: string, columns: seq<string>)

  /** `data` is a dictionary: no two wells share a name. */
  predicate DistinctNames(data: seq<Well>) {
    forall i, j :: 0 <= i < j < |data| ==> data[i].name != data[j].name
  }

  /** Well `i` of `data` is named `name`. */
  predicate NamedAt(data: seq<Well>, name: string, i: int) {
    0 <= i < |data| && data[i].name == name
  }

  // ---------------------------------------------------------------------------
  // filter_wells_by_curves

  /** `[1 if curve in available_curves else 0 for curve in selected_curves]`. */
  function Presence(columns: seq<string>, selected: seq<string>): seq<int> {
    seq(|selected|, j requires 0 <= j < |selected| => if selected[j] in columns then 1 else 0)
  }

  /** What `filter_wells_by_curves` returns: two dictionaries and the presence matrix by well. */
  datatype CurveFilter = CurveFilter(
    filtered: map<string, seq<string>>, missingReport: map<string, seq<string>>, matrix: map<string, seq<int>>)

  /**
   * `filter_wells_by_curves`: the presence matrix has a row per well and a column per selected
   * curve, 1 exactly where the curve is a column of the well and 0 elsewhere; the two
   * dictionaries the docstring promises are never filled and come back empty.
   */
  method FilterWellsByCurves(data: seq<Well>, selected: seq<string>) returns (r: CurveFilter)
    requires DistinctNames(data)
    ensures r.filtered == map[] && r.missingReport == map[]
    ensures forall w :: w in r.matrix <==> exists i :: NamedAt(data, w, i)
    ensures forall i :: 0 <= i < |data| ==>
      && data[i].name in r.matrix
      && var row := r.matrix[data[i].name];
      && |row| == |selected|
      && forall j :: 0 <= j < |selected| ==> (row[j] == 1 <==> selected[j] in data[i].columns) && (row[j] == 0 || row[j] == 1)
  {
    var filteredData := map[];
    var missingCurvesReport := map[];
    var matrixData: map<string, seq<int>> := map[];
    for n := 0 to |data|
      invariant forall w :: w in matrixData <==> exists i :: 0 <= i < n && NamedAt(data, w, i)
      invariant forall i :: 0 <= i < n ==> data[i].name in matrixData && matrixData[data[i].name] == Presence(data[i].columns, selected)
    {
      var well := data[n];
      matrixData := matrixData[well.name := Presence(well.columns, selected)];
      assert NamedAt(data, well.name, n);
    }
    r := CurveFilter(filteredData, missingCurvesReport, matrixData);
  }

  // ---------------------------------------------------------------------------
  // The eligible wells

  /** `len(available_curves) >= min_curves and all(curve in available_curves for curve in curves_to_predict)`. */
  predicate Eligible(w: Well, targets: seq<string>, minCurves: int) {
    |w.columns| >= minCurves && forall t :: t in targets ==> t in w.columns
  }

  /** The names of the eligible wells, in `data` order. */
  function EligibleNames(data: seq<Well>, targets: seq<string>, minCurves: int): (r: seq<string>)
    ensures |r| <= |data|
    ensures forall x :: x in r <==> exists i :: NamedAt(data, x, i) && Eligible(data[i], targets, minCurves)
  {
    if data == [] then []
    else
      var init := data[..|data| - 1];
      var last := data[|data| - 1];
      assert forall i :: 0 <= i < |init| ==> data[i] == init[i];
      var r := EligibleNames(init, targets, minCurves) + (if Eligible(last, targets, minCurves) then [last.name] else []);
      assert forall x, i :: NamedAt(init, x, i) ==> NamedAt(data, x, i) && data[i] == init[i];
      r
  }

  /** `discarded_wells`: the names of the other wells, in `data` order. */
  function DiscardedNames(data: seq<Well>, targets: seq<string>, minCurves: int): (r: seq<string>)
    ensures forall x :: x in r <==> exists i :: NamedAt(data, x, i) && !Eligible(data[i], targets, minCurves)
  {
    if data == [] then []
    else
      var init := data[..|data| - 1];
      var last := data[|data| - 1];
      assert forall i :: 0 <= i < |init| ==> data[i] == init[i];
      var r := DiscardedNames(init, targets, minCurves) + (if Eligible(last, targets, minCurves) then [] else [last.name]);
      assert forall x, i :: NamedAt(init, x, i) ==> NamedAt(data, x, i) && data[i] == init[i];
      r
  }

  /** `filtered_data`: each eligible well's name mapped to its DataFrame. */
  function FilteredData(data: seq<Well>, targets: seq<string>, minCurves: int): map<string, seq<string>> {
    if data == [] then map[]
    else
      var last := data[|data| - 1];
      var m := FilteredData(data[..|data| - 1], targets, minCurves);
      if Eligible(last, targets, minCurves) then m[last.name := last.columns] else m
  }

  /** Every eligible well is in `filtered_data` with its own columns, and nothing else is. */
  lemma {:induction false} FilteredDataEntries(data: seq<Well>, targets: seq<string>, minCurves: int)
    requires DistinctNames(data)
    ensures FilteredData(data, targets, minCurves).Keys == set x | x in EligibleNames(data, targets, minCurves)
    ensures forall i :: 0 <= i < |data| && Eligible(data[i], targets, minCurves) ==>
      FilteredData(data, targets, minCurves)[data[i].name] == data[i].columns
  {
    if data != [] {
      var init := data[..|data| - 1];
      assert forall i :: 0 <= i < |init| ==> data[i] == init[i];
      FilteredDataEntries(init, targets, minCurves);
    }
  }

  /** With distinct names, no name is listed twice and no well is both eligible and discarded. */
  lemma {:induction false} NamesDistinct(data: seq<Well>, targets: seq<string>, minCurves: int)
    requires DistinctNames(data)
    ensures NoDuplicates(EligibleNames(data, targets, minCurves) + DiscardedNames(data, targets, minCurves))
    ensures |EligibleNames(data, targets, minCurves)| + |DiscardedNames(data, targets, minCurves)| == |data|
  {
    if data != [] {
      var init := data[..|data| - 1];
      var last := data[|data| - 1];
      assert forall i :: 0 <= i < |init| ==> data[i] == init[i];
      NamesDistinct(init, targets, minCurves);
      var e := EligibleNames(init, targets, minCurves);
      var d := DiscardedNames(init, targets, minCurves);
      assert forall i :: 0 <= i < |init| ==> init[i].name != last.name;
      assert last.name !in e + d;
      AddName(e, d, last.name);
      if Eligible(last, targets, minCurves) {
        assert EligibleNames(data, targets, minCurves) + DiscardedNames(data, targets, minCurves) == (e + [last.name]) + d;
      } else {
        assert EligibleNames(data, targets, minCurves) + DiscardedNames(data, targets, minCurves) == e + (d + [last.name]);
      }
    }
  }

  /** A new name added at the end of either list keeps their concatenation without duplicates. */
  lemma AddName(e: seq<string>, d: seq<string>, x: string)
    requires NoDuplicates(e + d) && x !in e + d
    ensures NoDuplicates((e + [x]) + d) && NoDuplicates(e + (d + [x]))
  {
    assert multiset((e + [x]) + d) == multiset(e + d) + multiset{x};
    assert multiset(e + (d + [x])) == multiset(e + d) + multiset{x};
    DistinctByMultiset(e + d, x, (e + [x]) + d);
    DistinctByMultiset(e + d, x, e + (d + [x]));
  }

  /** Adding a new name to a list without duplicates keeps it without duplicates, in any order. */
  lemma DistinctByMultiset(xs: seq<string>, x: string, ys: seq<string>)
    requires NoDuplicates(xs) && x !in xs
    requires multiset(ys) == multiset(xs) + multiset{x}
    ensures NoDuplicates(ys)
  {
    forall k, l | 0 <= k < l < |ys| ensures ys[k] != ys[l] {
      if ys[k] == ys[l] {
        Twice(ys, k, l);
        MultiplicityOne(xs, ys[k]);
      }
    }
  }

  /** Two equal entries make a name occur at least twice. */
  lemma Twice(ys: seq<string>, k: nat, l: nat)
    requires k < l < |ys| && ys[k] == ys[l]
    ensures multiset(ys)[ys[k]] >= 2
  {
    assert ys == ys[..k] + [ys[k]] + ys[k + 1..l] + [ys[l]] + ys[l + 1..];
  }

  /** In a list without duplicates every name occurs at most once. */
  lemma {:induction false} MultiplicityOne(xs: seq<string>, y: string)
    requires NoDuplicates(xs)
    ensures multiset(xs)[y] <= 1
    ensures y !in xs ==> multiset(xs)[y] == 0
  {
    if xs != [] {
      assert xs == [xs[0]] + xs[1..];
      MultiplicityOne(xs[1..], y);
    }
  }

  // ---------------------------------------------------------------------------
  // random.shuffle

  function Swap(s: seq<string>, i: nat, j: nat): (r: seq<string>)
    requires i < |s| && j < |s|
    ensures |r| == |s|
  {
    s[i := s[j]][j := s[i]]
  }

  /**
   * `random.shuffle`, from position `top - 1` down to 1: position `i` is swapped with
   * `randbelow(i + 1)`, the number drawn for it reduced into `[0, i]`.
   */
  function ShuffleDown(s: seq<string>, top: nat, draw: nat -> nat): (r: seq<string>)
    requires top <= |s|
    ensures |r| == |s|
    decreases top
  {
    if top <= 1 then s
    else
      var i := top - 1;
      ShuffleDown(Swap(s, i, draw(|s| - top) % (i + 1)), top - 1, draw)
  }

  function Shuffled(s: seq<string>, draw: nat -> nat): (r: seq<string>)
    ensures |r| == |s|
  {
    ShuffleDown(s, |s|, draw)
  }

  /** The in-place shuffle of the list of eligible names. */
  method Shuffle(a: array<string>, draw: nat -> nat)
    modifies a
    ensures a[..] == Shuffled(old(a[..]), draw)
  {
    var top := a.Length;
    while top > 1
      invariant 0 <= top <= a.Length
      invariant ShuffleDown(a[..], top, draw) == Shuffled(old(a[..]), draw)
    {
      var i := top - 1;
      var j := draw(a.Length - top) % (i + 1);
      ghost var before := a[..];
      a[i], a[j] := a[j], a[i];
      assert a[..] == Swap(before, i, j);
      top := top - 1;
    }
  }

  /** A shuffle keeps every name, as often as it was there. */
  lemma {:induction false} ShuffleDownPermutes(s: seq<string>, top: nat, draw: nat -> nat)
    requires top <= |s|
    ensures multiset(ShuffleDown(s, top, draw)) == multiset(s)
    decreases top
  {
    if top > 1 {
      var i := top - 1;
      var j := draw(|s| - top) % (i + 1);
      var t := Swap(s, i, j);
      ShuffleDownPermutes(t, top - 1, draw);
      SwapPermutes(s, i, j);
    }
  }

  lemma SwapPermutes(s: seq<string>, i: nat, j: nat)
    requires i < |s| && j < |s|
    ensures multiset(Swap(s, i, j)) == multiset(s)
  {
    var t := s[i := s[j]];
    assert multiset(t) == multiset(s) - multiset{s[i]} + multiset{s[j]};
    assert multiset(t[j := s[i]]) == multiset(t) - multiset{t[j]} + multiset{s[i]};
  }

  // ---------------------------------------------------------------------------
  // split_wells_by_prediction

  datatype Category = Unassigned | TrainValidation | ExternalTest | Discarded

  /** The outcome of `split_wells_by_prediction`: the ValueError, or the four results. */
  datatype SplitResult =
    | NotEnoughWells
    | Partition(train: map<string, seq<string>>, test: map<string, seq<string>>, discarded: seq<string>,
                index: seq<string>, category: map<string, Category>)

  /** `{well: filtered_data[well] for well in wells}`. */
  function Restrict(frames: map<string, seq<string>>, wells: seq<string>): map<string, seq<string>> {
    map w | w in wells && w in frames :: frames[w]
  }

  /** The 'Category' column after the three `.loc` assignments, later ones winning; a row none sets stays NaN. */
  function Categories(index: seq<string>, train: seq<string>, test: seq<string>, discarded: seq<string>): map<string, Category> {
    map w | w in index ::
      if w in discarded then Discarded else if w in test then ExternalTest else if w in train then TrainValidation else Unassigned
  }

  /** The four results, once the eligible names are shuffled. */
  function PartitionOf(shuffled: seq<string>, eligible: seq<string>, discarded: seq<string>,
                       frames: map<string, seq<string>>): SplitResult {
    var trainSize := |shuffled| - |shuffled| / 5;
    var train := shuffled[..trainSize];
    var test := shuffled[trainSize..];
    Partition(Restrict(frames, train), Restrict(frames, test), discarded, eligible + discarded,
              Categories(eligible + discarded, train, test, discarded))
  }

  /** What `split_wells_by_prediction` computes, with the shuffle fixed by `draw`. */
  function SplitOf(data: seq<Well>, targets: seq<string>, minCurves: int, draw: nat -> nat): SplitResult {
    var eligible := EligibleNames(data, targets, minCurves);
    if |eligible| < 3 then NotEnoughWells
    else
      PartitionOf(Shuffled(eligible, draw), eligible, DiscardedNames(data, targets, minCurves),
                  FilteredData(data, targets, minCurves))
  }

  lemma EligibleSnoc(data: seq<Well>, targets: seq<string>, minCurves: int, n: nat)
    requires n < |data|
    ensures var w := data[n];
      && EligibleNames(data[..n + 1], targets, minCurves) ==
           EligibleNames(data[..n], targets, minCurves) + (if Eligible(w, targets, minCurves) then [w.name] else [])
      && DiscardedNames(data[..n + 1], targets, minCurves) ==
           DiscardedNames(data[..n], targets, minCurves) + (if Eligible(w, targets, minCurves) then [] else [w.name])
      && FilteredData(data[..n + 1], targets, minCurves) ==
           (if Eligible(w, targets, minCurves) then FilteredData(data[..n], targets, minCurves)[w.name := w.columns]
            else FilteredData(data[..n], targets, minCurves))
  {
    assert data[..n + 1][..n] == data[..n];
  }

  /**
   * `split_wells_by_prediction`: the eligible wells are kept in `filtered_data` and listed, the
   * others listed as discarded; fewer than three eligible wells is a ValueError; otherwise the list
   * is shuffled, its first `n - int(n * 0.2)` names train and the rest test, and every well is
   * given its category.
   */
  method SplitWellsByPrediction(data: seq<Well>, targets: seq<string>, minCurves: int, draw: nat -> nat)
    returns (r: SplitResult)
    requires DistinctNames(data)
    ensures r == SplitOf(data, targets, minCurves, draw)
  {
    var filteredData: map<string, seq<string>> := map[];
    var wellsWithCurves: seq<string> := [];
    var discardedWells: seq<string> := [];
    for n := 0 to |data|
      invariant filteredData == FilteredData(data[..n], targets, minCurves)
      invariant wellsWithCurves == EligibleNames(data[..n], targets, minCurves)
      invariant discardedWells == DiscardedNames(data[..n], targets, minCurves)
    {
      EligibleSnoc(data, targets, minCurves, n);
      var well := data[n];
      if Eligible(well, targets, minCurves) {
        filteredData := filteredData[well.name := well.columns];
        wellsWithCurves := wellsWithCurves + [well.name];
      } else {
        discardedWells := discardedWells + [well.name];
      }
    }
    assert data[..|data|] == data;
    if |wellsWithCurves| < 3 {
      return NotEnoughWells;
    }
    var shuffled := new string[|wellsWithCurves|](k requires 0 <= k < |wellsWithCurves| => wellsWithCurves[k]);
    assert shuffled[..] == wellsWithCurves;
    Shuffle(shuffled, draw);
    r := AssignWells(shuffled[..], wellsWithCurves, discardedWells, filteredData);
  }

  /** The second half of `split_wells_by_prediction`: the sizes, the two sets and the 'Category' column. */
  method AssignWells(wellsWithCurves: seq<string>, filteredKeys: seq<string>, discardedWells: seq<string>,
                     filteredData: map<string, seq<string>>) returns (r: SplitResult)
    ensures r == PartitionOf(wellsWithCurves, filteredKeys, discardedWells, filteredData)
  {
    var nWells := |wellsWithCurves|;
    var externalTestSize := nWells / 5;
    var trainValidationSize := nWells - externalTestSize;
    var trainValidationWells := wellsWithCurves[..trainValidationSize];
    var externalTestWells := wellsWithCurves[trainValidationSize..];
    var trainValidationData := Restrict(filteredData, trainValidationWells);
    var externalTestData := Restrict(filteredData, externalTestWells);
    var index := filteredKeys + discardedWells;
    r := Partition(trainValidationData, externalTestData, discardedWells, index,
                   Categories(index, trainValidationWells, externalTestWells, discardedWells));
  }

  // ---------------------------------------------------------------------------
  // What the split guarantees

  /** Fewer than three eligible wells, and only then, is the ValueError. */
  lemma SplitFails(data: seq<Well>, targets: seq<string>, minCurves: int, draw: nat -> nat)
    requires DistinctNames(data)
    ensures SplitOf(data, targets, minCurves, draw) == NotEnoughWells <==>
      |set x | x in EligibleNames(data, targets, minCurves)| < 3
  {
    NamesDistinct(data, targets, minCurves);
    var e := EligibleNames(data, targets, minCurves);
    assert NoDuplicates(e) by {
      var d := DiscardedNames(data, targets, minCurves);
      assert forall k :: 0 <= k < |e| ==> (e + d)[k] == e[k];
    }
    DistinctCard(e);
  }

  /** A list without duplicates has as many elements as its set. */
  lemma {:induction false} DistinctCard(xs: seq<string>)
    requires NoDuplicates(xs)
    ensures |set x | x in xs| == |xs|
  {
    if xs != [] {
      var init := xs[..|xs| - 1];
      var last := xs[|xs| - 1];
      assert xs == init + [last];
      DistinctCard(init);
      assert (set x | x in xs) == (set x | x in init) + {last};
      assert last !in init;
    }
  }

  /** The shuffled list holds the eligible names, each once. */
  lemma ShuffledNames(eligible: seq<string>, draw: nat -> nat)
    requires NoDuplicates(eligible)
    ensures NoDuplicates(Shuffled(eligible, draw))
    ensures forall x :: x in Shuffled(eligible, draw) <==> x in eligible
  {
    var s := Shuffled(eligible, draw);
    ShuffleDownPermutes(eligible, |eligible|, draw);
    forall x ensures x in s <==> x in eligible {
      assert x in multiset(s) <==> x in multiset(eligible);
    }
    forall k, l | 0 <= k < l < |s| ensures s[k] != s[l] {
      if s[k] == s[l] {
        Twice(s, k, l);
        MultiplicityOne(eligible, s[k]);
      }
    }
  }

  /** The first `n - n / 5` names of a list without duplicates share none with the rest. */
  lemma SlicesApart(s: seq<string>)
    requires NoDuplicates(s)
    ensures var t := |s| - |s| / 5;
      && NoDuplicates(s[..t]) && NoDuplicates(s[t..])
      && (forall x :: x in s[..t] ==> x !in s[t..])
      && (forall x :: x in s <==> x in s[..t] || x in s[t..])
  {
    var t := |s| - |s| / 5;
    assert s == s[..t] + s[t..];
    forall x | x in s[..t] ensures x !in s[t..] {
      var k :| 0 <= k < t && s[..t][k] == x;
      forall l | 0 <= l < |s| - t ensures s[t..][l] != x {
        assert s[t..][l] == s[t + l];
      }
    }
    assert forall k :: 0 <= k < t ==> s[..t][k] == s[k];
    assert forall k :: 0 <= k < |s| - t ==> s[t..][k] == s[t + k];
  }

  /**
   * Splitting a shuffled list without duplicates whose names all have a DataFrame: train and test
   * share no well, together they hold every listed well, test has `n / 5` of the `n` wells, and
   * each keeps its DataFrame.
   */
  lemma PartitionSplits(shuffled: seq<string>, eligible: seq<string>, discarded: seq<string>,
                        frames: map<string, seq<string>>)
    requires NoDuplicates(shuffled)
    requires forall x :: x in shuffled ==> x in frames
    ensures var r := PartitionOf(shuffled, eligible, discarded, frames);
      && r.Partition?
      && r.train.Keys !! r.test.Keys
      && (forall x :: x in r.train || x in r.test <==> x in shuffled)
      && |r.test.Keys| == |shuffled| / 5
      && |r.train.Keys| == |shuffled| - |shuffled| / 5
      && (forall x :: x in r.train ==> r.train[x] == frames[x])
      && (forall x :: x in r.test ==> r.test[x] == frames[x])
  {
    var t := |shuffled| - |shuffled| / 5;
    var r := PartitionOf(shuffled, eligible, discarded, frames);
    SlicesApart(shuffled);
    assert r.train.Keys == set x | x in shuffled[..t];
    assert r.test.Keys == set x | x in shuffled[t..];
    DistinctCard(shuffled[..t]);
    DistinctCard(shuffled[t..]);
  }

  /**
   * The 'Category' column of a split: it has a row for each listed well; a discarded well is
   * Discarded, and a well of the shuffled list is Train/Validation when it went to train and
   * External Test otherwise.
   */
  lemma PartitionCategories(shuffled: seq<string>, eligible: seq<string>, discarded: seq<string>,
                            frames: map<string, seq<string>>)
    requires NoDuplicates(shuffled)
    requires forall x :: x in shuffled ==> x in frames
    requires forall x :: x in eligible ==> x in shuffled
    requires forall x :: x in eligible ==> x !in discarded
    ensures var r := PartitionOf(shuffled, eligible, discarded, frames);
      && r.Partition?
      && (forall x :: x in r.category <==> x in eligible || x in discarded)
      && (forall x :: x in discarded ==> r.category[x] == Discarded)
      && (forall x :: x in eligible && x in r.train ==> r.category[x] == TrainValidation)
      && (forall x :: x in eligible && x !in r.train ==> r.category[x] == ExternalTest)
  {
    var t := |shuffled| - |shuffled| / 5;
    SlicesApart(shuffled);
  }

  /**
   * The split partitions the eligible wells: train and test share no well, together they are the
   * eligible wells, the test set has `n / 5` of the `n` eligible wells (`int(n * 0.2)`), and each
   * well keeps its own DataFrame.
   */
  lemma SplitPartitions(data: seq<Well>, targets: seq<string>, minCurves: int, draw: nat -> nat)
    requires DistinctNames(data)
    requires SplitOf(data, targets, minCurves, draw).Partition?
    ensures var r := SplitOf(data, targets, minCurves, draw);
      var n := |EligibleNames(data, targets, minCurves)|;
      && r.train.Keys !! r.test.Keys
      && (forall x :: x in r.train || x in r.test <==> exists i :: NamedAt(data, x, i) && Eligible(data[i], targets, minCurves))
      && |r.test.Keys| == n / 5
      && |r.train.Keys| == n - n / 5
      && (forall i :: 0 <= i < |data| && data[i].name in r.train ==> r.train[data[i].name] == data[i].columns)
      && (forall i :: 0 <= i < |data| && data[i].name in r.test ==> r.test[data[i].name] == data[i].columns)
  {
    var e := EligibleNames(data, targets, minCurves);
    var d := DiscardedNames(data, targets, minCurves);
    var frames := FilteredData(data, targets, minCurves);
    var s := Shuffled(e, draw);
    EligibleApart(data, targets, minCurves);
    ShuffledNames(e, draw);
    FilteredDataEntries(data, targets, minCurves);
    PartitionSplits(s, e, d, frames);
    forall i | 0 <= i < |data| && (data[i].name in frames) ensures Eligible(data[i], targets, minCurves) {
      assert data[i].name in e;
      var j :| NamedAt(data, data[i].name, j) && Eligible(data[j], targets, minCurves);
    }
  }

  /** The eligible names hold no duplicate and share none with the discarded ones. */
  lemma EligibleApart(data: seq<Well>, targets: seq<string>, minCurves: int)
    requires DistinctNames(data)
    ensures NoDuplicates(EligibleNames(data, targets, minCurves))
    ensures forall x :: x in EligibleNames(data, targets, minCurves) ==> x !in DiscardedNames(data, targets, minCurves)
  {
    var e := EligibleNames(data, targets, minCurves);
    var d := DiscardedNames(data, targets, minCurves);
    NamesDistinct(data, targets, minCurves);
    assert forall k :: 0 <= k < |e| ==> (e + d)[k] == e[k];
    forall x | x in e ensures x !in d {
      var k :| 0 <= k < |e| && e[k] == x;
      forall l | 0 <= l < |d| ensures d[l] != x {
        assert (e + d)[k] == x && (e + d)[|e| + l] == d[l];
      }
    }
  }

  /**
   * Every well of `data`, and no other name, gets exactly one category: Discarded when it is not
   * eligible, else Train/Validation or External Test as the split put it; none stays unassigned.
   */
  lemma SplitCategories(data: seq<Well>, targets: seq<string>, minCurves: int, draw: nat -> nat)
    requires DistinctNames(data)
    requires SplitOf(data, targets, minCurves, draw).Partition?
    ensures var r := SplitOf(data, targets, minCurves, draw);
      && (forall x :: x in r.category <==> exists i :: NamedAt(data, x, i))
      && (forall x :: x in r.category ==> r.category[x] != Unassigned)
      && forall i :: 0 <= i < |data| ==>
           r.category[data[i].name] ==
             if !Eligible(data[i], targets, minCurves) then Discarded
             else if data[i].name in r.train then TrainValidation
             else ExternalTest
  {
    var e := EligibleNames(data, targets, minCurves);
    var d := DiscardedNames(data, targets, minCurves);
    var frames := FilteredData(data, targets, minCurves);
    var s := Shuffled(e, draw);
    EligibleApart(data, targets, minCurves);
    ShuffledNames(e, draw);
    FilteredDataEntries(data, targets, minCurves);
    PartitionCategories(s, e, d, frames);
    forall i | 0 <= i < |data|
      ensures Eligible(data[i], targets, minCurves) ==> data[i].name in e
      ensures !Eligible(data[i], targets, minCurves) ==> data[i].name in d
    {
      assert NamedAt(data, data[i].name, i);
    }
  }
}
