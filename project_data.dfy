/**
 * What `ProjectManager` computes over the wells of a loaded project: the curve inventory, the
 * curve selection, the curve descriptions, and the data `prepare_data` keeps per well.
 */
module ProjectData {
  import opened Wrappers
  import opened FormationParse
  import opened FormationIntervals
  import opened FormationLabels
  import opened OutlierVote

  /** A row of a well header's 'Curves' section. */
  datatype CurveRow = CurveRow(mnemonic: string, unit: string, value: string, descr: string)

  /**
   * A loaded well: its LEASE, STRT and STOP header values, its curve header rows, its depth index
   * and its curves (`well.data`), each sampled at the depths.
   */
  datatype Well = Well(lease: string, start: real, stop: real, curveRows: seq<CurveRow>,
                       depths: seq<real>, data: map<string, seq<Option<real>>>)

  /**
   * What `formation_data[well_name]` holds: the intervals built for plotting, or, when a depth
   * could not be read, the rows appended before the scan stopped.
   */
  datatype StoredFormations = RawRows(rows: seq<FormationRow>) | Intervals(intervals: seq<Interval>)

  /** What is stored for a well whose ~Other scan returned `rows`, stopped by `error` or not. */
  function Stored(rows: seq<FormationRow>, error: Option<string>, start: real, stop: real): StoredFormations {
    if error.Some? then RawRows(rows) else Intervals(Plotted(rows, start, stop))
  }

  /** What `prepare_data` keeps for a well: its curves with outliers blanked, and its Formation column. */
  datatype PreparedWell = PreparedWell(data: map<string, seq<Option<real>>>, formation: seq<string>)

  // ---------------------------------------------------------------------------
  // Curve inventory

  /** The names of all curves of all wells. */
  function CurveNames(wells: seq<Well>): set<string> {
    if wells == [] then {} else CurveNames(wells[..|wells| - 1]) + wells[|wells| - 1].data.Keys
  }

  /** A name is in the inventory exactly when some well has a curve of that name. */
  lemma {:induction false} CurveNamesIff(wells: seq<Well>, c: string)
    ensures c in CurveNames(wells) <==> exists i :: 0 <= i < |wells| && c in wells[i].data
  {
    if wells != [] {
      var init := wells[..|wells| - 1];
      CurveNamesIff(init, c);
      assert forall i :: 0 <= i < |init| ==> init[i] == wells[i];
    }
  }

  // ---------------------------------------------------------------------------
  // Curve selection

  /** A well's curves with every curve not in `selected` deleted. */
  function Restrict(data: map<string, seq<Option<real>>>, selected: seq<string>): map<string, seq<Option<real>>> {
    map c | c in data && c in selected :: data[c]
  }

  function FilteredWells(wells: seq<Well>, selected: seq<string>): (r: seq<Well>)
    ensures |r| == |wells|
  {
    seq(|wells|, i requires 0 <= i < |wells| => wells[i].(data := Restrict(wells[i].data, selected)))
  }

  /**
   * After the selection every well keeps exactly its selected curves, with their samples, and
   * nothing else about it changes; a second pass changes nothing.
   */
  lemma FilteredWellsKeep(wells: seq<Well>, selected: seq<string>, i: nat)
    requires i < |wells|
    ensures var w := FilteredWells(wells, selected)[i];
      && w.data.Keys == wells[i].data.Keys * set c | c in selected
      && (forall c :: c in w.data ==> w.data[c] == wells[i].data[c])
      && w.(data := wells[i].data) == wells[i]
    ensures FilteredWells(FilteredWells(wells, selected), selected) == FilteredWells(wells, selected)
  {
    var f := FilteredWells(wells, selected);
    var ff := FilteredWells(f, selected);
    forall j | 0 <= j < |wells| ensures ff[j] == f[j] {
      assert ff[j].data == f[j].data;
    }
  }

  // ---------------------------------------------------------------------------
  // Curve descriptions

  /** `row['descr'] if row['descr'] else row['value'] if row['value'] else row['unit']`. */
  function Description(r: CurveRow): string {
    if r.descr != "" then r.descr else if r.value != "" then r.value else r.unit
  }

  /** One assignment `curve_descriptions[curve][lease] = description`. */
  datatype Assignment = Assignment(curve: string, lease: string, description: string)

  type Descriptions = map<string, map<string, string>>

  function RowAssignments(lease: string, rows: seq<CurveRow>): (r: seq<Assignment>)
    ensures |r| == |rows|
  {
    seq(|rows|, j requires 0 <= j < |rows| => Assignment(rows[j].mnemonic, lease, Description(rows[j])))
  }

  /** One more curve row of a well adds its assignment to the table. */
  lemma TableNextRow(prior: seq<Assignment>, lease: string, rows: seq<CurveRow>, j: nat)
    requires j < |rows|
    ensures Table(prior + RowAssignments(lease, rows[..j + 1])) ==
      Put(Table(prior + RowAssignments(lease, rows[..j])), Assignment(rows[j].mnemonic, lease, Description(rows[j])))
  {
    var next := prior + RowAssignments(lease, rows[..j + 1]);
    assert next[..|next| - 1] == prior + RowAssignments(lease, rows[..j]);
  }

  /** The assignments in the order the two loops make them: wells, then each well's curve rows. */
  function Assignments(wells: seq<Well>): seq<Assignment> {
    if wells == [] then []
    else Assignments(wells[..|wells| - 1]) + RowAssignments(wells[|wells| - 1].lease, wells[|wells| - 1].curveRows)
  }

  function Put(t: Descriptions, a: Assignment): Descriptions {
    t[a.curve := (if a.curve in t then t[a.curve] else map[])[a.lease := a.description]]
  }

  /** The table the assignments build, one after the other. */
  function Table(assignments: seq<Assignment>): Descriptions {
    if assignments == [] then map[]
    else Put(Table(assignments[..|assignments| - 1]), assignments[|assignments| - 1])
  }

  /** A (curve, lease) pair is in the table exactly when some assignment names it. */
  lemma {:induction false} TableKeys(assignments: seq<Assignment>, c: string, lease: string)
    ensures c in Table(assignments) <==> exists k :: 0 <= k < |assignments| && assignments[k].curve == c
    ensures c in Table(assignments) && lease in Table(assignments)[c] <==>
      exists k :: 0 <= k < |assignments| && assignments[k].curve == c && assignments[k].lease == lease
  {
    if assignments != [] {
      var init := assignments[..|assignments| - 1];
      TableKeys(init, c, lease);
      assert forall k :: 0 <= k < |init| ==> init[k] == assignments[k];
    }
  }

  /** The last assignment to a (curve, lease) pair is the one the table keeps. */
  lemma {:induction false} TableLastWins(assignments: seq<Assignment>, k: nat)
    requires k < |assignments|
    requires forall l :: k < l < |assignments| ==>
      assignments[l].curve != assignments[k].curve || assignments[l].lease != assignments[k].lease
    ensures var a := assignments[k];
      a.curve in Table(assignments) && a.lease in Table(assignments)[a.curve] &&
      Table(assignments)[a.curve][a.lease] == a.description
  {
    var n := |assignments|;
    if k < n - 1 {
      var init := assignments[..n - 1];
      assert forall l :: 0 <= l < |init| ==> init[l] == assignments[l];
      TableLastWins(init, k);
    }
  }

  // ---------------------------------------------------------------------------
  // Outlier filtering

  /** The blanking loop over the selected curves, applied to the curves of the well with that lease. */
  function FilterCurves(data: map<string, seq<Option<real>>>, curves: seq<string>, outliers: seq<(string, Votes)>,
                        lease: string, minMethods: int): (r: map<string, seq<Option<real>>>)
    ensures r.Keys == data.Keys
  {
    if curves == [] then data
    else
      var d := FilterCurves(data, curves[..|curves| - 1], outliers, lease, minMethods);
      var c := curves[|curves| - 1];
      if c in d then d[c := Blanked(d[c], ToFilter(Flagged(outliers, lease, c), minMethods))] else d
  }

  /** Blanking the same positions twice is blanking them once. */
  lemma BlankedTwice(column: seq<Option<real>>, indices: seq<nat>)
    ensures Blanked(Blanked(column, indices), indices) == Blanked(column, indices)
  {
  }

  /**
   * A selected curve is blanked where the vote says so, whether it is selected once or more;
   * a curve that is not selected keeps its samples.
   */
  lemma {:induction false} FilterCurvesEffect(data: map<string, seq<Option<real>>>, curves: seq<string>,
                                              outliers: seq<(string, Votes)>, lease: string, minMethods: int, c: string)
    requires c in data
    ensures FilterCurves(data, curves, outliers, lease, minMethods)[c] ==
      if c in curves then Blanked(data[c], ToFilter(Flagged(outliers, lease, c), minMethods)) else data[c]
  {
    if curves != [] {
      var init := curves[..|curves| - 1];
      FilterCurvesEffect(data, init, outliers, lease, minMethods, c);
      assert c in curves <==> c in init || c == curves[|curves| - 1];
      BlankedTwice(data[c], ToFilter(Flagged(outliers, lease, c), minMethods));
    }
  }

  /**
   * The prepared samples of a curve: NaN where at least `minMethods` findings of the methods agree
   * on a selected curve's position, the loaded sample everywhere else.
   */
  lemma FilterCurvesVote(data: map<string, seq<Option<real>>>, curves: seq<string>,
                         outliers: seq<(string, Votes)>, lease: string, minMethods: int, c: string, i: nat)
    requires c in data && i < |data[c]|
    ensures var flagged := Flagged(outliers, lease, c);
      |FilterCurves(data, curves, outliers, lease, minMethods)[c]| == |data[c]| &&
      FilterCurves(data, curves, outliers, lease, minMethods)[c][i] ==
        if c in curves && i in flagged && multiset(flagged)[i] >= minMethods then None else data[c][i]
  {
    FilterCurvesEffect(data, curves, outliers, lease, minMethods, c);
    BlankedByVote(data[c], outliers, lease, c, minMethods, i);
  }

  // ---------------------------------------------------------------------------
  // The Formation column

  function AllUnknown(depths: seq<real>): (r: seq<string>)
    ensures |r| == |depths|
  {
    seq(|depths|, i requires 0 <= i < |depths| => UnknownName)
  }

  /**
   * A stored entry `prepare_data` cannot label by: the rows left by a failed parse (their
   * dictionaries unpack into key names), or an empty list, whose DataFrame has object-dtype
   * columns that `IntervalIndex.from_arrays` refuses with TypeError.
   */
  predicate Unlabelable(stored: StoredFormations) {
    stored.RawRows? || stored.intervals == []
  }

  /**
   * The Formation column of a well: labels from its stored intervals, all 'Unknown' without
   * stored data, and None where `prepare_data` fails on the stored entry.
   */
  function FormationColumn(stored: Option<StoredFormations>, depths: seq<real>): Option<seq<string>> {
    match stored
    case None => Some(AllUnknown(depths))
    case Some(Intervals(intervals)) => if intervals == [] then None else Some(Labelled(intervals, depths))
    case Some(RawRows(rows)) => None
  }

  /** What `prepare_data` keeps for one well, None when it fails on it. */
  function PreparedOf(w: Well, selected: seq<string>, outliers: seq<(string, Votes)>,
                      formationData: map<string, StoredFormations>, minMethods: int): Option<PreparedWell> {
    var stored := if w.lease in formationData then Some(formationData[w.lease]) else None;
    match FormationColumn(stored, w.depths)
    case None => None
    case Some(labels) => Some(PreparedWell(FilterCurves(w.data, selected, outliers, w.lease, minMethods), labels))
  }

  /**
   * `prepared_data` after the loop over `wells`, started from `acc`, and whether the loop ran to
   * the end; a later well with the same lease replaces an earlier one.
   */
  function PrepareFrom(acc: map<string, PreparedWell>, wells: seq<Well>, selected: seq<string>,
                       outliers: seq<(string, Votes)>, formationData: map<string, StoredFormations>,
                       minMethods: int): (map<string, PreparedWell>, bool)
    decreases |wells|
  {
    if wells == [] then (acc, true)
    else match PreparedOf(wells[0], selected, outliers, formationData, minMethods)
      case None => (acc, false)
      case Some(p) => PrepareFrom(acc[wells[0].lease := p], wells[1..], selected, outliers, formationData, minMethods)
  }

  /**
   * Every prepared well is labelled depth by depth, a well without stored formations is all
   * 'Unknown', and a well with stored formations had non-empty intervals.
   */
  lemma PreparedLabels(w: Well, selected: seq<string>, outliers: seq<(string, Votes)>,
                       formationData: map<string, StoredFormations>, minMethods: int)
    requires PreparedOf(w, selected, outliers, formationData, minMethods).Some?
    ensures var p := PreparedOf(w, selected, outliers, formationData, minMethods).value;
      && |p.formation| == |w.depths|
      && p.data.Keys == w.data.Keys
      && (w.lease !in formationData ==> forall i :: 0 <= i < |w.depths| ==> p.formation[i] == UnknownName)
      && (w.lease in formationData ==> !Unlabelable(formationData[w.lease]))
      && (w.lease in formationData && formationData[w.lease].Intervals? ==>
            forall i :: 0 <= i < |w.depths| ==> p.formation[i] == LabelOf(Bands(formationData[w.lease].intervals), w.depths[i]))
  {
  }

  /** `prepare_data` fails exactly on a well whose stored formations are raw rows or empty. */
  lemma {:induction false} PrepareFromRuns(acc: map<string, PreparedWell>, wells: seq<Well>, selected: seq<string>,
                                           outliers: seq<(string, Votes)>, formationData: map<string, StoredFormations>,
                                           minMethods: int)
    ensures PrepareFrom(acc, wells, selected, outliers, formationData, minMethods).1 <==>
      forall i :: 0 <= i < |wells| && wells[i].lease in formationData ==> !Unlabelable(formationData[wells[i].lease])
    decreases |wells|
  {
    if wells != [] {
      PrepareFromRuns(acc, wells[1..], selected, outliers, formationData, minMethods);
      var w := wells[0];
      if PreparedOf(w, selected, outliers, formationData, minMethods).Some? {
        assert forall i :: 1 <= i < |wells| ==> wells[i] == wells[1..][i - 1];
        PrepareFromRuns(acc[w.lease := PreparedOf(w, selected, outliers, formationData, minMethods).value],
                        wells[1..], selected, outliers, formationData, minMethods);
      }
    }
  }

  /** Each well of a completed loop is prepared under its lease unless a later well has the same lease. */
  lemma {:induction false} PrepareFromLastWins(acc: map<string, PreparedWell>, wells: seq<Well>, selected: seq<string>,
                                               outliers: seq<(string, Votes)>, formationData: map<string, StoredFormations>,
                                               minMethods: int, k: nat)
    requires k < |wells|
    requires PrepareFrom(acc, wells, selected, outliers, formationData, minMethods).1
    requires forall l :: k < l < |wells| ==> wells[l].lease != wells[k].lease
    ensures var r := PrepareFrom(acc, wells, selected, outliers, formationData, minMethods).0;
      && wells[k].lease in r
      && Some(r[wells[k].lease]) == PreparedOf(wells[k], selected, outliers, formationData, minMethods)
    decreases |wells|
  {
    var p := PreparedOf(wells[0], selected, outliers, formationData, minMethods).value;
    var acc' := acc[wells[0].lease := p];
    if k == 0 {
      PrepareFromKeeps(acc', wells[1..], selected, outliers, formationData, minMethods, wells[0].lease);
    } else {
      PrepareFromLastWins(acc', wells[1..], selected, outliers, formationData, minMethods, k - 1);
    }
  }

  /** A lease no remaining well has keeps what the loop started with. */
  lemma {:induction false} PrepareFromKeeps(acc: map<string, PreparedWell>, wells: seq<Well>, selected: seq<string>,
                                            outliers: seq<(string, Votes)>, formationData: map<string, StoredFormations>,
                                            minMethods: int, lease: string)
    requires lease in acc
    requires forall l :: 0 <= l < |wells| ==> wells[l].lease != lease
    ensures var r := PrepareFrom(acc, wells, selected, outliers, formationData, minMethods).0;
      lease in r && r[lease] == acc[lease]
    decreases |wells|
  {
    if wells != [] {
      match PreparedOf(wells[0], selected, outliers, formationData, minMethods)
      case None =>
      case Some(p) =>
        PrepareFromKeeps(acc[wells[0].lease := p], wells[1..], selected, outliers, formationData, minMethods, lease);
    }
  }
}
