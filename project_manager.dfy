/**
 * `ProjectManager`: the state a loaded project carries between the steps of the data-preparation
 * workflow, and the steps that read and update it.
 */
module ProjectManagement {
  import opened Wrappers
  import opened LasTypes
  import opened StableSort
  import opened FormationParse
  import opened FormationIntervals
  import opened FormationLabels
  import opened OutlierVote
  import opened ProjectData

  const ValueErrorText := "ValueError"
  const TypeErrorText := "TypeError"

  class ProjectManager {
    /** `float` for the depths of the ~Other section. */
    const numbers: NumberText
    /** `self.methods`: the detection methods `process_curve` runs, in order. */
    const methods: seq<string>

    /** `self.project`: None before a project is loaded. */
    var project: Option<seq<Well>>
    var selectedCurves: seq<string>
    var uniqueCurves: set<string>
    var curveDescriptions: Descriptions
    var formationData: map<string, StoredFormations>
    /** `self.outliers`: method name -> lease -> curve -> flagged positions, in insertion order. */
    var outliers: seq<(string, Votes)>
    var preparedData: map<string, PreparedWell>

    constructor(numbers: NumberText, methods: seq<string>)
      ensures this.numbers == numbers && this.methods == methods
      ensures project == None && selectedCurves == [] && uniqueCurves == {} && curveDescriptions == map[]
      ensures formationData == map[] && outliers == [] && preparedData == map[]
    {
      this.numbers := numbers;
      this.methods := methods;
      project := None;
      selectedCurves := [];
      uniqueCurves := {};
      curveDescriptions := map[];
      formationData := map[];
      outliers := [];
      preparedData := map[];
    }

    /** `if not self.project`: no project, or one without wells, counts as not loaded. */
    predicate Loaded()
      reads this
    {
      project.Some? && project.value != []
    }

    /**
     * extract_formation_data: the ~Other rows of the well's file become its plotting intervals.
     * When a depth cannot be read, the rows appended so far stay stored and the error propagates.
     */
    method ExtractFormationData(well: Well, lines: seq<string>) returns (error: Option<string>)
      modifies this
      ensures error == ReadOther(lines, numbers).error
      ensures formationData == old(formationData)[well.lease :=
        Stored(ReadOther(lines, numbers).rows, error, well.start, well.stop)]
      ensures project == old(project) && selectedCurves == old(selectedCurves) && uniqueCurves == old(uniqueCurves)
      ensures curveDescriptions == old(curveDescriptions) && outliers == old(outliers) && preparedData == old(preparedData)
    {
      var rows;
      rows, error := ReadOtherSection(lines, numbers);
      StoreFormations(well, rows, error);
    }

    /** What extract_formation_data does with the rows the scan returned, or the error that stopped it. */
    method StoreFormations(well: Well, rows: seq<FormationRow>, error: Option<string>)
      modifies this
      ensures formationData == old(formationData)[well.lease := Stored(rows, error, well.start, well.stop)]
      ensures project == old(project) && selectedCurves == old(selectedCurves) && uniqueCurves == old(uniqueCurves)
      ensures curveDescriptions == old(curveDescriptions) && outliers == old(outliers) && preparedData == old(preparedData)
    {
      var stored := StoredValue(rows, error, well.start, well.stop);
      ghost var before := formationData;
      formationData := formationData[well.lease := stored];
      assert formationData == before[well.lease := stored];
    }

    /** The rows themselves after an error, else the intervals built from them. */
    static method StoredValue(rows: seq<FormationRow>, error: Option<string>, start: real, stop: real)
      returns (stored: StoredFormations)
      ensures stored == Stored(rows, error, start, stop)
    {
      if error.Some? {
        return RawRows(rows);
      }
      var plotted := BuildIntervals(rows, start, stop);
      return Intervals(plotted);
    }

    /** Sort by top, fill the missing bases, add the `Unknown` interval, sort by top again. */
    static method BuildIntervals(rows: seq<FormationRow>, start: real, stop: real) returns (plotted: seq<Interval>)
      ensures plotted == Plotted(rows, start, stop)
    {
      var sorted := SortBy(rows, RowTop);
      plotted := FillBases(sorted, stop);
      if |sorted| > 0 && sorted[0].top > start {
        plotted := [Interval(start, sorted[0].top, UnknownName)] + plotted;
      }
      assert plotted == Capped(Filled(sorted, stop), sorted, start);
      plotted := SortBy(plotted, IntervalTop);
    }

    /** get_unique_curves: the names of all curves of the project, or nothing when it is not loaded. */
    method GetUniqueCurves() returns (curves: set<string>)
      modifies this
      ensures old(Loaded()) ==> curves == CurveNames(old(project).value) && uniqueCurves == curves
      ensures !old(Loaded()) ==> curves == {} && uniqueCurves == old(uniqueCurves)
      ensures project == old(project) && selectedCurves == old(selectedCurves) && curveDescriptions == old(curveDescriptions)
      ensures formationData == old(formationData) && outliers == old(outliers) && preparedData == old(preparedData)
    {
      if !Loaded() {
        return {};
      }
      var wells := project.value;
      curves := {};
      for i := 0 to |wells|
        invariant curves == CurveNames(wells[..i])
      {
        assert wells[..i + 1][..i] == wells[..i];
        curves := curves + wells[i].data.Keys;
      }
      assert wells[..|wells|] == wells;
      uniqueCurves := curves;
    }

    /**
     * update_selected_curves: the selection is stored, then `self.filter_curves_in_project(self)`
     * passes one argument too many and raises TypeError, so no curve is deleted.
     */
    method UpdateSelectedCurves(selected: seq<string>) returns (error: Option<string>)
      modifies this
      ensures selectedCurves == selected && error == Some(TypeErrorText)
      ensures project == old(project) && uniqueCurves == old(uniqueCurves) && curveDescriptions == old(curveDescriptions)
      ensures formationData == old(formationData) && outliers == old(outliers) && preparedData == old(preparedData)
    {
      selectedCurves := selected;
      error := Some(TypeErrorText);
    }

    /** filter_curves_in_project: every well loses the curves that are not selected; without a project, TypeError. */
    method FilterCurvesInProject() returns (error: Option<string>)
      modifies this
      ensures old(project).None? ==> error == Some(TypeErrorText) && project == None
      ensures old(project).Some? ==> error == None && project == Some(FilteredWells(old(project).value, selectedCurves))
      ensures selectedCurves == old(selectedCurves) && uniqueCurves == old(uniqueCurves) && curveDescriptions == old(curveDescriptions)
      ensures formationData == old(formationData) && outliers == old(outliers) && preparedData == old(preparedData)
    {
      if project.None? {
        return Some(TypeErrorText);
      }
      var wells := project.value;
      var filtered := [];
      for i := 0 to |wells|
        invariant filtered == FilteredWells(wells, selectedCurves)[..i]
      {
        var data := wells[i].data;
        var kept := map c | c in data && c in selectedCurves :: data[c];
        filtered := filtered + [wells[i].(data := kept)];
      }
      assert FilteredWells(wells, selectedCurves)[..|wells|] == FilteredWells(wells, selectedCurves);
      project := Some(filtered);
      error := None;
    }

    /**
     * get_curve_descriptions: curve -> lease -> description over the curve rows of every well,
     * a later row for the same curve and lease replacing an earlier one.
     */
    method GetCurveDescriptions() returns (descriptions: Descriptions)
      modifies this
      ensures old(Loaded()) ==> descriptions == Table(Assignments(old(project).value)) && curveDescriptions == descriptions
      ensures !old(Loaded()) ==> descriptions == map[] && curveDescriptions == old(curveDescriptions)
      ensures project == old(project) && selectedCurves == old(selectedCurves) && uniqueCurves == old(uniqueCurves)
      ensures formationData == old(formationData) && outliers == old(outliers) && preparedData == old(preparedData)
    {
      if !Loaded() {
        return map[];
      }
      var wells := project.value;
      descriptions := map[];
      for i := 0 to |wells|
        invariant unchanged(this)
        invariant descriptions == Table(Assignments(wells[..i]))
      {
        assert wells[..i + 1][..i] == wells[..i];
        descriptions := DescribeRows(descriptions, wells[i].lease, wells[i].curveRows, Assignments(wells[..i]));
      }
      assert wells[..|wells|] == wells;
      curveDescriptions := descriptions;
    }

    /** The inner loop of get_curve_descriptions: one well's curve rows, one assignment each. */
    static method DescribeRows(descriptions: Descriptions, lease: string, rows: seq<CurveRow>, ghost prior: seq<Assignment>)
      returns (updated: Descriptions)
      requires descriptions == Table(prior)
      ensures updated == Table(prior + RowAssignments(lease, rows))
    {
      updated := descriptions;
      assert prior + RowAssignments(lease, rows[..0]) == prior;
      for j := 0 to |rows|
        invariant updated == Table(prior + RowAssignments(lease, rows[..j]))
      {
        var description := Description(rows[j]);
        var curve := rows[j].mnemonic;
        var byLease := if curve in updated then updated[curve] else map[];
        TableNextRow(prior, lease, rows, j);
        updated := updated[curve := byLease[lease := description]];
      }
      assert rows[..|rows|] == rows;
    }

    /**
     * process_curve: every method's findings on the NaN-free samples, mapped back to positions in
     * the curve; an all-NaN curve yields nothing.
     */
    method ProcessCurve(well: Well, curve: string, detect: (string, seq<real>) -> seq<int>) returns (found: map<string, seq<nat>>)
      requires curve in well.data
      requires forall m :: m in methods ==> InRange(detect(m, Clean(well.data[curve])), |Clean(well.data[curve])|)
      ensures var data := well.data[curve];
        && ((forall i :: 0 <= i < |data| ==> data[i].None?) ==> found == map[])
        && (Clean(data) != [] ==> found.Keys == set m | m in methods)
        && (forall m :: m in found ==> found[m] == Remap(data, detect(m, Clean(data))))
    {
      var data := well.data[curve];
      var clean := Clean(data);
      CleanEmpty(data);
      if |clean| == 0 {
        return map[];
      }
      found := map[];
      for i := 0 to |methods|
        invariant found.Keys == set k | 0 <= k < i :: methods[k]
        invariant forall m :: m in found ==> found[m] == Remap(data, detect(m, clean))
      {
        var m := methods[i];
        found := found[m := Remap(data, detect(m, clean))];
      }
      assert forall m :: m in methods <==> exists k :: 0 <= k < |methods| && methods[k] == m;
    }

    /** The blanking loop over the selected curves for one well. */
    static method FilterOutliers(data: map<string, seq<Option<real>>>, selected: seq<string>, outliers: seq<(string, Votes)>,
                                 lease: string, minMethods: int) returns (filtered: map<string, seq<Option<real>>>)
      ensures filtered == FilterCurves(data, selected, outliers, lease, minMethods)
    {
      filtered := data;
      for k := 0 to |selected|
        invariant filtered == FilterCurves(data, selected[..k], outliers, lease, minMethods)
      {
        assert selected[..k + 1][..k] == selected[..k];
        var curve := selected[k];
        if curve in filtered {
          var indices := ToFilter(Flagged(outliers, lease, curve), minMethods);
          if indices != [] {
            filtered := filtered[curve := Blanked(filtered[curve], indices)];
          } else {
            assert Blanked(filtered[curve], indices) == filtered[curve];
            filtered := filtered[curve := Blanked(filtered[curve], indices)];
          }
        }
      }
      assert selected[..|selected|] == selected;
    }

    /**
     * prepare_data: without detected outliers, ValueError; otherwise every well of the project in
     * turn gets its voted outliers blanked and its Formation column, stored under its lease.
     */
    method PrepareData(minMethods: int) returns (error: Option<string>)
      modifies this
      ensures old(outliers) == [] ==> error == Some(ValueErrorText) && preparedData == old(preparedData)
      ensures old(outliers) != [] && old(project).None? ==> error == Some(TypeErrorText) && preparedData == map[]
      ensures old(outliers) != [] && old(project).Some? ==>
        var r := PrepareFrom(map[], old(project).value, selectedCurves, outliers, formationData, minMethods);
        preparedData == r.0 && (error.None? <==> r.1)
      ensures project == old(project) && selectedCurves == old(selectedCurves) && uniqueCurves == old(uniqueCurves)
      ensures curveDescriptions == old(curveDescriptions) && formationData == old(formationData) && outliers == old(outliers)
    {
      if outliers == [] {
        return Some(ValueErrorText);
      }
      preparedData := map[];
      if project.None? {
        return Some(TypeErrorText);
      }
      var wells := project.value;
      for i := 0 to |wells|
        invariant project == old(project) && selectedCurves == old(selectedCurves) && uniqueCurves == old(uniqueCurves)
        invariant curveDescriptions == old(curveDescriptions) && formationData == old(formationData) && outliers == old(outliers)
        invariant PrepareFrom(map[], wells, selectedCurves, outliers, formationData, minMethods) ==
                  PrepareFrom(preparedData, wells[i..], selectedCurves, outliers, formationData, minMethods)
      {
        var w := wells[i];
        assert wells[i..] == [w] + wells[i + 1..];
        var stored := if w.lease in formationData then Some(formationData[w.lease]) else None;
        var labels: seq<string>;
        if stored.None? {
          labels := AllUnknown(w.depths);
        } else if stored.value.Intervals? && stored.value.intervals != [] {
          labels := LabelFormations(stored.value.intervals, w.depths);
        } else {
          assert PreparedOf(w, selectedCurves, outliers, formationData, minMethods).None?;
          return Some(TypeErrorText);
        }
        assert FormationColumn(stored, w.depths) == Some(labels);
        var data := FilterOutliers(w.data, selectedCurves, outliers, w.lease, minMethods);
        preparedData := preparedData[w.lease := PreparedWell(data, labels)];
      }
      error := None;
    }
  }
}
