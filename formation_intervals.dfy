/**
 * The plotting intervals `ProjectManager.extract_formation_data` builds from the rows read out of
 * the ~Other section: sorted by top, missing bases filled, and an `Unknown` interval on top.
 */
module FormationIntervals {
  import opened Wrappers
  import opened StableSort
  import opened FormationParse

  /** A plotted interval, the tuple `(top_depth, base_depth, formation_name)`. */
  datatype Interval = Interval(top: real, base: real, name: string)

  const UnknownName := "Unknown"

  /** The sort key of the parsed rows, `x['top']`. */
  function RowTop(r: FormationRow): real {
    r.top
  }

  /** The sort key of the plotted tuples, `x[0]`. */
  function IntervalTop(v: Interval): real {
    v.top
  }

  /** The base depth row `i` is drawn down to: its own base, else the next row's top, else the well's STOP. */
  function FilledBase(rows: seq<FormationRow>, i: nat, stop: real): real
    requires i < |rows|
  {
    match rows[i].base
    case Some(b) => b
    case None => if i < |rows| - 1 then rows[i + 1].top else stop
  }

  /** Every row as an interval with its base filled. */
  function Filled(rows: seq<FormationRow>, stop: real): (r: seq<Interval>)
    ensures |r| == |rows|
  {
    seq(|rows|, i requires 0 <= i < |rows| => Interval(rows[i].top, FilledBase(rows, i, stop), rows[i].formation))
  }

  /** The loop that fills the missing bases, one row after the other. */
  method FillBases(rows: seq<FormationRow>, stop: real) returns (plotted: seq<Interval>)
    ensures plotted == Filled(rows, stop)
  {
    plotted := [];
    for i := 0 to |rows|
      invariant plotted == Filled(rows, stop)[..i]
    {
      var base: real;
      if rows[i].base.Some? {
        base := rows[i].base.value;
      } else if i < |rows| - 1 {
        base := rows[i + 1].top;
      } else {
        base := stop;
      }
      plotted := plotted + [Interval(rows[i].top, base, rows[i].formation)];
    }
  }

  /** Whether the `Unknown` interval from START down to the first top is added. */
  predicate NeedsCap(sorted: seq<FormationRow>, start: real) {
    |sorted| > 0 && sorted[0].top > start
  }

  /** The filled intervals with `(START, first top, 'Unknown')` in front when the first top lies below START. */
  function Capped(filled: seq<Interval>, sorted: seq<FormationRow>, start: real): seq<Interval> {
    if NeedsCap(sorted, start) then [Interval(start, sorted[0].top, UnknownName)] + filled else filled
  }

  /** What `extract_formation_data` stores for a well whose ~Other section yields `rows`. */
  function Plotted(rows: seq<FormationRow>, start: real, stop: real): seq<Interval> {
    var sorted := SortBy(rows, RowTop);
    SortBy(Capped(Filled(sorted, stop), sorted, start), IntervalTop)
  }

  /** The filled intervals of rows sorted by top are themselves sorted by top. */
  lemma FilledSorted(sorted: seq<FormationRow>, stop: real)
    requires SortedBy(sorted, RowTop)
    ensures SortedBy(Filled(sorted, stop), IntervalTop)
  {
    var f := Filled(sorted, stop);
    forall i, j | 0 <= i < j < |f| ensures IntervalTop(f[i]) <= IntervalTop(f[j]) {
      assert RowTop(sorted[i]) <= RowTop(sorted[j]);
    }
  }

  /** The `Unknown` interval, when added, starts above every other top, so the capped list is still sorted. */
  lemma CappedSorted(sorted: seq<FormationRow>, start: real, stop: real)
    requires SortedBy(sorted, RowTop)
    ensures SortedBy(Capped(Filled(sorted, stop), sorted, start), IntervalTop)
  {
    var f := Filled(sorted, stop);
    FilledSorted(sorted, stop);
    if NeedsCap(sorted, start) {
      var c := Capped(f, sorted, start);
      forall i, j | 0 <= i < j < |c| ensures IntervalTop(c[i]) <= IntervalTop(c[j]) {
        if i == 0 {
          assert c[j] == f[j - 1];
          assert RowTop(sorted[0]) <= RowTop(sorted[j - 1]);
        } else {
          assert c[i] == f[i - 1] && c[j] == f[j - 1];
        }
      }
    }
  }

  /**
   * The final sort by `x[0]` changes nothing: the stored intervals are the rows sorted by top,
   * each with its filled base, behind the `Unknown` interval exactly when the first top lies
   * below START; there is one interval per row, plus the cap.
   */
  lemma PlottedShape(rows: seq<FormationRow>, start: real, stop: real)
    ensures var sorted := SortBy(rows, RowTop);
      && multiset(sorted) == multiset(rows)
      && Plotted(rows, start, stop) == Capped(Filled(sorted, stop), sorted, start)
      && |Plotted(rows, start, stop)| == |rows| + (if NeedsCap(sorted, start) then 1 else 0)
      && (NeedsCap(sorted, start) ==> Plotted(rows, start, stop)[0] == Interval(start, sorted[0].top, UnknownName))
      && SortedBy(Plotted(rows, start, stop), IntervalTop)
  {
    var sorted := SortBy(rows, RowTop);
    assert |sorted| == |multiset(sorted)| == |multiset(rows)| == |rows|;
    CappedSorted(sorted, start, stop);
    SortBySorted(Capped(Filled(sorted, stop), sorted, start), IntervalTop);
  }

  /**
   * Each interval past the cap is a row of the sorted list: its top, its name, and its own base,
   * else the next row's top, else STOP.
   */
  lemma CappedRow(sorted: seq<FormationRow>, start: real, stop: real, k: nat)
    requires k < |sorted|
    ensures var c := Capped(Filled(sorted, stop), sorted, start);
      var v := c[k + if NeedsCap(sorted, start) then 1 else 0];
      && v.top == sorted[k].top && v.name == sorted[k].formation
      && (sorted[k].base.Some? ==> v.base == sorted[k].base.value)
      && (sorted[k].base.None? && k + 1 < |sorted| ==> v.base == sorted[k + 1].top)
      && (sorted[k].base.None? && k + 1 == |sorted| ==> v.base == stop)
  {
    var f := Filled(sorted, stop);
    if NeedsCap(sorted, start) {
      assert Capped(f, sorted, start)[k + 1] == f[k];
    }
  }

  /**
   * Bases missing from every row of a sorted list make the intervals meet end to end, from the
   * first top down to STOP.
   */
  lemma FilledMeet(sorted: seq<FormationRow>, stop: real)
    requires sorted != []
    requires SortedBy(sorted, RowTop)
    requires forall i :: 0 <= i < |sorted| ==> sorted[i].base.None?
    requires sorted[|sorted| - 1].top <= stop
    ensures var f := Filled(sorted, stop);
      && f[0].top == sorted[0].top
      && f[|f| - 1].base == stop
      && (forall i :: 0 <= i < |f| - 1 ==> f[i].base == f[i + 1].top)
      && (forall i :: 0 <= i < |f| ==> f[i].top <= f[i].base)
  {
    var f := Filled(sorted, stop);
    forall i | 0 <= i < |f| ensures f[i].top <= f[i].base {
      if i < |f| - 1 {
        assert RowTop(sorted[i]) <= RowTop(sorted[i + 1]);
      }
    }
  }

  /** Two rows, (1000, no base, A) and (1200, 1250, B) with START 900 and STOP 1400, leave 1250-1400 uncovered. */
  lemma PlottedExample()
    ensures Plotted([FormationRow("A", 1000.0, None), FormationRow("B", 1200.0, Some(1250.0))], 900.0, 1400.0) ==
            [Interval(900.0, 1000.0, UnknownName), Interval(1000.0, 1200.0, "A"), Interval(1200.0, 1250.0, "B")]
  {
    var rows := [FormationRow("A", 1000.0, None), FormationRow("B", 1200.0, Some(1250.0))];
    assert SortedBy(rows, RowTop);
    SortBySorted(rows, RowTop);
    PlottedShape(rows, 900.0, 1400.0);
  }
}
