/**
 * The curve inventories of the early exploratory analysis (`old_code/exploratory_data_analysis.py`):
 * the curves of each well by uwi, the distinct curve mnemonics of a project, and one description
 * per mnemonic.
 */
module CurveInventory {
  import opened Text
  import opened Sequences

  /** A well of the project: its uwi and the mnemonics of `well.data`, in order. */
  datatype Well = Well(uwi: string, curves: seq<string>)

  // ---------------------------------------------------------------------------
  // list_curves_per_well

  /** Well `i` is the last of the first `n` wells with uwi `uwi`. */
  predicate LastBefore(project: seq<Well>, uwi: string, i: int, n: int)
    requires n <= |project|
  {
    0 <= i < n && project[i].uwi == uwi && forall j :: i < j < n ==> project[j].uwi != uwi
  }

  /**
   * `list_curves_per_well`: one entry per uwi of the project, holding the curves of the last well
   * with that uwi, since a later well overwrites an earlier one.
   */
  method ListCurvesPerWell(project: seq<Well>) returns (wellCurves: map<string, seq<string>>)
    ensures forall u :: u in wellCurves <==> exists i :: 0 <= i < |project| && project[i].uwi == u
    ensures forall u :: u in wellCurves ==>
      exists i :: LastBefore(project, u, i, |project|) && wellCurves[u] == project[i].curves
  {
    wellCurves := map[];
    for n := 0 to |project|
      invariant forall u :: u in wellCurves <==> exists i :: 0 <= i < n && project[i].uwi == u
      invariant forall u :: u in wellCurves ==>
        exists i :: LastBefore(project, u, i, n) && wellCurves[u] == project[i].curves
    {
      var well := project[n];
      wellCurves := wellCurves[well.uwi := well.curves];
      assert LastBefore(project, well.uwi, n, n + 1);
      forall u | u in wellCurves && u != well.uwi
        ensures exists i :: LastBefore(project, u, i, n + 1) && wellCurves[u] == project[i].curves
      {
        var i :| LastBefore(project, u, i, n) && wellCurves[u] == project[i].curves;
        assert LastBefore(project, u, i, n + 1);
      }
    }
  }

  // ---------------------------------------------------------------------------
  // list_unique_curves

  /** The curves of all wells, well after well. */
  function Flatten<T>(xss: seq<seq<T>>): seq<T> {
    if xss == [] then [] else Flatten(xss[..|xss| - 1]) + xss[|xss| - 1]
  }

  lemma FlattenSnoc<T>(xss: seq<seq<T>>, w: nat)
    requires w < |xss|
    ensures Flatten(xss[..w + 1]) == Flatten(xss[..w]) + xss[w]
  {
    assert xss[..w + 1][..w] == xss[..w];
  }

  /**
   * `list_unique_curves`: every curve of every well, each once, in the order the wells and their
   * curves are visited.
   */
  method ListUniqueCurves(project: seq<seq<string>>) returns (curves: seq<string>)
    ensures curves == Unique(Flatten(project))
  {
    curves := [];
    for w := 0 to |project|
      invariant curves == Unique(Flatten(project[..w]))
    {
      ghost var before := Flatten(project[..w]);
      var wellCurves := project[w];
      assert before + wellCurves[..0] == before;
      for c := 0 to |wellCurves|
        invariant curves == Unique(before + wellCurves[..c])
      {
        var curve := wellCurves[c];
        assert before + wellCurves[..c + 1] == (before + wellCurves[..c]) + [curve];
        UniqueSnoc(before + wellCurves[..c], curve);
        if curve !in curves {
          curves := curves + [curve];
        }
      }
      assert wellCurves[..|wellCurves|] == wellCurves;
      FlattenSnoc(project, w);
    }
    assert project[..|project|] == project;
  }

  /** The inventory holds every curve of the project, each once, in order of first appearance. */
  lemma UniqueCurves(project: seq<seq<string>>)
    ensures var curves := Unique(Flatten(project));
      && NoDuplicates(curves)
      && (forall x :: x in curves <==> x in Flatten(project))
      && forall k, l :: 0 <= k < l < |curves| ==> First(Flatten(project), curves[k]) < First(Flatten(project), curves[l])
  {
    UniqueOrdered(Flatten(project));
  }

  // ---------------------------------------------------------------------------
  // list_unique_curves_and_descriptions

  /** A curve of the lasio file made from a well: its mnemonic and its description. */
  datatype Curve = Curve(mnemonic: string, descr: string)

  const NoDescription := "No description available"

  /** `curve.descr or 'No description available'`. */
  function Description(c: Curve): string {
    if c.descr == "" then NoDescription else c.descr
  }

  /** A stored description that `.strip()` empties. */
  predicate Blank(d: string) {
    Strip(d) == ""
  }

  /** The dictionary after one more curve: a mnemonic is set when new or when its description is blank. */
  function Describe(descriptions: map<string, string>, c: Curve): map<string, string> {
    if c.mnemonic !in descriptions || Blank(descriptions[c.mnemonic]) then descriptions[c.mnemonic := Description(c)]
    else descriptions
  }

  function Descriptions(curves: seq<Curve>): map<string, string> {
    if curves == [] then map[] else Describe(Descriptions(curves[..|curves| - 1]), curves[|curves| - 1])
  }

  lemma DescriptionsSnoc(curves: seq<Curve>, c: Curve)
    ensures Descriptions(curves + [c]) == Describe(Descriptions(curves), c)
  {
    assert (curves + [c])[..|curves|] == curves;
  }

  lemma DescriptionsStep(before: seq<Curve>, curves: seq<Curve>, c: nat)
    requires c < |curves|
    ensures Descriptions(before + curves[..c + 1]) == Describe(Descriptions(before + curves[..c]), curves[c])
  {
    assert before + curves[..c + 1] == (before + curves[..c]) + [curves[c]];
    DescriptionsSnoc(before + curves[..c], curves[c]);
  }

  /** Curve `i` is the first curve of `mnemonic` whose description is not blank. */
  predicate FirstSolid(curves: seq<Curve>, mnemonic: string, i: int) {
    && 0 <= i < |curves| && curves[i].mnemonic == mnemonic && !Blank(Description(curves[i]))
    && forall j :: 0 <= j < i && curves[j].mnemonic == mnemonic ==> Blank(Description(curves[j]))
  }

  /** Curve `i` is the last curve of `mnemonic`. */
  predicate LastOf(curves: seq<Curve>, mnemonic: string, i: int) {
    0 <= i < |curves| && curves[i].mnemonic == mnemonic && forall j :: i < j < |curves| ==> curves[j].mnemonic != mnemonic
  }

  predicate AllBlank(curves: seq<Curve>, mnemonic: string) {
    forall j :: 0 <= j < |curves| && curves[j].mnemonic == mnemonic ==> Blank(Description(curves[j]))
  }

  /** A mnemonic gets a description exactly when one of the curves has it. */
  lemma {:induction false} DescriptionsKeys(curves: seq<Curve>, mnemonic: string)
    ensures mnemonic in Descriptions(curves) <==> exists i :: 0 <= i < |curves| && curves[i].mnemonic == mnemonic
  {
    if curves != [] {
      var n := |curves| - 1;
      var init := curves[..n];
      DescriptionsKeys(init, mnemonic);
      if exists i :: 0 <= i < |curves| && curves[i].mnemonic == mnemonic {
        var i :| 0 <= i < |curves| && curves[i].mnemonic == mnemonic;
        if i < n {
          assert init[i].mnemonic == mnemonic;
        }
      }
      if exists i :: 0 <= i < n && init[i].mnemonic == mnemonic {
        var i :| 0 <= i < n && init[i].mnemonic == mnemonic;
        assert curves[i].mnemonic == mnemonic;
      }
    }
  }

  /** The curve whose description is kept: the first solid one, or the last one when all are blank. */
  predicate Picked(curves: seq<Curve>, mnemonic: string, i: int) {
    FirstSolid(curves, mnemonic, i) || (AllBlank(curves, mnemonic) && LastOf(curves, mnemonic, i))
  }

  /** A curve of another mnemonic changes nothing about the pick. */
  lemma PickedOther(init: seq<Curve>, c: Curve, mnemonic: string, i: int)
    requires c.mnemonic != mnemonic && Picked(init, mnemonic, i)
    ensures Picked(init + [c], mnemonic, i)
  {
    var curves := init + [c];
    assert curves[i] == init[i];
    if FirstSolid(init, mnemonic, i) {
      forall j | 0 <= j < i && curves[j].mnemonic == mnemonic ensures Blank(Description(curves[j])) {
        assert curves[j] == init[j];
      }
    } else {
      forall j | 0 <= j < |curves| && curves[j].mnemonic == mnemonic ensures Blank(Description(curves[j])) {
        assert curves[j] == init[j];
      }
    }
  }

  /** A solid description stays when a later curve of its mnemonic comes. */
  lemma PickedKept(init: seq<Curve>, c: Curve, mnemonic: string, i: int)
    requires c.mnemonic == mnemonic && Picked(init, mnemonic, i) && !Blank(Description(init[i]))
    ensures Picked(init + [c], mnemonic, i)
  {
    var curves := init + [c];
    assert forall j :: 0 <= j < |init| ==> curves[j] == init[j];
    assert FirstSolid(init, mnemonic, i);
    assert FirstSolid(curves, mnemonic, i);
  }

  /** After only blank descriptions, the new curve is the pick. */
  lemma PickedNew(init: seq<Curve>, c: Curve, mnemonic: string)
    requires c.mnemonic == mnemonic && AllBlank(init, mnemonic)
    ensures Picked(init + [c], mnemonic, |init|)
  {
    var curves := init + [c];
    assert forall j :: 0 <= j < |init| ==> curves[j] == init[j];
    if Blank(Description(c)) {
      assert AllBlank(curves, mnemonic);
      assert LastOf(curves, mnemonic, |init|);
    } else {
      assert FirstSolid(curves, mnemonic, |init|);
    }
  }

  /** A non-empty list of curves is its front followed by its last curve. */
  lemma InitLast(curves: seq<Curve>)
    requires curves != []
    ensures curves == curves[..|curves| - 1] + [curves[|curves| - 1]]
  {
  }

  lemma {:induction false} DescriptionsValue(curves: seq<Curve>, mnemonic: string)
    requires mnemonic in Descriptions(curves)
    ensures exists i :: Picked(curves, mnemonic, i) && Descriptions(curves)[mnemonic] == Description(curves[i])
  {
    var n := |curves| - 1;
    var init := curves[..n];
    var c := curves[n];
    InitLast(curves);
    var before := Descriptions(init);
    if c.mnemonic != mnemonic {
      DescriptionsValue(init, mnemonic);
      var i :| Picked(init, mnemonic, i) && before[mnemonic] == Description(init[i]);
      PickedOther(init, c, mnemonic, i);
      assert curves[i] == init[i];
    } else if mnemonic in before && !Blank(before[mnemonic]) {
      DescriptionsValue(init, mnemonic);
      var i :| Picked(init, mnemonic, i) && before[mnemonic] == Description(init[i]);
      PickedKept(init, c, mnemonic, i);
      assert curves[i] == init[i];
    } else {
      if mnemonic in before {
        DescriptionsValue(init, mnemonic);
        var i :| Picked(init, mnemonic, i) && before[mnemonic] == Description(init[i]);
        assert !FirstSolid(init, mnemonic, i);
      } else {
        DescriptionsKeys(init, mnemonic);
      }
      PickedNew(init, c, mnemonic);
    }
  }

  /**
   * Each mnemonic met gets one description: that of its first curve with a description that is
   * not blank, or, when all of its descriptions are blank, that of its last curve.
   */
  lemma DescriptionsChosen(curves: seq<Curve>, mnemonic: string)
    ensures mnemonic in Descriptions(curves) <==> exists i :: 0 <= i < |curves| && curves[i].mnemonic == mnemonic
    ensures forall i :: FirstSolid(curves, mnemonic, i) ==> Descriptions(curves)[mnemonic] == Description(curves[i])
    ensures mnemonic in Descriptions(curves) && AllBlank(curves, mnemonic) ==>
      exists i :: LastOf(curves, mnemonic, i) && Descriptions(curves)[mnemonic] == Description(curves[i])
  {
    DescriptionsKeys(curves, mnemonic);
    if mnemonic in Descriptions(curves) {
      DescriptionsValue(curves, mnemonic);
      var i :| Picked(curves, mnemonic, i) && Descriptions(curves)[mnemonic] == Description(curves[i]);
      forall j | FirstSolid(curves, mnemonic, j) ensures Descriptions(curves)[mnemonic] == Description(curves[j]) {
        FirstSolidUnique(curves, mnemonic, i, j);
      }
    }
  }

  /** When some curve of the mnemonic has a solid description, a first one does. */
  lemma {:induction false} SolidExists(curves: seq<Curve>, mnemonic: string, i0: int)
    requires 0 <= i0 < |curves| && curves[i0].mnemonic == mnemonic && !Blank(Description(curves[i0]))
    ensures exists s :: FirstSolid(curves, mnemonic, s)
    decreases i0
  {
    if !FirstSolid(curves, mnemonic, i0) {
      var j :| 0 <= j < i0 && curves[j].mnemonic == mnemonic && !Blank(Description(curves[j]));
      SolidExists(curves, mnemonic, j);
    }
  }

  lemma FirstSolidUnique(curves: seq<Curve>, mnemonic: string, i: int, j: int)
    requires FirstSolid(curves, mnemonic, i) && FirstSolid(curves, mnemonic, j)
    ensures i == j
  {
  }

  /** The inner loop: the curves of one well update the dictionary in order. */
  method DescribeCurves(curveDescriptions: map<string, string>, ghost before: seq<Curve>, lasCurves: seq<Curve>)
    returns (updated: map<string, string>)
    requires curveDescriptions == Descriptions(before)
    ensures updated == Descriptions(before + lasCurves)
  {
    updated := curveDescriptions;
    assert before + lasCurves[..0] == before;
    for c := 0 to |lasCurves|
      invariant updated == Descriptions(before + lasCurves[..c])
    {
      var curve := lasCurves[c];
      DescriptionsStep(before, lasCurves, c);
      var mnemonic := curve.mnemonic;
      var description := Description(curve);
      if mnemonic !in updated || Blank(updated[mnemonic]) {
        updated := updated[mnemonic := description];
      }
    }
    assert lasCurves[..|lasCurves|] == lasCurves;
  }

  /**
   * `list_unique_curves_and_descriptions`: the curves of the wells visited well after well, each
   * curve updating the dictionary by the rule of `Describe`.
   */
  method ListCurveDescriptions(wells: seq<seq<Curve>>) returns (curveDescriptions: map<string, string>)
    ensures curveDescriptions == Descriptions(Flatten(wells))
  {
    curveDescriptions := map[];
    for w := 0 to |wells|
      invariant curveDescriptions == Descriptions(Flatten(wells[..w]))
    {
      curveDescriptions := DescribeCurves(curveDescriptions, Flatten(wells[..w]), wells[w]);
      FlattenSnoc(wells, w);
    }
    assert wells[..|wells|] == wells;
  }
}
