/**
 * Header clean-up of one LAS file: curve mnemonics that carry their unit are split, and
 * the ~Well section is rebuilt from the Wells_ and Logs_ rows of the well.
 */
module LasHeader {
  import opened Wrappers
  import opened Text
  import opened LasTypes

  // ---------------------------------------------------------------------------
  // Curve mnemonics

  /**
   * The (mnemonic, unit) of a curve after standardisation. Two or more whitespace-separated
   * words give the first two words; otherwise the mnemonic is cut at its first '.', else at
   * its first ' '; otherwise both fields stay as they are.
   */
  function SplitMnemonic(mnemonic: string, unit: string): (string, string) {
    var parts := Words(mnemonic);
    if |parts| > 1 then (parts[0], parts[1])
    else if '.' in mnemonic then
      var i := IndexOf(mnemonic, '.');
      (mnemonic[..i], mnemonic[i + 1..])
    else if ' ' in mnemonic then
      var i := IndexOf(mnemonic, ' ');
      (mnemonic[..i], mnemonic[i + 1..])
    else (mnemonic, unit)
  }

  /** The text cut at the first `c` is what comes before and after that `c`. */
  lemma CutAtFirst(s: string, c: char)
    requires c in s
    ensures var i := IndexOf(s, c);
      i < |s| && s[..i] + [c] + s[i + 1..] == s && c !in s[..i]
  {
    var i := IndexOf(s, c);
    assert i < |s| by {
      var k :| 0 <= k < |s| && s[k] == c;
    }
    assert s == s[..i] + [c] + s[i + 1..];
  }

  /**
   * What each rule of the split promises: with two or more words, the mnemonic becomes the
   * whitespace-free run after the leading whitespace, and the unit the run after the whitespace
   * that follows it; a cut at the first '.' or ' ' loses only that character; a mnemonic with
   * neither keeps its unit.
   */
  lemma SplitMnemonicRules(mnemonic: string, unit: string)
    ensures var r := SplitMnemonic(mnemonic, unit);
      && (|Words(mnemonic)| > 1 ==>
            var t := TrimStart(mnemonic, IsSpace);
            && IsWord(r.0) && |r.0| < |t| && t[..|r.0|] == r.0 && IsSpace(t[|r.0|])
            && var u := TrimStart(t[|r.0|..], IsSpace);
            && IsWord(r.1) && |r.1| <= |u| && u[..|r.1|] == r.1 && (|r.1| == |u| || IsSpace(u[|r.1|])))
      && (|Words(mnemonic)| <= 1 && '.' in mnemonic ==>
            r.0 + "." + r.1 == mnemonic && '.' !in r.0)
      && (|Words(mnemonic)| <= 1 && '.' !in mnemonic && ' ' in mnemonic ==>
            r.0 + " " + r.1 == mnemonic && ' ' !in r.0)
      && (|Words(mnemonic)| <= 1 && '.' !in mnemonic && ' ' !in mnemonic ==>
            r == (mnemonic, unit))
  {
    if |Words(mnemonic)| > 1 {
      var t := TrimStart(mnemonic, IsSpace);
      var w := Words(mnemonic);
      WordsFirst(mnemonic);
      var rest := t[|w[0]|..];
      assert Words(rest) == w[1..] != [];
      WordsFirst(rest);
    } else {
      if '.' in mnemonic {
        CutAtFirst(mnemonic, '.');
      } else if ' ' in mnemonic {
        CutAtFirst(mnemonic, ' ');
      }
    }
  }

  /** The curve with its mnemonic and unit standardised; description and samples untouched. */
  function StandardizedCurve(c: Curve): (r: Curve)
    ensures (r.mnemonic, r.unit) == SplitMnemonic(c.mnemonic, c.unit)
    ensures r.descr == c.descr && r.data == c.data
  {
    var (m, u) := SplitMnemonic(c.mnemonic, c.unit);
    c.(mnemonic := m, unit := u)
  }

  /** Standardises every curve of the file, keeping their order. */
  method StandardizeCurveInformation(las: LasFile)
    modifies las
    ensures |las.curves| == |old(las.curves)|
    ensures forall i :: 0 <= i < |las.curves| ==> las.curves[i] == StandardizedCurve(old(las.curves)[i])
    ensures las.well == old(las.well) && las.index == old(las.index) && las.sections == old(las.sections)
  {
    var standardized: seq<Curve> := [];
    var i := 0;
    while i < |las.curves|
      invariant 0 <= i <= |las.curves|
      invariant |standardized| == i
      invariant forall j :: 0 <= j < i ==> standardized[j] == StandardizedCurve(las.curves[j])
    {
      var curve := las.curves[i];
      var (m, u) := SplitMnemonic(curve.mnemonic, curve.unit);
      curve := curve.(mnemonic := m, unit := u);
      standardized := standardized + [curve];
      i := i + 1;
    }
    las.curves := standardized;
  }

  // ---------------------------------------------------------------------------
  // The ~Well section

  /** (LAS mnemonic, table column) of the thirteen fields filled from the tables. */
  const RequiredFields: seq<(string, string)> := [
    ("UWI", "API"),
    ("WELL", "WELL_NAME"),
    ("LAT", "NAD27_LATITUDE"),
    ("LONG", "NAD27_LONGITUDE"),
    ("LOC", "LOCATION"),
    ("FLD", "FIELD_NAME"),
    ("CNTY", "COUNTY"),
    ("ELEV", "ELEVATION"),
    ("EREF", "ELEVATION_REFERENCE"),
    ("COMP", "CURR_OPERATOR"),
    ("LOGGER", "LOGGER"),
    ("FORM", "PRODUCING_FORMATION"),
    ("DATE", "LOG_DATE")
  ]

  /** (mnemonic, default value text) of the four items every ~Well section keeps. */
  const MandatoryFields: seq<(string, string)> := [
    ("STRT", "0.0"),
    ("STOP", "0.0"),
    ("STEP", "0.0"),
    ("NULL", "-999.25")
  ]

  /** The mnemonics of a field list. */
  function KeysOf(fields: seq<(string, string)>): set<string> {
    set j | 0 <= j < |fields| :: fields[j].0
  }

  /** The mnemonics a rebuilt ~Well section may hold. */
  function AllowedKeys(): set<string> {
    KeysOf(RequiredFields) + KeysOf(MandatoryFields)
  }

  predicate DistinctKeys(fields: seq<(string, string)>) {
    forall i, j :: 0 <= i < j < |fields| ==> fields[i].0 != fields[j].0
  }

  /** A table value for `column`: from the well row when it has that column (even NaN), else from the log row, else None. */
  function TableValue(wellInfo: Record, logInfo: Record, column: string): Value {
    if column in wellInfo.cells then wellInfo.cells[column]
    else if column in logInfo.cells then logInfo.cells[column]
    else Null
  }

  /** The value a mandatory item keeps: the file's own, or the default text. */
  function MandatoryValue(well: map<string, HeaderItem>, field: (string, string)): Value {
    if field.0 in well then well[field.0].value else Str(field.1)
  }

  /** The ~Well section after re-creating each mandatory item of `fields` (value kept, unit and description dropped). */
  function WithMandatory(orig: map<string, HeaderItem>, fields: seq<(string, string)>): map<string, HeaderItem> {
    if fields == [] then orig
    else
      var f := fields[|fields| - 1];
      WithMandatory(orig, fields[..|fields| - 1])[f.0 := HeaderItem(f.0, "", MandatoryValue(orig, f), "")]
  }

  /** The items whose mnemonic is in `keep`. */
  function Restrict(well: map<string, HeaderItem>, keep: set<string>): map<string, HeaderItem> {
    map k | k in well && k in keep :: well[k]
  }

  /** The ~Well section after setting each field of `fields` whose table value is not None. */
  function ApplyRequired(well: map<string, HeaderItem>, wellInfo: Record, logInfo: Record,
                         fields: seq<(string, string)>): map<string, HeaderItem>
  {
    if fields == [] then well
    else
      var f := fields[|fields| - 1];
      var w := ApplyRequired(well, wellInfo, logInfo, fields[..|fields| - 1]);
      var v := TableValue(wellInfo, logInfo, f.1);
      if v != Null then w[f.0 := HeaderItem(f.0, "", v, f.1)] else w
  }

  /** The rebuilt ~Well section: mandatory items re-created, foreign items dropped, table fields set. */
  function SynthesizedWell(well: map<string, HeaderItem>, wellInfo: Record, logInfo: Record): map<string, HeaderItem> {
    ApplyRequired(Restrict(WithMandatory(well, MandatoryFields), AllowedKeys()), wellInfo, logInfo, RequiredFields)
  }

  /** Rebuilds the ~Well section of the file in place. */
  method UpdateWellInformation(las: LasFile, wellInfo: Record, logInfo: Record)
    modifies las
    ensures las.well == SynthesizedWell(old(las.well), wellInfo, logInfo)
    ensures las.curves == old(las.curves) && las.index == old(las.index) && las.sections == old(las.sections)
  {
    AddMandatoryFields(las);
    DropForeignItems(las);
    SetRequiredFields(las, wellInfo, logInfo);
  }

  /** Re-creates STRT, STOP, STEP and NULL, keeping each value the file had. */
  method AddMandatoryFields(las: LasFile)
    modifies las
    ensures las.well == WithMandatory(old(las.well), MandatoryFields)
    ensures las.curves == old(las.curves) && las.index == old(las.index) && las.sections == old(las.sections)
  {
    var orig := las.well;
    var i := 0;
    while i < |MandatoryFields|
      invariant 0 <= i <= |MandatoryFields|
      invariant las.well == WithMandatory(orig, MandatoryFields[..i])
      invariant las.curves == old(las.curves) && las.index == old(las.index) && las.sections == old(las.sections)
    {
      var f := MandatoryFields[i];
      assert MandatoryFields[..i + 1][..i] == MandatoryFields[..i];
      las.well := las.well[f.0 := HeaderItem(f.0, "", MandatoryValue(orig, f), "")];
      i := i + 1;
    }
    assert MandatoryFields[..i] == MandatoryFields;
  }

  /** Deletes every item that is neither a table field nor a mandatory item. */
  method DropForeignItems(las: LasFile)
    modifies las
    ensures las.well == Restrict(old(las.well), AllowedKeys())
    ensures las.curves == old(las.curves) && las.index == old(las.index) && las.sections == old(las.sections)
  {
    var allowed := AllowedKeys();
    var existing := las.well.Keys;
    while existing != {}
      invariant existing <= old(las.well).Keys
      invariant las.well == map k | k in old(las.well) && (k in allowed || k in existing) :: old(las.well)[k]
      invariant las.curves == old(las.curves) && las.index == old(las.index) && las.sections == old(las.sections)
      decreases existing
    {
      var item :| item in existing;
      if item !in allowed {
        las.well := las.well - {item};
      }
      existing := existing - {item};
    }
  }

  /** Sets each table field whose value is not None, with the column name as description. */
  method SetRequiredFields(las: LasFile, wellInfo: Record, logInfo: Record)
    modifies las
    ensures las.well == ApplyRequired(old(las.well), wellInfo, logInfo, RequiredFields)
    ensures las.curves == old(las.curves) && las.index == old(las.index) && las.sections == old(las.sections)
  {
    var start := las.well;
    var i := 0;
    while i < |RequiredFields|
      invariant 0 <= i <= |RequiredFields|
      invariant las.well == ApplyRequired(start, wellInfo, logInfo, RequiredFields[..i])
      invariant las.curves == old(las.curves) && las.index == old(las.index) && las.sections == old(las.sections)
    {
      var f := RequiredFields[i];
      assert RequiredFields[..i + 1][..i] == RequiredFields[..i];
      var value := TableValue(wellInfo, logInfo, f.1);
      if value != Null {
        las.well := las.well[f.0 := HeaderItem(f.0, "", value, f.1)];
      }
      i := i + 1;
    }
    assert RequiredFields[..i] == RequiredFields;
  }

  // ---------------------------------------------------------------------------
  // What the rebuilt ~Well section holds

  /** A mnemonic that no field of `fields` sets is left as it was. */
  lemma {:induction false} ApplyRequiredOther(well: map<string, HeaderItem>, wellInfo: Record, logInfo: Record,
                                              fields: seq<(string, string)>, k: string)
    requires k !in KeysOf(fields)
    ensures var r := ApplyRequired(well, wellInfo, logInfo, fields);
      (k in r <==> k in well) && (k in well ==> r[k] == well[k])
  {
    if fields != [] {
      var init := fields[..|fields| - 1];
      assert KeysOf(init) <= KeysOf(fields) by {
        forall j | 0 <= j < |init| ensures init[j].0 in KeysOf(fields) {
          assert init[j] == fields[j];
        }
      }
      ApplyRequiredOther(well, wellInfo, logInfo, init, k);
      assert fields[|fields| - 1].0 in KeysOf(fields);
    }
  }

  /** The field at position `j` is set to its table value with the column as description, unless that value is None. */
  lemma {:induction false} ApplyRequiredField(well: map<string, HeaderItem>, wellInfo: Record, logInfo: Record,
                                              fields: seq<(string, string)>, j: int)
    requires DistinctKeys(fields) && 0 <= j < |fields|
    ensures var r := ApplyRequired(well, wellInfo, logInfo, fields);
      var k := fields[j].0;
      var v := TableValue(wellInfo, logInfo, fields[j].1);
      && (v != Null ==> k in r && r[k] == HeaderItem(k, "", v, fields[j].1))
      && (v == Null ==> (k in r <==> k in well) && (k in well ==> r[k] == well[k]))
  {
    var init := fields[..|fields| - 1];
    if j == |fields| - 1 {
      assert fields[j].0 !in KeysOf(init) by {
        forall m | 0 <= m < |init| ensures init[m].0 != fields[j].0 {
          assert init[m] == fields[m];
        }
      }
      ApplyRequiredOther(well, wellInfo, logInfo, init, fields[j].0);
    } else {
      assert init[j] == fields[j];
      ApplyRequiredField(well, wellInfo, logInfo, init, j);
    }
  }

  /** Re-creating the mandatory items touches only their mnemonics. */
  lemma {:induction false} WithMandatoryOther(orig: map<string, HeaderItem>, fields: seq<(string, string)>, k: string)
    requires k !in KeysOf(fields)
    ensures var r := WithMandatory(orig, fields);
      (k in r <==> k in orig) && (k in orig ==> r[k] == orig[k])
  {
    if fields != [] {
      var init := fields[..|fields| - 1];
      assert KeysOf(init) <= KeysOf(fields) by {
        forall j | 0 <= j < |init| ensures init[j].0 in KeysOf(fields) {
          assert init[j] == fields[j];
        }
      }
      WithMandatoryOther(orig, init, k);
      assert fields[|fields| - 1].0 in KeysOf(fields);
    }
  }

  /** Each mandatory item holds the file's own value, or its default, with no unit and no description. */
  lemma {:induction false} WithMandatoryField(orig: map<string, HeaderItem>, fields: seq<(string, string)>, j: int)
    requires DistinctKeys(fields) && 0 <= j < |fields|
    ensures var r := WithMandatory(orig, fields);
      fields[j].0 in r && r[fields[j].0] == HeaderItem(fields[j].0, "", MandatoryValue(orig, fields[j]), "")
  {
    var init := fields[..|fields| - 1];
    if j < |fields| - 1 {
      assert init[j] == fields[j];
      WithMandatoryField(orig, init, j);
    }
  }

  /** The two field lists name thirteen and four different mnemonics, and no mnemonic is in both. */
  lemma FieldListsDisjoint()
    ensures DistinctKeys(RequiredFields) && DistinctKeys(MandatoryFields)
    ensures KeysOf(RequiredFields) !! KeysOf(MandatoryFields)
  {
  }

  /** A rebuilt ~Well section holds all four mandatory items and nothing outside the allowed mnemonics. */
  lemma SynthesizedWellKeys(well: map<string, HeaderItem>, wellInfo: Record, logInfo: Record)
    ensures var r := SynthesizedWell(well, wellInfo, logInfo);
      (forall k :: k in r ==> k in AllowedKeys()) && KeysOf(MandatoryFields) <= r.Keys
  {
    var kept := Restrict(WithMandatory(well, MandatoryFields), AllowedKeys());
    var r := SynthesizedWell(well, wellInfo, logInfo);
    forall k | k in r ensures k in AllowedKeys() {
      if k !in KeysOf(RequiredFields) {
        ApplyRequiredOther(kept, wellInfo, logInfo, RequiredFields, k);
      }
    }
    forall k | k in KeysOf(MandatoryFields) ensures k in r {
      var j :| 0 <= j < |MandatoryFields| && MandatoryFields[j].0 == k;
      SynthesizedMandatory(well, wellInfo, logInfo, j);
    }
  }

  /** STRT, STOP, STEP and NULL keep the file's value, or get their default, with no unit and no description. */
  lemma SynthesizedMandatory(well: map<string, HeaderItem>, wellInfo: Record, logInfo: Record, j: int)
    requires 0 <= j < |MandatoryFields|
    ensures var r := SynthesizedWell(well, wellInfo, logInfo);
      var k := MandatoryFields[j].0;
      k in r && r[k] == HeaderItem(k, "", MandatoryValue(well, MandatoryFields[j]), "")
  {
    FieldListsDisjoint();
    var k := MandatoryFields[j].0;
    var withMandatory := WithMandatory(well, MandatoryFields);
    WithMandatoryField(well, MandatoryFields, j);
    var kept := Restrict(withMandatory, AllowedKeys());
    assert k in KeysOf(MandatoryFields);
    assert k in kept;
    ApplyRequiredOther(kept, wellInfo, logInfo, RequiredFields, k);
  }

  /**
   * A table field is set to its table value, described by its column, unless that value is
   * None; then the file's own item, if any, survives untouched.
   */
  lemma SynthesizedRequired(well: map<string, HeaderItem>, wellInfo: Record, logInfo: Record, j: int)
    requires 0 <= j < |RequiredFields|
    ensures var r := SynthesizedWell(well, wellInfo, logInfo);
      var (k, column) := RequiredFields[j];
      var v := TableValue(wellInfo, logInfo, column);
      && (v != Null ==> k in r && r[k] == HeaderItem(k, "", v, column))
      && (v == Null ==> (k in r <==> k in well) && (k in well ==> r[k] == well[k]))
  {
    FieldListsDisjoint();
    var k := RequiredFields[j].0;
    assert k in KeysOf(RequiredFields);
    WithMandatoryOther(well, MandatoryFields, k);
    var kept := Restrict(WithMandatory(well, MandatoryFields), AllowedKeys());
    ApplyRequiredField(kept, wellInfo, logInfo, RequiredFields, j);
  }

  /** Rebuilding an already rebuilt ~Well section from the same rows changes nothing. */
  lemma SynthesizedWellIdempotent(well: map<string, HeaderItem>, wellInfo: Record, logInfo: Record)
    ensures var r := SynthesizedWell(well, wellInfo, logInfo);
      SynthesizedWell(r, wellInfo, logInfo) == r
  {
    FieldListsDisjoint();
    var r := SynthesizedWell(well, wellInfo, logInfo);
    var r2 := SynthesizedWell(r, wellInfo, logInfo);
    SynthesizedWellKeys(well, wellInfo, logInfo);
    SynthesizedWellKeys(r, wellInfo, logInfo);
    forall k | k in AllowedKeys()
      ensures (k in r2 <==> k in r) && (k in r ==> r2[k] == r[k])
    {
      if k in KeysOf(MandatoryFields) {
        var j :| 0 <= j < |MandatoryFields| && MandatoryFields[j].0 == k;
        SynthesizedMandatory(well, wellInfo, logInfo, j);
        SynthesizedMandatory(r, wellInfo, logInfo, j);
      } else {
        var j :| 0 <= j < |RequiredFields| && RequiredFields[j].0 == k;
        SynthesizedRequired(well, wellInfo, logInfo, j);
        SynthesizedRequired(r, wellInfo, logInfo, j);
      }
    }
    assert r2.Keys == r.Keys;
  }
}
