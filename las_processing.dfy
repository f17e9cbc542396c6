/**
 * The clean-up run over every field: each LAS file is tied to its KID, cleaned (curve
 * names, ~Well section, ~Other formation block, section set) and written as
 * `<well name>.las`, and every failure goes to the error report.
 */
module LasProcessing {
  import opened Wrappers
  import opened Text
  import opened LasTypes
  import opened ErrorLedger
  import opened LasHeader

  // ---------------------------------------------------------------------------
  // Well names

  /** A Wells_ row whose LEASE_NAME and WELL_NAME are text, as the string methods applied to them require. */
  predicate HasTextNames(r: Record) {
    && "LEASE_NAME" in r.cells && r.cells["LEASE_NAME"].Str?
    && "WELL_NAME" in r.cells && r.cells["WELL_NAME"].Str?
  }

  /** Every Wells_ row has text names. */
  predicate NamesReadable(wells: seq<Record>) {
    forall i :: 0 <= i < |wells| ==> HasTextNames(wells[i])
  }

  /** One half of an output name: spaces become '_', '/' becomes '-', then title case. */
  function NamePart(s: string): string {
    Title(ReplaceChar(ReplaceChar(s, ' ', '_'), '/', '-'))
  }

  /** get_well_name: the name of the first Wells_ row of the KID, None when it has no row. */
  function GetWellName(kid: Option<Kid>, wells: seq<Record>): (r: Option<string>)
    requires FirstRecord(wells, kid).Some? ==> HasTextNames(FirstRecord(wells, kid).value)
    ensures r.None? <==> RowsFor(wells, kid) == []
  {
    match FirstRecord(wells, kid)
    case None => None
    case Some(row) => Some(NamePart(row.cells["LEASE_NAME"].s) + "_" + NamePart(row.cells["WELL_NAME"].s))
  }

  /** A name part holds no space and no '/'. */
  lemma NamePartIsClean(s: string)
    ensures ' ' !in NamePart(s) && '/' !in NamePart(s)
  {
    var s1 := ReplaceChar(s, ' ', '_');
    var s2 := ReplaceChar(s1, '/', '-');
    ReplaceCharRemoves(s, ' ', '_');
    ReplaceCharRemoves(s1, '/', '-');
    TitleKeepsNonLetters(s2, ' ');
    TitleKeepsNonLetters(s2, '/');
  }

  /** An output well name, and so the output file name, holds no space and no '/'. */
  lemma WellNameIsClean(kid: Option<Kid>, wells: seq<Record>)
    requires FirstRecord(wells, kid).Some? ==> HasTextNames(FirstRecord(wells, kid).value)
    ensures var r := GetWellName(kid, wells);
      r.Some? ==> ' ' !in r.value && '/' !in r.value
  {
    if FirstRecord(wells, kid).Some? {
      var row := FirstRecord(wells, kid).value;
      NamePartIsClean(row.cells["LEASE_NAME"].s);
      NamePartIsClean(row.cells["WELL_NAME"].s);
    }
  }

  /** map_kids_to_well_names' name of a row: spaces become '_' (no title case, '/' kept). */
  function PlainWellName(r: Record): string
    requires HasTextNames(r)
  {
    ReplaceChar(r.cells["LEASE_NAME"].s, ' ', '_') + "_" + ReplaceChar(r.cells["WELL_NAME"].s, ' ', '_')
  }

  /** The KID → name map after the rows of `wells`, a later row of a KID replacing an earlier one. */
  function KidWellNames(wells: seq<Record>): map<Kid, string>
    requires NamesReadable(wells)
  {
    if wells == [] then map[]
    else
      var last := wells[|wells| - 1];
      KidWellNames(wells[..|wells| - 1])[last.kid := PlainWellName(last)]
  }

  /** map_kids_to_well_names. */
  method MapKidsToWellNames(wells: seq<Record>) returns (names: map<Kid, string>)
    requires NamesReadable(wells)
    ensures names == KidWellNames(wells)
  {
    names := map[];
    var i := 0;
    while i < |wells|
      invariant 0 <= i <= |wells|
      invariant names == KidWellNames(wells[..i])
    {
      assert wells[..i + 1][..i] == wells[..i];
      var row := wells[i];
      var leaseName := ReplaceChar(row.cells["LEASE_NAME"].s, ' ', '_');
      var wellName := ReplaceChar(row.cells["WELL_NAME"].s, ' ', '_');
      names := names[row.kid := leaseName + "_" + wellName];
      i := i + 1;
    }
    assert wells[..i] == wells;
  }

  /** Every KID of the table has a name, and it is the name of the KID's LAST row. */
  lemma {:induction false} KidWellNamesLastRowWins(wells: seq<Record>, i: int)
    requires NamesReadable(wells)
    requires 0 <= i < |wells|
    requires forall j :: i < j < |wells| ==> wells[j].kid != wells[i].kid
    ensures wells[i].kid in KidWellNames(wells)
    ensures KidWellNames(wells)[wells[i].kid] == PlainWellName(wells[i])
  {
    if i < |wells| - 1 {
      var init := wells[..|wells| - 1];
      assert init[i] == wells[i];
      KidWellNamesLastRowWins(init, i);
    }
  }

  /** The named KIDs are exactly the KIDs of the table. */
  lemma {:induction false} KidWellNamesKeys(wells: seq<Record>, k: Kid)
    requires NamesReadable(wells)
    ensures k in KidWellNames(wells) <==> exists i :: 0 <= i < |wells| && wells[i].kid == k
  {
    if wells != [] {
      var init := wells[..|wells| - 1];
      KidWellNamesKeys(init, k);
      if exists i :: 0 <= i < |init| && init[i].kid == k {
        var i :| 0 <= i < |init| && init[i].kid == k;
        assert wells[i].kid == k;
      }
      if k !in KidWellNames(wells) {
        forall i | 0 <= i < |wells| ensures wells[i].kid != k {
          if i < |init| {
            assert init[i] == wells[i];
          }
        }
      }
    }
  }

  // ---------------------------------------------------------------------------
  // Well and log rows

  /** get_well_information: the first Wells_ row and the first Logs_ row of the KID, when both exist. */
  function WellInformation(kid: Option<Kid>, wells: seq<Record>, logs: seq<Record>): (r: Option<(Record, Record)>)
    ensures r.Some? <==> RowsFor(wells, kid) != [] && RowsFor(logs, kid) != []
    ensures r.Some? ==> r.value == (RowsFor(wells, kid)[0], RowsFor(logs, kid)[0])
  {
    var w := FirstRecord(wells, kid);
    var l := FirstRecord(logs, kid);
    if w.Some? && l.Some? then Some((w.value, l.value)) else None
  }

  const NoInfoError := "No well or log information found for KID."
  const ProcessingError := "Error during the processing of the LAS file."

  // ---------------------------------------------------------------------------
  // The ~Other formation block

  /** The Tops_ rows of the KID, in table order. */
  function TopsFor(tops: seq<TopsRow>, kid: Option<Kid>): (r: seq<TopsRow>)
    ensures |r| <= |tops|
    ensures forall i :: 0 <= i < |r| ==> Some(r[i].kid) == kid && r[i] in tops
    ensures (r == []) <==> (forall i :: 0 <= i < |tops| ==> Some(tops[i].kid) != kid)
  {
    if tops == [] then []
    else (if Some(tops[0].kid) == kid then [tops[0]] else []) + TopsFor(tops[1..], kid)
  }

  const FormationHeader := "BASE,TOP,FORMATION"

  /** f"{BASE},{TOP},{FORMATION}" of one Tops_ row. */
  function FormationLine(r: TopsRow, nt: NumberText): string {
    Render(r.base, nt) + "," + Render(r.top, nt) + "," + Render(r.formation, nt)
  }

  function FormationLines(rows: seq<TopsRow>, nt: NumberText): (ls: seq<string>)
    ensures |ls| == |rows|
  {
    seq(|rows|, i requires 0 <= i < |rows| => FormationLine(rows[i], nt))
  }

  /** Each line followed by a newline. */
  function Lines(ls: seq<string>): string {
    if ls == [] then "" else ls[0] + "\n" + Lines(ls[1..])
  }

  /** The ~Other text of the rows: the header line, then one line per row. */
  function FormationBlock(rows: seq<TopsRow>, nt: NumberText): string {
    Lines([FormationHeader] + FormationLines(rows, nt))
  }

  /** get_formation_information: None when no Tops_ row has the KID. */
  function FormationInformation(kid: Option<Kid>, tops: seq<TopsRow>, nt: NumberText): Option<string> {
    var rows := TopsFor(tops, kid);
    if rows == [] then None else Some(FormationBlock(rows, nt))
  }

  lemma {:induction false} LinesAppend(ls: seq<string>, l: string)
    ensures Lines(ls + [l]) == Lines(ls) + l + "\n"
  {
    if ls == [] {
      assert [l][1..] == [];
    } else {
      assert (ls + [l])[1..] == ls[1..] + [l];
      LinesAppend(ls[1..], l);
    }
  }

  /** The text after one more row: the previous text and the row's line. */
  lemma FormationBlockStep(rows: seq<TopsRow>, i: nat, nt: NumberText)
    requires i < |rows|
    ensures Lines([FormationHeader] + FormationLines(rows[..i + 1], nt)) ==
            Lines([FormationHeader] + FormationLines(rows[..i], nt)) + FormationLine(rows[i], nt) + "\n"
  {
    var before := [FormationHeader] + FormationLines(rows[..i], nt);
    assert [FormationHeader] + FormationLines(rows[..i + 1], nt) == before + [FormationLine(rows[i], nt)];
    LinesAppend(before, FormationLine(rows[i], nt));
  }

  /** get_formation_information, accumulating the text line by line. */
  method GetFormationInformation(kid: Option<Kid>, tops: seq<TopsRow>, nt: NumberText) returns (info: Option<string>)
    ensures info == FormationInformation(kid, tops, nt)
  {
    var formations := TopsFor(tops, kid);
    if formations == [] {
      return None;
    }
    var text := FormationHeader + "\n";
    assert [FormationHeader] + FormationLines(formations[..0], nt) == [FormationHeader];
    assert Lines([FormationHeader]) == text;
    var i := 0;
    while i < |formations|
      invariant 0 <= i <= |formations|
      invariant text == Lines([FormationHeader] + FormationLines(formations[..i], nt))
    {
      FormationBlockStep(formations, i, nt);
      text := text + FormationLine(formations[i], nt) + "\n";
      i := i + 1;
    }
    assert formations[..i] == formations;
    return Some(text);
  }

  /** `Lines` is the newline join of the lines with an empty last part. */
  lemma {:induction false} LinesIsJoin(ls: seq<string>)
    ensures Lines(ls) == Join(ls + [""], '\n')
  {
    if ls != [] {
      assert (ls + [""])[1..] == ls[1..] + [""];
      LinesIsJoin(ls[1..]);
    }
  }

  /** Cutting newline-free lines, each ended by a newline, at the newlines gives them back and an empty tail. */
  lemma LinesSplit(ls: seq<string>)
    requires forall k :: 0 <= k < |ls| ==> '\n' !in ls[k]
    ensures Split(Lines(ls), '\n') == ls + [""]
  {
    LinesIsJoin(ls);
    SplitJoin(ls + [""], '\n');
  }

  /** No rendered cell of the row holds a newline. */
  predicate SingleLine(r: TopsRow, nt: NumberText) {
    '\n' !in Render(r.base, nt) && '\n' !in Render(r.top, nt) && '\n' !in Render(r.formation, nt)
  }

  /**
   * Cutting the formation block at its newlines gives back the header line, one line per
   * row in order, and the empty text after the final newline.
   */
  lemma FormationBlockLines(rows: seq<TopsRow>, nt: NumberText)
    requires forall i :: 0 <= i < |rows| ==> SingleLine(rows[i], nt)
    ensures Split(FormationBlock(rows, nt), '\n') == [FormationHeader] + FormationLines(rows, nt) + [""]
  {
    var ls := [FormationHeader] + FormationLines(rows, nt);
    forall k | 0 <= k < |ls| ensures '\n' !in ls[k] {
      if k > 0 {
        assert ls[k] == FormationLine(rows[k - 1], nt);
      }
    }
    LinesSplit(ls);
  }

  // ---------------------------------------------------------------------------
  // Sections

  /** The sections kept besides ~Well and ~Curves (which every document has as fields). */
  const NecessarySections: seq<string> := ["Version", "Ascii", "Other"]

  /** The section map after the clean-up: the necessary sections (empty when absent) and an empty ~Parameter. */
  function FinalSections(sections: map<string, Section>): map<string, Section> {
    map k | k in {"Version", "Ascii", "Other", "Parameter"} ::
      if k in sections && k != "Parameter" then sections[k] else Items([])
  }

  /** Drops the unneeded sections, adds the missing necessary ones empty, and adds an empty ~Parameter. */
  method KeepNecessarySections(las: LasFile)
    modifies las
    ensures las.sections == FinalSections(old(las.sections))
    ensures las.well == old(las.well) && las.curves == old(las.curves) && las.index == old(las.index)
  {
    var sections := map k | k in las.sections && k in NecessarySections :: las.sections[k];
    var i := 0;
    while i < |NecessarySections|
      invariant 0 <= i <= |NecessarySections|
      invariant forall k :: k in sections <==> (k in las.sections && k in NecessarySections) || k in NecessarySections[..i]
      invariant forall k :: k in sections ==> sections[k] == if k in las.sections then las.sections[k] else Items([])
    {
      var section := NecessarySections[i];
      if section !in sections {
        sections := sections[section := Items([])];
      }
      assert NecessarySections[..i + 1] == NecessarySections[..i] + [section];
      i := i + 1;
    }
    assert NecessarySections[..i] == NecessarySections;
    assert "Parameter" !in sections;
    sections := sections["Parameter" := Items([])];
    FinalSectionsFrom(las.sections, sections);
    las.sections := sections;
  }

  /** A section map with exactly the final keys, each holding the original section or an empty one, is the final map. */
  lemma FinalSectionsFrom(orig: map<string, Section>, sections: map<string, Section>)
    requires forall k :: k in sections <==> k in NecessarySections || k == "Parameter"
    requires forall k :: k in sections ==> sections[k] == if k in orig && k != "Parameter" then orig[k] else Items([])
    ensures sections == FinalSections(orig)
  {
    assert forall k :: k in NecessarySections || k == "Parameter" <==> k in {"Version", "Ascii", "Other", "Parameter"};
  }

  // ---------------------------------------------------------------------------
  // Reference tables of a field

  /** The reference table file of a field folder: the first listed name holding `marker` ('Wells_', 'Logs_', 'LAS_', 'Tops_'). */
  function TableFile(files: seq<string>, marker: string): (r: Option<string>)
    ensures r.None? <==> forall i :: 0 <= i < |files| ==> !Contains(files[i], marker)
    ensures r.Some? ==> exists i :: 0 <= i < |files| && files[i] == r.value && Contains(r.value, marker) &&
                          forall j :: 0 <= j < i ==> !Contains(files[j], marker)
  {
    var i := FirstWhere(files, f => Contains(f, marker));
    if i < |files| then Some(files[i]) else None
  }

  // ---------------------------------------------------------------------------
  // One file

  /** How the processing of one file ended. */
  datatype Outcome = ReadFailed | NoMetadata | NoWellName | EmptyData | Written(path: string)

  /** What the run has produced so far: the error report and the written files by path. */
  datatype RunState = RunState(ledger: Ledger, outputs: map<string, LasDoc>)

  /** The four reference tables of a field. */
  datatype Tables = Tables(wells: seq<Record>, logs: seq<Record>, index: seq<IndexRow>, tops: seq<TopsRow>)

  /** A file of the field's extraction folder, by full path, and what reading it gives. */
  datatype SourceFile = SourceFile(path: string, content: ReadResult)

  /** The cleaned document: curves standardised, ~Well rebuilt, ~Other set when there are tops, sections fixed. */
  function CleanedDoc(doc: LasDoc, wellInfo: Record, logInfo: Record, formation: Option<string>): LasDoc {
    var curves := seq(|doc.curves|, i requires 0 <= i < |doc.curves| => StandardizedCurve(doc.curves[i]));
    var sections := if formation.Some? then doc.sections["Other" := Block(formation.value)] else doc.sections;
    LasDoc(SynthesizedWell(doc.well, wellInfo, logInfo), curves, doc.index, FinalSections(sections))
  }

  /** clean_and_save_las_file as a step of the run: its ordered early exits, then the write. */
  function CleanStep(st: RunState, file: SourceFile, dest: string, t: Tables, kid: Option<Kid>,
                     field: string, nt: NumberText): (RunState, Outcome)
    requires NamesReadable(t.wells)
  {
    match file.content
    case ReadError(message) =>
      (st.(ledger := Logged(st.ledger, field, file.path, message, "Error reading LAS file.")), ReadFailed)
    case Parsed(doc) =>
      match WellInformation(kid, t.wells, t.logs)
      case None =>
        (st.(ledger := Logged(st.ledger, field, "KID_" + KidText(kid), NoInfoError, NoInfoError)), NoMetadata)
      case Some((wellInfo, logInfo)) =>
        match GetWellName(kid, t.wells)
        case None =>
          (st.(ledger := Logged(st.ledger, field, file.path, "No well name found for KID " + KidText(kid), ProcessingError)),
           NoWellName)
        case Some(name) =>
          var cleaned := CleanedDoc(doc, wellInfo, logInfo, FormationInformation(kid, t.tops, nt));
          if DataEmpty(cleaned) then
            (st.(ledger := Logged(st.ledger, field, file.path, "ASCII data section is empty", ProcessingError)), EmptyData)
          else
            var path := PathJoin(dest, name + ".las");
            (st.(outputs := st.outputs[path := cleaned]), Written(path))
  }

  /** A file whose metadata was found always has a well name: the NoWellName exit cannot be taken. */
  lemma NoWellNameIsUnreachable(st: RunState, file: SourceFile, dest: string, t: Tables, kid: Option<Kid>,
                                field: string, nt: NumberText)
    requires NamesReadable(t.wells)
    ensures CleanStep(st, file, dest, t, kid, field, nt).1 != NoWellName
  {
    if file.content.Parsed? && WellInformation(kid, t.wells, t.logs).Some? {
      assert GetWellName(kid, t.wells).Some?;
    }
  }

  /** A step that does not write leaves the written files alone; a write leaves the report alone. */
  lemma CleanStepEffects(st: RunState, file: SourceFile, dest: string, t: Tables, kid: Option<Kid>,
                         field: string, nt: NumberText)
    requires NamesReadable(t.wells)
    ensures var (st', outcome) := CleanStep(st, file, dest, t, kid, field, nt);
      && (!outcome.Written? ==> st'.outputs == st.outputs)
      && (outcome.Written? ==> st'.ledger == st.ledger && st'.outputs.Keys == st.outputs.Keys + {outcome.path})
  {
  }

  /**
   * A cleaned document is clean: ~Well keys within the allowed set with the four mandatory
   * items, exactly the sections Version, Ascii, Other and an empty Parameter, ~Other holding
   * the formation block when there is one, and the curves and depths of the original.
   */
  lemma CleanedDocIsClean(doc: LasDoc, wellInfo: Record, logInfo: Record, formation: Option<string>)
    ensures var d := CleanedDoc(doc, wellInfo, logInfo, formation);
      && (forall k :: k in d.well ==> k in AllowedKeys())
      && KeysOf(MandatoryFields) <= d.well.Keys
      && d.sections.Keys == {"Version", "Ascii", "Other", "Parameter"}
      && d.sections["Parameter"] == Items([])
      && (formation.Some? ==> d.sections["Other"] == Block(formation.value))
      && |d.curves| == |doc.curves| && d.index == doc.index
      && (DataEmpty(d) <==> DataEmpty(doc))
  {
    SynthesizedWellKeys(doc.well, wellInfo, logInfo);
  }

  /** A written file is `<dest>/<well name>.las` and holds the cleaned document of the file read. */
  lemma WrittenDocIsClean(st: RunState, file: SourceFile, dest: string, t: Tables, kid: Option<Kid>,
                          field: string, nt: NumberText)
    requires NamesReadable(t.wells)
    ensures var (st', outcome) := CleanStep(st, file, dest, t, kid, field, nt);
      outcome.Written? ==>
        && file.content.Parsed?
        && WellInformation(kid, t.wells, t.logs).Some?
        && GetWellName(kid, t.wells).Some?
        && outcome.path == PathJoin(dest, GetWellName(kid, t.wells).value + ".las")
        && st'.outputs[outcome.path] == CleanedDoc(file.content.doc, WellInformation(kid, t.wells, t.logs).value.0,
                                                   WellInformation(kid, t.wells, t.logs).value.1,
                                                   FormationInformation(kid, t.tops, nt))
        && !DataEmpty(file.content.doc)
  {
    var (st', outcome) := CleanStep(st, file, dest, t, kid, field, nt);
    if outcome.Written? {
      var info := WellInformation(kid, t.wells, t.logs).value;
      CleanedDocIsClean(file.content.doc, info.0, info.1, FormationInformation(kid, t.tops, nt));
    }
  }

  /** Two files of the same KID that are both written go to the same path, and the later one's document replaces the earlier. */
  lemma SameWellLaterFileWins(st: RunState, a: SourceFile, b: SourceFile, dest: string, t: Tables, kid: Option<Kid>,
                              field: string, nt: NumberText)
    requires NamesReadable(t.wells)
    ensures var (st1, first) := CleanStep(st, a, dest, t, kid, field, nt);
      var (st2, second) := CleanStep(st1, b, dest, t, kid, field, nt);
      first.Written? && second.Written? ==>
        first.path == second.path &&
        st2.outputs[second.path] == CleanedDoc(b.content.doc, WellInformation(kid, t.wells, t.logs).value.0,
                                               WellInformation(kid, t.wells, t.logs).value.1,
                                               FormationInformation(kid, t.tops, nt))
  {
  }

  // ---------------------------------------------------------------------------
  // Files of a field

  /** `name.lower().endswith('.las')`. */
  predicate IsLasName(name: string) {
    EndsWith(Lower(name), ".las")
  }

  /** The files of the extraction folder whose name ends in .las, in listing order. */
  function LasFilesOf(files: seq<SourceFile>): (r: seq<SourceFile>)
    ensures forall i :: 0 <= i < |r| ==> IsLasName(Basename(r[i].path)) && r[i] in files
  {
    if files == [] then []
    else
      var last := files[|files| - 1];
      LasFilesOf(files[..|files| - 1]) + (if IsLasName(Basename(last.path)) then [last] else [])
  }

  function Paths(files: seq<SourceFile>): (r: seq<string>)
    ensures |r| == |files| && forall i :: 0 <= i < |r| ==> r[i] == files[i].path
  {
    seq(|files|, i requires 0 <= i < |files| => files[i].path)
  }

  /** The KID of the first LAS_ row naming the file, None when none does. */
  function FirstKidFor(index: seq<IndexRow>, name: string): (r: Option<Kid>)
    ensures r.None? <==> forall i :: 0 <= i < |index| ==> index[i].lasFile != name
    ensures r.Some? ==> exists i :: 0 <= i < |index| && index[i].lasFile == name && index[i].kid == r.value &&
                          forall j :: 0 <= j < i ==> index[j].lasFile != name
  {
    if index == [] then None
    else if index[0].lasFile == name then Some(index[0].kid)
    else
      var r := FirstKidFor(index[1..], name);
      if r.Some? then
        var i :| 0 <= i < |index| - 1 && index[1..][i].lasFile == name && index[1..][i].kid == r.value &&
                 forall j :: 0 <= j < i ==> index[1..][j].lasFile != name;
        assert index[i + 1].lasFile == name && forall j :: 0 <= j < i + 1 ==> index[j].lasFile != name by {
          forall j | 0 <= j < i + 1 ensures index[j].lasFile != name {
            if j > 0 {
              assert index[j] == index[1..][j - 1];
            }
          }
        }
        r
      else r
  }

  /** The file → KID map of map_las_files_to_kids after the files of `paths`. */
  function KidsOf(paths: seq<string>, index: seq<IndexRow>): map<string, Kid> {
    if paths == [] then map[]
    else
      var kids := KidsOf(paths[..|paths| - 1], index);
      var path := paths[|paths| - 1];
      match FirstKidFor(index, Basename(path))
      case Some(kid) => kids[path := kid]
      case None => kids
  }

  /** The report after map_las_files_to_kids has reported each file of `paths` that no LAS_ row names. */
  function NoKidReports(ledger: Ledger, paths: seq<string>, index: seq<IndexRow>, field: string): Ledger
    decreases |paths|
  {
    if paths == [] then ledger
    else
      var l := NoKidReports(ledger, paths[..|paths| - 1], index, field);
      var name := Basename(paths[|paths| - 1]);
      if FirstKidFor(index, name).Some? then l
      else Logged(l, field, name, "No KID found for LAS file " + name, "No KID found.")
  }

  /** A file is mapped exactly when a LAS_ row names its base name, and it maps to the KID of the first such row. */
  lemma {:induction false} KidsOfResolves(paths: seq<string>, index: seq<IndexRow>, p: string)
    ensures p in KidsOf(paths, index) <==> p in paths && FirstKidFor(index, Basename(p)).Some?
    ensures p in KidsOf(paths, index) ==> Some(KidsOf(paths, index)[p]) == FirstKidFor(index, Basename(p))
  {
    if paths != [] {
      var init := paths[..|paths| - 1];
      var last := paths[|paths| - 1];
      KidsOfResolves(init, index, p);
      InInitOrLast(paths, p);
      KidsOfLast(paths, index);
      var kids := KidsOf(init, index);
      if p != last {
        assert p in KidsOf(paths, index) <==> p in kids;
        assert p in kids ==> KidsOf(paths, index)[p] == kids[p];
      }
    }
  }

  lemma InInitOrLast(paths: seq<string>, p: string)
    requires paths != []
    ensures p in paths <==> p in paths[..|paths| - 1] || p == paths[|paths| - 1]
  {
    assert paths == paths[..|paths| - 1] + [paths[|paths| - 1]];
  }

  /** The last file of `paths` is mapped by its own lookup; the others as before. */
  lemma KidsOfLast(paths: seq<string>, index: seq<IndexRow>)
    requires paths != []
    ensures var kids := KidsOf(paths[..|paths| - 1], index);
      var last := paths[|paths| - 1];
      var k := FirstKidFor(index, Basename(last));
      KidsOf(paths, index) == if k.Some? then kids[last := k.value] else kids
  {
  }

  /** `groups.setdefault(kid, []).append(path)`. */
  function AddToGroup(groups: map<Kid, seq<string>>, kid: Kid, path: string): (r: map<Kid, seq<string>>)
    ensures r.Keys == groups.Keys + {kid}
    ensures r[kid] == (if kid in groups then groups[kid] else []) + [path]
    ensures forall k :: k in groups && k != kid ==> r[k] == groups[k]
  {
    groups[kid := (if kid in groups then groups[kid] else []) + [path]]
  }

  /** The KID → files map of map_kids_to_las_files after the files of `paths`, each group in listing order. */
  function Groups(paths: seq<string>, index: seq<IndexRow>): map<Kid, seq<string>> {
    if paths == [] then map[]
    else
      var groups := Groups(paths[..|paths| - 1], index);
      var path := paths[|paths| - 1];
      match FirstKidFor(index, Basename(path))
      case Some(kid) => AddToGroup(groups, kid, path)
      case None => groups
  }

  /** The report after map_kids_to_las_files has reported, under "General", each file of `paths` no LAS_ row names. */
  function GeneralNoKidReports(ledger: Ledger, paths: seq<string>, index: seq<IndexRow>): Ledger
    decreases |paths|
  {
    if paths == [] then ledger
    else
      var l := GeneralNoKidReports(ledger, paths[..|paths| - 1], index);
      var name := Basename(paths[|paths| - 1]);
      if FirstKidFor(index, name).Some? then l
      else Logged(l, "General", name, "No KID found", "No KID found for LAS file.")
  }

  /** A file is in the group of `kid` exactly when it is one of the files and the first LAS_ row naming it has that KID. */
  lemma {:induction false} GroupsResolve(paths: seq<string>, index: seq<IndexRow>, kid: Kid, p: string)
    ensures (kid in Groups(paths, index) && p in Groups(paths, index)[kid]) <==>
            (p in paths && FirstKidFor(index, Basename(p)) == Some(kid))
  {
    if paths != [] {
      var init := paths[..|paths| - 1];
      GroupsResolve(init, index, kid, p);
      var last := paths[|paths| - 1];
      assert paths == init + [last];
      assert p in paths <==> p in init || p == last;
      var g := Groups(init, index);
      var f := FirstKidFor(index, Basename(last));
      if f.Some? {
        assert Groups(paths, index) == AddToGroup(g, f.value, last);
      } else {
        assert Groups(paths, index) == g;
      }
    }
  }

  /** Every group is non-empty. */
  lemma {:induction false} GroupsNonEmpty(paths: seq<string>, index: seq<IndexRow>, kid: Kid)
    ensures kid in Groups(paths, index) ==> Groups(paths, index)[kid] != []
  {
    if paths != [] {
      GroupsNonEmpty(paths[..|paths| - 1], index, kid);
    }
  }

  /** One more file for map_las_files_to_kids. */
  lemma KidsStep(ledger: Ledger, paths: seq<string>, index: seq<IndexRow>, field: string, i: nat)
    requires i < |paths|
    ensures var name := Basename(paths[i]);
      && KidsOf(paths[..i + 1], index) ==
           (if FirstKidFor(index, name).Some? then KidsOf(paths[..i], index)[paths[i] := FirstKidFor(index, name).value]
            else KidsOf(paths[..i], index))
      && NoKidReports(ledger, paths[..i + 1], index, field) ==
           (if FirstKidFor(index, name).Some? then NoKidReports(ledger, paths[..i], index, field)
            else Logged(NoKidReports(ledger, paths[..i], index, field), field, name, "No KID found for LAS file " + name, "No KID found."))
  {
    assert paths[..i + 1][..i] == paths[..i];
  }

  /** One more file for map_kids_to_las_files. */
  lemma GroupsStep(ledger: Ledger, paths: seq<string>, index: seq<IndexRow>, i: nat)
    requires i < |paths|
    ensures var name := Basename(paths[i]);
      var groups := Groups(paths[..i], index);
      && Groups(paths[..i + 1], index) ==
           (if FirstKidFor(index, name).Some? then
              AddToGroup(groups, FirstKidFor(index, name).value, paths[i])
            else groups)
      && GeneralNoKidReports(ledger, paths[..i + 1], index) ==
           (if FirstKidFor(index, name).Some? then GeneralNoKidReports(ledger, paths[..i], index)
            else Logged(GeneralNoKidReports(ledger, paths[..i], index), "General", name, "No KID found", "No KID found for LAS file."))
  {
    assert paths[..i + 1][..i] == paths[..i];
  }

  /** `las_to_kid_map.get(path)`. */
  function KidOf(kids: map<string, Kid>, path: string): Option<Kid> {
    if path in kids then Some(kids[path]) else None
  }

  /** The run state after cleaning the files of `files` one after another. */
  function CleanAll(st: RunState, files: seq<SourceFile>, dest: string, t: Tables, kids: map<string, Kid>,
                    field: string, nt: NumberText): RunState
    requires NamesReadable(t.wells)
    decreases |files|
  {
    if files == [] then st
    else
      var f := files[|files| - 1];
      CleanStep(CleanAll(st, files[..|files| - 1], dest, t, kids, field, nt), f, dest, t, KidOf(kids, f.path), field, nt).0
  }

  /** One field folder: its name, its reference tables and the files its archives hold. */
  datatype FieldInput = FieldInput(name: string, tables: Tables, files: seq<SourceFile>)

  predicate MissingTables(t: Tables) {
    |t.wells| == 0 || |t.logs| == 0 || |t.index| == 0 || |t.tops| == 0
  }

  /** One field of process_las_files: skipped (and reported) when a table is empty, else its LAS files are mapped and cleaned. */
  function FieldStep(st: RunState, fi: FieldInput, root: string, nt: NumberText): RunState
    requires NamesReadable(fi.tables.wells)
  {
    if MissingTables(fi.tables) then
      st.(ledger := Logged(st.ledger, fi.name, fi.name, "Missing CSV files for field " + fi.name, "Missing CSV files."))
    else
      var lasFiles := LasFilesOf(fi.files);
      var paths := Paths(lasFiles);
      var kids := KidsOf(paths, fi.tables.index);
      CleanAll(st.(ledger := NoKidReports(st.ledger, paths, fi.tables.index, fi.name)), lasFiles, PathJoin(root, fi.name), fi.tables, kids, fi.name, nt)
  }

  /** A field with an empty table writes nothing and leaves exactly one report (or its repeat). */
  lemma SkippedFieldWritesNothing(st: RunState, fi: FieldInput, root: string, nt: NumberText)
    requires NamesReadable(fi.tables.wells)
    requires MissingTables(fi.tables)
    ensures FieldStep(st, fi, root, nt).outputs == st.outputs
    ensures FieldStep(st, fi, root, nt).ledger ==
      Logged(st.ledger, fi.name, fi.name, "Missing CSV files for field " + fi.name, "Missing CSV files.")
  {
  }

  /** `p` is `<dest>/<name>.las` for the output name of some KID of the Wells_ table. */
  predicate IsWellFile(p: string, dest: string, wells: seq<Record>)
    requires NamesReadable(wells)
  {
    exists i :: 0 <= i < |wells| && GetWellName(Some(wells[i].kid), wells).Some? &&
      p == PathJoin(dest, GetWellName(Some(wells[i].kid), wells).value + ".las")
  }

  /** Cleaning the files of a field writes nothing but well files of its destination folder. */
  lemma {:induction false} CleanAllWritesWellFiles(st: RunState, files: seq<SourceFile>, dest: string, t: Tables,
                                                   kids: map<string, Kid>, field: string, nt: NumberText)
    requires NamesReadable(t.wells)
    ensures forall p :: p in CleanAll(st, files, dest, t, kids, field, nt).outputs ==>
      (p in st.outputs || IsWellFile(p, dest, t.wells))
    decreases |files|
  {
    if files != [] {
      var f := files[|files| - 1];
      var prev := CleanAll(st, files[..|files| - 1], dest, t, kids, field, nt);
      CleanAllWritesWellFiles(st, files[..|files| - 1], dest, t, kids, field, nt);
      var kid := KidOf(kids, f.path);
      var (st', outcome) := CleanStep(prev, f, dest, t, kid, field, nt);
      CleanStepEffects(prev, f, dest, t, kid, field, nt);
      if outcome.Written? {
        WrittenDocIsClean(prev, f, dest, t, kid, field, nt);
        assert kid.Some?;
        assert IsWellFile(outcome.path, dest, t.wells) by {
          var row := FirstRecord(t.wells, kid).value;
          var i :| 0 <= i < |t.wells| && t.wells[i] == row;
          assert GetWellName(Some(t.wells[i].kid), t.wells).Some?;
        }
      }
    }
  }

  /** One more file cleaned. */
  lemma CleanAllStep(st: RunState, files: seq<SourceFile>, dest: string, t: Tables, kids: map<string, Kid>,
                     field: string, nt: NumberText, i: nat)
    requires NamesReadable(t.wells)
    requires i < |files|
    ensures CleanAll(st, files[..i + 1], dest, t, kids, field, nt) ==
      CleanStep(CleanAll(st, files[..i], dest, t, kids, field, nt), files[i], dest, t, KidOf(kids, files[i].path), field, nt).0
  {
    assert files[..i + 1][..i] == files[..i];
  }

  /** Every field's Wells_ table has text names. */
  predicate AllNamesReadable(fields: seq<FieldInput>) {
    fields == [] || (NamesReadable(fields[0].tables.wells) && AllNamesReadable(fields[1..]))
  }

  /** process_las_files over the field folders, in the order given. */
  function RunFields(st: RunState, fields: seq<FieldInput>, root: string, nt: NumberText): RunState
    requires AllNamesReadable(fields)
    decreases |fields|
  {
    if fields == [] then st
    else RunFields(FieldStep(st, fields[0], root, nt), fields[1..], root, nt)
  }

  // ---------------------------------------------------------------------------
  // The processor

  /** LASFileProcessor: the error report and the destination folder it writes into. */
  class LasFileProcessor {
    const destination: string
    const numbers: NumberText
    var ledger: Ledger
    var outputs: map<string, LasDoc>

    /** A processor starting from the report already on disk and no files written. */
    constructor(destination: string, numbers: NumberText, report: Ledger)
      ensures this.destination == destination && this.numbers == numbers
      ensures ledger == report && outputs == map[]
    {
      this.destination := destination;
      this.numbers := numbers;
      ledger := report;
      outputs := map[];
    }

    function State(): RunState
      reads this
    {
      RunState(ledger, outputs)
    }

    /** log_error: a read-modify-write of the report. */
    method LogError(field: string, lasFile: string, error: string, message: string)
      modifies this
      ensures ledger == Logged(old(ledger), field, lasFile, error, message)
      ensures outputs == old(outputs)
    {
      if field in ledger {
        var repeat := FindRepeat(ledger[field], lasFile, error);
        if repeat {
          return;
        }
      }
      var entries := if field in ledger then ledger[field] else [];
      ledger := ledger[field := entries + [Entry(Basename(lasFile), error, message)]];
    }

    /** get_well_information, reporting a KID without both rows. */
    method GetWellInformation(field: string, kid: Option<Kid>, wells: seq<Record>, logs: seq<Record>)
      returns (info: Option<(Record, Record)>)
      modifies this
      ensures info == WellInformation(kid, wells, logs)
      ensures ledger == if info.None? then Logged(old(ledger), field, "KID_" + KidText(kid), NoInfoError, NoInfoError)
                        else old(ledger)
      ensures outputs == old(outputs)
    {
      var wellInfo := FirstRecord(wells, kid);
      var logInfo := FirstRecord(logs, kid);
      if wellInfo.None? || logInfo.None? {
        LogError(field, "KID_" + KidText(kid), NoInfoError, NoInfoError);
        return None;
      }
      return Some((wellInfo.value, logInfo.value));
    }

    /** map_las_files_to_kids. */
    method MapLasFilesToKids(lasFiles: seq<string>, index: seq<IndexRow>, field: string) returns (kids: map<string, Kid>)
      modifies this
      ensures kids == KidsOf(lasFiles, index)
      ensures ledger == NoKidReports(old(ledger), lasFiles, index, field)
      ensures outputs == old(outputs)
    {
      kids := map[];
      var i := 0;
      while i < |lasFiles|
        invariant 0 <= i <= |lasFiles|
        invariant kids == KidsOf(lasFiles[..i], index)
        invariant ledger == NoKidReports(old(ledger), lasFiles[..i], index, field)
        invariant outputs == old(outputs)
      {
        KidsStep(old(ledger), lasFiles, index, field, i);
        var name := Basename(lasFiles[i]);
        var kid := FirstKidFor(index, name);
        if kid.None? {
          LogError(field, name, "No KID found for LAS file " + name, "No KID found.");
        } else {
          kids := kids[lasFiles[i] := kid.value];
        }
        i := i + 1;
      }
      assert lasFiles[..i] == lasFiles;
    }

    /** map_kids_to_las_files. */
    method MapKidsToLasFiles(lasFiles: seq<string>, index: seq<IndexRow>) returns (groups: map<Kid, seq<string>>)
      modifies this
      ensures groups == Groups(lasFiles, index)
      ensures ledger == GeneralNoKidReports(old(ledger), lasFiles, index)
      ensures outputs == old(outputs)
    {
      groups := map[];
      var i := 0;
      while i < |lasFiles|
        invariant 0 <= i <= |lasFiles|
        invariant groups == Groups(lasFiles[..i], index)
        invariant ledger == GeneralNoKidReports(old(ledger), lasFiles[..i], index)
        invariant outputs == old(outputs)
      {
        groups := MapKidToLasFile(lasFiles, index, i, groups, old(ledger));
        i := i + 1;
      }
      assert lasFiles[..i] == lasFiles;
    }

    /** One pass of the loop of map_kids_to_las_files: the file is grouped under its KID, or reported. */
    method MapKidToLasFile(lasFiles: seq<string>, index: seq<IndexRow>, i: nat, groups: map<Kid, seq<string>>,
                           ghost ledger0: Ledger) returns (grouped: map<Kid, seq<string>>)
      requires i < |lasFiles|
      requires groups == Groups(lasFiles[..i], index)
      requires ledger == GeneralNoKidReports(ledger0, lasFiles[..i], index)
      modifies this
      ensures grouped == Groups(lasFiles[..i + 1], index)
      ensures ledger == GeneralNoKidReports(ledger0, lasFiles[..i + 1], index)
      ensures outputs == old(outputs)
    {
      GroupsStep(ledger0, lasFiles, index, i);
      var name := Basename(lasFiles[i]);
      var kid := FirstKidFor(index, name);
      grouped := groups;
      if kid.None? {
        LogError("General", name, "No KID found", "No KID found for LAS file.");
      } else {
        grouped := AddToGroup(groups, kid.value, lasFiles[i]);
      }
    }

    /** clean_and_save_las_file. */
    method CleanAndSaveLasFile(file: SourceFile, dest: string, t: Tables, kid: Option<Kid>, field: string)
      returns (outcome: Outcome)
      requires NamesReadable(t.wells)
      modifies this
      ensures (State(), outcome) == CleanStep(old(State()), file, dest, t, kid, field, numbers)
    {
      if file.content.ReadError? {
        LogError(field, file.path, file.content.message, "Error reading LAS file.");
        return ReadFailed;
      }
      var las := new LasFile.FromDoc(file.content.doc);
      var info := GetWellInformation(field, kid, t.wells, t.logs);
      if info.None? {
        return NoMetadata;
      }
      var (wellInfo, logInfo) := info.value;
      var wellName := GetWellName(kid, t.wells);
      if wellName.None? {
        // A Wells_ row of the KID was just found, so a name always exists.
        assert false;
      }
      var formationInfo := CleanDocument(las, wellInfo, logInfo, kid, t.tops, numbers);
      var cleaned := las.Snapshot();
      if DataEmpty(cleaned) {
        LogError(field, file.path, "ASCII data section is empty", ProcessingError);
        return EmptyData;
      }
      var outputPath := PathJoin(dest, wellName.value + ".las");
      outputs := outputs[outputPath := cleaned];
      return Written(outputPath);
    }

    /** The in-place clean-up of clean_and_save_las_file, between the checks and the write. */
    static method CleanDocument(las: LasFile, wellInfo: Record, logInfo: Record, kid: Option<Kid>, tops: seq<TopsRow>,
                                nt: NumberText) returns (formationInfo: Option<string>)
      modifies las
      ensures formationInfo == FormationInformation(kid, tops, nt)
      ensures las.Snapshot() == CleanedDoc(old(las.Snapshot()), wellInfo, logInfo, formationInfo)
    {
      StandardizeCurveInformation(las);
      UpdateWellInformation(las, wellInfo, logInfo);
      formationInfo := GetFormationInformation(kid, tops, nt);
      if formationInfo.Some? {
        las.sections := las.sections["Other" := Block(formationInfo.value)];
      }
      KeepNecessarySections(las);
    }

    /** One field folder of process_las_files (files cleaned one after another, in listing order). */
    method ProcessField(fi: FieldInput)
      requires NamesReadable(fi.tables.wells)
      modifies this
      ensures State() == FieldStep(old(State()), fi, destination, numbers)
    {
      var t := fi.tables;
      if |t.wells| == 0 || |t.logs| == 0 || |t.index| == 0 || |t.tops| == 0 {
        LogError(fi.name, fi.name, "Missing CSV files for field " + fi.name, "Missing CSV files.");
        return;
      }
      var dest := PathJoin(destination, fi.name);
      var lasFiles := LasFilesOf(fi.files);
      var kids := MapLasFilesToKids(Paths(lasFiles), t.index, fi.name);
      ghost var start := State();
      var i := 0;
      while i < |lasFiles|
        invariant 0 <= i <= |lasFiles|
        invariant State() == CleanAll(start, lasFiles[..i], dest, t, kids, fi.name, numbers)
      {
        CleanAllStep(start, lasFiles, dest, t, kids, fi.name, numbers, i);
        var _ := CleanAndSaveLasFile(lasFiles[i], dest, t, KidOf(kids, lasFiles[i].path), fi.name);
        i := i + 1;
      }
      assert lasFiles[..i] == lasFiles;
    }

    /** process_las_files over the field folders, in the order given. */
    method ProcessLasFiles(fields: seq<FieldInput>)
      requires AllNamesReadable(fields)
      modifies this
      ensures State() == RunFields(old(State()), fields, destination, numbers)
    {
      var i := 0;
      while i < |fields|
        invariant 0 <= i <= |fields|
        invariant AllNamesReadable(fields[i..])
        invariant RunFields(old(State()), fields, destination, numbers) ==
                  RunFields(State(), fields[i..], destination, numbers)
      {
        ProcessField(fields[i]);
        assert fields[i..][1..] == fields[i + 1..];
        i := i + 1;
      }
    }
  }
}
