/**
 * The driver loops of `ajust_las_files.py`: process_las_files walks the field folders, the zip
 * archives in each and the LAS files they extract to, and calls update_las for every file whose KID
 * has rows in all three tables.
 */
module AdjustRun {
  import opened Wrappers
  import opened Text
  import opened LasTypes
  import opened LasProcessing
  import opened AdjustLas

  /** A zip archive of a field folder and the files os.walk finds once it is extracted. */
  datatype Archive = Archive(name: string, files: seq<SourceFile>)

  /**
   * An entry of the source folder: whether it is a folder, its archives, and the listing of the
   * field's CSV folder, None when that folder does not exist.
   */
  datatype FieldFolder = FieldFolder(name: string, isDir: bool, archives: seq<Archive>, csvFiles: Option<seq<string>>)

  predicate IsZipName(name: string) {
    EndsWith(Lower(name), ".zip")
  }

  /** The extracted LAS files the loops visit, archive after archive, in listing order. */
  function Visited(archives: seq<Archive>): (r: seq<SourceFile>)
    ensures forall i :: 0 <= i < |r| ==> IsLasName(Basename(r[i].path))
  {
    if archives == [] then []
    else
      var last := archives[|archives| - 1];
      Visited(archives[..|archives| - 1]) + (if IsZipName(last.name) then LasFilesOf(last.files) else [])
  }

  /** The arguments process_las_files passes to update_las. */
  datatype Call = Call(file: SourceFile, wells: seq<Record>, logs: seq<Record>, tops: seq<TopsRow>,
                       index: seq<IndexRow>, dest: string)

  /** What the innermost loop does with one extracted LAS file. */
  datatype Visit =
    | Raise(failure: Failure)   // a KeyError outside update_las: it ends the whole run
    | Skip                      // no KID, or no rows for it in one of the tables
    | CallUpdate(call: Call)

  /**
   * The branches of the innermost loop: `find_kid_for_las` needs the LASFILE column, the KID
   * selections need a KID column in each table, and update_las is called only when all three
   * selections have rows.
   */
  function VisitOf(file: SourceFile, t: CsvTables, dest: string): (v: Visit)
    ensures v.Raise? <==> t.index.None? ||
                          (Truthy(FirstKidFor(t.index.value, Basename(file.path))) && (t.wells.None? || t.tops.None? || t.logs.None?))
    ensures v.CallUpdate? ==>
              var kid := FirstKidFor(t.index.value, Basename(file.path));
              && Truthy(kid) && v.call.file == file && v.call.dest == dest && v.call.index == t.index.value
              && v.call.wells != [] && v.call.tops != [] && v.call.logs != []
              && (forall i :: 0 <= i < |v.call.wells| ==> Some(v.call.wells[i].kid) == kid)
              && (forall i :: 0 <= i < |v.call.tops| ==> Some(v.call.tops[i].kid) == kid)
              && (forall i :: 0 <= i < |v.call.logs| ==> Some(v.call.logs[i].kid) == kid)
  {
    if t.index.None? then Raise(NoColumn("LASFILE"))
    else
      var kid := FirstKidFor(t.index.value, Basename(file.path));
      if !Truthy(kid) then Skip
      else if t.wells.None? || t.tops.None? || t.logs.None? then Raise(NoColumn("KID"))
      else
        var c := Call(file, RowsFor(t.wells.value, kid), RowsFor(t.logs.value, kid), TopsFor(t.tops.value, kid),
                      t.index.value, dest);
        if c.wells != [] && c.tops != [] && c.logs != [] then CallUpdate(c) else Skip
  }

  /** How a field's files are visited: with its tables and its output folder. */
  function FieldVisitor(t: CsvTables, dest: string): SourceFile -> Visit {
    file => VisitOf(file, t, dest)
  }

  /** A call of update_las, as the state it leaves behind. */
  type Update = (AdjustState, Call) -> AdjustState

  /** update_las as AdjustLas models it. */
  function UpdateLasCall(nt: NumberText): Update {
    (st: AdjustState, c: Call) => UpdateStep(st, c.file, c.wells, c.logs, c.tops, c.index, c.dest, nt)
  }

  /** What a call writes to error_log.json does not depend on what the file held before. */
  ghost predicate LogOnlyFromCall(update: Update) {
    forall st1, st2, c :: update(st1, c).errorLog == update(st2, c).errorLog
  }

  lemma UpdateLasCallLog(nt: NumberText)
    ensures LogOnlyFromCall(UpdateLasCall(nt))
  {
  }

  /** One visit; Failed is the exception that ends the run. */
  function FileStep(st: AdjustState, v: Visit, update: Update): (r: Updated<AdjustState>)
    ensures r.Failed? <==> v.Raise?
  {
    match v
    case Raise(f) => Failed(f)
    case Skip => Done(st)
    case CallUpdate(c) => Done(update(st, c))
  }

  /** The files one after another, stopping at the first exception. */
  function RunFiles(st: AdjustState, files: seq<SourceFile>, visit: SourceFile -> Visit, update: Update): Updated<AdjustState> {
    if files == [] then Done(st)
    else
      match RunFiles(st, files[..|files| - 1], visit, update)
      case Failed(f) => Failed(f)
      case Done(s) => FileStep(s, visit(files[|files| - 1]), update)
  }

  lemma {:induction false} RunFilesFailsAt(st: AdjustState, files: seq<SourceFile>, pre: seq<SourceFile>,
                                           visit: SourceFile -> Visit, update: Update)
    requires pre <= files && RunFiles(st, pre, visit, update).Failed?
    ensures RunFiles(st, files, visit, update) == RunFiles(st, pre, visit, update)
    decreases |files|
  {
    if |pre| < |files| {
      assert pre <= files[..|files| - 1];
      RunFilesFailsAt(st, files[..|files| - 1], pre, visit, update);
    } else {
      assert pre == files;
    }
  }

  /** Adding one file to the list runs one more step on the state before it. */
  lemma RunFilesSnoc(st: AdjustState, pre: seq<SourceFile>, file: SourceFile, visit: SourceFile -> Visit, update: Update)
    ensures RunFiles(st, pre + [file], visit, update) ==
      match RunFiles(st, pre, visit, update)
      case Failed(f) => Failed(f)
      case Done(s) => FileStep(s, visit(file), update)
  {
    assert (pre + [file])[..|pre|] == pre;
  }

  lemma RunFilesLast(st: AdjustState, files: seq<SourceFile>, visit: SourceFile -> Visit, update: Update)
    requires files != []
    ensures RunFiles(st, files, visit, update) ==
      match RunFiles(st, files[..|files| - 1], visit, update)
      case Failed(f) => Failed(f)
      case Done(s) => FileStep(s, visit(files[|files| - 1]), update)
  {
  }

  /** A run raises exactly when one of its files does, and then with the first such file's failure. */
  lemma {:induction false} RunFilesCrash(st: AdjustState, files: seq<SourceFile>, visit: SourceFile -> Visit, update: Update)
    ensures RunFiles(st, files, visit, update).Failed? <==> exists i :: 0 <= i < |files| && visit(files[i]).Raise?
    ensures RunFiles(st, files, visit, update).Failed? ==>
              exists i :: 0 <= i < |files| && visit(files[i]) == Raise(RunFiles(st, files, visit, update).failure) &&
                          forall k :: 0 <= k < i ==> !visit(files[k]).Raise?
  {
    if files != [] {
      var n := |files| - 1;
      var init := files[..n];
      assert forall k :: 0 <= k < n ==> init[k] == files[k];
      RunFilesCrash(st, init, visit, update);
      if RunFiles(st, init, visit, update).Done? && visit(files[n]).Raise? {
        assert forall k :: 0 <= k < n ==> !visit(init[k]).Raise?;
      }
    }
  }

  /** Position `i` holds the last file of the list that calls update_las. */
  predicate LastCallAt(files: seq<SourceFile>, visit: SourceFile -> Visit, i: int) {
    0 <= i < |files| && visit(files[i]).CallUpdate? && forall l :: i < l < |files| ==> !visit(files[l]).CallUpdate?
  }

  /**
   * When no file raises, error_log.json ends up holding what the last update_las call wrote: the
   * list of the last file that was updated, or what it held before when none was. Errors of
   * earlier files are lost.
   */
  lemma {:induction false} RunFilesLog(st: AdjustState, files: seq<SourceFile>, visit: SourceFile -> Visit, update: Update)
    requires LogOnlyFromCall(update)
    requires forall k :: 0 <= k < |files| ==> !visit(files[k]).Raise?
    ensures RunFiles(st, files, visit, update).Done?
    ensures var log := RunFiles(st, files, visit, update).value.errorLog;
      || (log == st.errorLog && forall k :: 0 <= k < |files| ==> !visit(files[k]).CallUpdate?)
      || exists i :: LastCallAt(files, visit, i) && log == update(st, visit(files[i]).call).errorLog
  {
    if files != [] {
      var n := |files| - 1;
      var init := files[..n];
      assert forall k :: 0 <= k < n ==> init[k] == files[k];
      RunFilesLog(st, init, visit, update);
      RunFilesLast(st, files, visit, update);
      var log := RunFiles(st, files, visit, update).value.errorLog;
      if visit(files[n]).CallUpdate? {
        assert LastCallAt(files, visit, n);
      } else if exists i :: LastCallAt(init, visit, i) && log == update(st, visit(init[i]).call).errorLog {
        var i :| LastCallAt(init, visit, i) && log == update(st, visit(init[i]).call).errorLog;
        assert LastCallAt(files, visit, i);
      }
    }
  }

  /** The state a run leaves has every file saved before it, and any new file was saved by one of its calls. */
  lemma {:induction false} RunFilesOutputs(st: AdjustState, files: seq<SourceFile>, visit: SourceFile -> Visit, update: Update)
    requires forall s, c :: update(s, c).outputs.Keys >= s.outputs.Keys
    ensures RunFiles(st, files, visit, update).Done? ==> RunFiles(st, files, visit, update).value.outputs.Keys >= st.outputs.Keys
  {
    if files != [] {
      RunFilesOutputs(st, files[..|files| - 1], visit, update);
    }
  }

  /** What process_las_files does for one entry of the source folder. */
  function FieldRun(st: AdjustState, field: FieldFolder, readers: Readers, csvRoot: string, destRoot: string,
                    update: Update): Updated<AdjustState> {
    if !field.isDir || field.csvFiles.None? then Done(st)
    else
      var t := ProcessCsvData(PathJoin(csvRoot, field.name), field.csvFiles.value, readers);
      RunFiles(st, Visited(field.archives), FieldVisitor(t, PathJoin(destRoot, field.name)), update)
  }

  /** process_las_files: the fields one after another, stopping at the first exception. */
  function AdjustFields(st: AdjustState, fields: seq<FieldFolder>, readers: Readers, csvRoot: string, destRoot: string,
                        update: Update): Updated<AdjustState> {
    if fields == [] then Done(st)
    else
      match AdjustFields(st, fields[..|fields| - 1], readers, csvRoot, destRoot, update)
      case Failed(f) => Failed(f)
      case Done(s) => FieldRun(s, fields[|fields| - 1], readers, csvRoot, destRoot, update)
  }

  lemma {:induction false} AdjustFieldsFailsAt(st: AdjustState, fields: seq<FieldFolder>, k: nat, readers: Readers,
                                               csvRoot: string, destRoot: string, update: Update)
    requires k <= |fields| && AdjustFields(st, fields[..k], readers, csvRoot, destRoot, update).Failed?
    ensures AdjustFields(st, fields, readers, csvRoot, destRoot, update) == AdjustFields(st, fields[..k], readers, csvRoot, destRoot, update)
    decreases |fields|
  {
    if k < |fields| {
      var init := fields[..|fields| - 1];
      assert init[..k] == fields[..k];
      AdjustFieldsFailsAt(st, init, k, readers, csvRoot, destRoot, update);
    } else {
      assert fields[..k] == fields;
    }
  }

  /** The driver: the files it has saved and the current content of error_log.json. */
  class Adjuster {
    const numbers: NumberText
    const readers: Readers
    var outputs: map<string, LasDoc>
    var errorLog: seq<ErrorInfo>

    constructor (numbers: NumberText, readers: Readers)
      ensures this.numbers == numbers && this.readers == readers
      ensures outputs == map[] && errorLog == []
    {
      this.numbers := numbers;
      this.readers := readers;
      outputs := map[];
      errorLog := [];
    }

    function State(): AdjustState
      reads this
    {
      AdjustState(outputs, errorLog)
    }

    /** update_las: adjust one file, save it when nothing raised, and rewrite the error log. */
    method UpdateLas(file: SourceFile, wells: seq<Record>, logs: seq<Record>, tops: seq<TopsRow>,
                     index: seq<IndexRow>, dest: string)
      modifies this
      ensures State() == UpdateStep(old(State()), file, wells, logs, tops, index, dest, numbers)
    {
      var log: seq<ErrorInfo> := [];
      var result := AdjustDocument(file, wells, logs, tops, index, dest, numbers);
      match result {
        case Failed(f) =>
          log := log + [ErrorInfo(file.path, f, UnknownErrorMessage)];
        case Done(saved) =>
          if saved.Some? {
            outputs := outputs[saved.value.0 := saved.value.1];
          }
      }
      errorLog := log;
    }

    /** The loops over one field's archives and their extracted files; Some is the exception that ends the run. */
    method ProcessField(field: FieldFolder, csvRoot: string, destRoot: string) returns (crash: Option<Failure>)
      modifies this
      ensures FieldRun(old(State()), field, readers, csvRoot, destRoot, UpdateLasCall(numbers)).Done? ==>
                crash == None && State() == FieldRun(old(State()), field, readers, csvRoot, destRoot, UpdateLasCall(numbers)).value
      ensures FieldRun(old(State()), field, readers, csvRoot, destRoot, UpdateLasCall(numbers)).Failed? ==>
                crash == Some(FieldRun(old(State()), field, readers, csvRoot, destRoot, UpdateLasCall(numbers)).failure)
    {
      if !field.isDir || field.csvFiles.None? {
        return None;
      }
      var t := ProcessCsvData(PathJoin(csvRoot, field.name), field.csvFiles.value, readers);
      var dest := PathJoin(destRoot, field.name);
      crash := ProcessFiles(Visited(field.archives), t, dest);
    }

    /**
     * The loops over the field's zip archives and the LAS files each extracts to, as one loop over
     * those files in the order the loops reach them; Some is the exception that ends the run.
     */
    method ProcessFiles(files: seq<SourceFile>, t: CsvTables, dest: string) returns (crash: Option<Failure>)
      modifies this
      ensures RunFiles(old(State()), files, FieldVisitor(t, dest), UpdateLasCall(numbers)).Done? ==>
                crash == None && State() == RunFiles(old(State()), files, FieldVisitor(t, dest), UpdateLasCall(numbers)).value
      ensures RunFiles(old(State()), files, FieldVisitor(t, dest), UpdateLasCall(numbers)).Failed? ==>
                crash == Some(RunFiles(old(State()), files, FieldVisitor(t, dest), UpdateLasCall(numbers)).failure)
    {
      ghost var start := State();
      assert files[..0] == [];
      for j := 0 to |files|
        invariant RunFiles(start, files[..j], FieldVisitor(t, dest), UpdateLasCall(numbers)) == Done(State())
      {
        assert files[..j + 1] == files[..j] + [files[j]];
        crash := VisitFile(files[j], t, dest, start, files[..j]);
        if crash.Some? {
          RunFilesFailsAt(start, files, files[..j + 1], FieldVisitor(t, dest), UpdateLasCall(numbers));
          return;
        }
      }
      assert files[..|files|] == files;
      return None;
    }

    /** The innermost loop's body for one extracted LAS file, after the files `prior` visited before it. */
    method VisitFile(file: SourceFile, t: CsvTables, dest: string, ghost start: AdjustState, ghost prior: seq<SourceFile>)
      returns (crash: Option<Failure>)
      requires RunFiles(start, prior, FieldVisitor(t, dest), UpdateLasCall(numbers)) == Done(State())
      modifies this
      ensures RunFiles(start, prior + [file], FieldVisitor(t, dest), UpdateLasCall(numbers)) ==
                if crash.None? then Done(State()) else Failed(crash.value)
    {
      RunFilesSnoc(start, prior, file, FieldVisitor(t, dest), UpdateLasCall(numbers));
      assert FieldVisitor(t, dest)(file) == VisitOf(file, t, dest);
      if t.index.None? {
        return Some(NoColumn("LASFILE"));
      }
      var kid := FirstKidFor(t.index.value, Basename(file.path));
      if !Truthy(kid) {
        return None;
      }
      if t.wells.None? || t.tops.None? || t.logs.None? {
        return Some(NoColumn("KID"));
      }
      var wellRows := RowsFor(t.wells.value, kid);
      var topRows := TopsFor(t.tops.value, kid);
      var logRows := RowsFor(t.logs.value, kid);
      if wellRows != [] && topRows != [] && logRows != [] {
        UpdateLas(file, wellRows, logRows, topRows, t.index.value, dest);
      }
      return None;
    }

    /** process_las_files over the entries of the source folder, in listing order. */
    method ProcessLasFiles(fields: seq<FieldFolder>, csvRoot: string, destRoot: string) returns (crash: Option<Failure>)
      modifies this
      ensures AdjustFields(old(State()), fields, readers, csvRoot, destRoot, UpdateLasCall(numbers)).Done? ==>
                crash == None && State() == AdjustFields(old(State()), fields, readers, csvRoot, destRoot, UpdateLasCall(numbers)).value
      ensures AdjustFields(old(State()), fields, readers, csvRoot, destRoot, UpdateLasCall(numbers)).Failed? ==>
                crash == Some(AdjustFields(old(State()), fields, readers, csvRoot, destRoot, UpdateLasCall(numbers)).failure)
    {
      ghost var start := State();
      assert fields[..0] == [];
      for k := 0 to |fields|
        invariant AdjustFields(start, fields[..k], readers, csvRoot, destRoot, UpdateLasCall(numbers)) == Done(State())
      {
        assert fields[..k + 1][..k] == fields[..k];
        crash := ProcessField(fields[k], csvRoot, destRoot);
        if crash.Some? {
          AdjustFieldsFailsAt(start, fields, k + 1, readers, csvRoot, destRoot, UpdateLasCall(numbers));
          return;
        }
      }
      assert fields[..|fields|] == fields;
      return None;
    }
  }
}
