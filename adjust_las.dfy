/**
 * The older clean-up script `ajust_las_files.py`: every LAS file of a field that has a KID and
 * rows in the Wells_, Tops_ and Logs_ tables gets its ~Well items assigned one after another from
 * those rows, the tops appended to ~Other, and is saved under its lease and well name; each call
 * rewrites `error_log.json` with its own errors only.
 */
module AdjustLas {
  import opened Wrappers
  import opened Text
  import opened LasTypes
  import opened LasMerge
  import opened LasProcessing

  // ---------------------------------------------------------------------------
  // The reference tables of a field

  /** `next((f for f in files if f.startswith(prefix)), None)`. */
  function FirstWithPrefix(files: seq<string>, prefix: string): (r: Option<string>)
    ensures r.None? <==> forall i :: 0 <= i < |files| ==> !StartsWith(files[i], prefix)
    ensures r.Some? ==> exists i :: 0 <= i < |files| && files[i] == r.value && StartsWith(r.value, prefix) &&
                          forall j :: 0 <= j < i ==> !StartsWith(files[j], prefix)
  {
    var i := FirstWhere(files, f => StartsWith(f, prefix));
    if i < |files| then Some(files[i]) else None
  }

  /**
   * The four tables; None stands for the column-less `pd.DataFrame()` put in place of a table
   * whose file is missing, on which any column lookup raises KeyError.
   */
  datatype CsvTables = CsvTables(wells: Option<seq<Record>>, tops: Option<seq<TopsRow>>,
                                 logs: Option<seq<Record>>, index: Option<seq<IndexRow>>)

  /** `pd.read_csv` for each kind of table, a parameter of the model. */
  datatype Readers = Readers(wells: string -> seq<Record>, tops: string -> seq<TopsRow>,
                             logs: string -> seq<Record>, index: string -> seq<IndexRow>)

  function ReadFirst<T>(folder: string, files: seq<string>, prefix: string, read: string -> seq<T>): (r: Option<seq<T>>)
    ensures r.None? <==> FirstWithPrefix(files, prefix).None?
    ensures r.Some? ==> r.value == read(PathJoin(folder, FirstWithPrefix(files, prefix).value))
  {
    match FirstWithPrefix(files, prefix)
    case Some(f) => Some(read(PathJoin(folder, f)))
    case None => None
  }

  /** process_csv_data: for each prefix, the first listed file that starts with it, read. */
  function ProcessCsvData(folder: string, files: seq<string>, readers: Readers): CsvTables {
    CsvTables(ReadFirst(folder, files, "Wells_", readers.wells), ReadFirst(folder, files, "Tops_", readers.tops),
              ReadFirst(folder, files, "Logs_", readers.logs), ReadFirst(folder, files, "LAS_", readers.index))
  }

  // ---------------------------------------------------------------------------
  // What can go wrong inside update_las

  /** The exceptions update_las catches, by cause. */
  datatype Failure =
    | ReadFailure(message: string)   // lasio.read raised
    | NoRow(table: string)           // `.iloc[0]` of an empty selection: IndexError
    | NoColumn(column: string)       // a column the table does not have: KeyError
    | NoItem(mnemonic: string)       // `las.well[m].value = ...` for a missing item: KeyError
    | OtherNotText                   // `+=` on an ~Other section that is not text

  datatype Updated<T> = Done(value: T) | Failed(failure: Failure)

  /** `if kid:` on the KID found for a file: missing and 0 are false. */
  predicate Truthy(kid: Option<Kid>) {
    kid.Some? && kid.value != 0
  }

  /** `df[column].iloc[0]`. */
  function FirstCell(rows: seq<Record>, table: string, column: string): (r: Updated<Value>)
    ensures r.Done? <==> rows != [] && column in rows[0].cells
  {
    if rows == [] then Failed(NoRow(table))
    else if column !in rows[0].cells then Failed(NoColumn(column))
    else Done(rows[0].cells[column])
  }

  /** A depth cell as a number; pandas' `min`/`max` skip the NaN ones. */
  function DepthOf(v: Value): Option<real> {
    match v
    case Number(x) => Some(x)
    case Int(i) => Some(i as real)
    case _ => None
  }

  /** The numeric cells of `column`, in row order. */
  function Depths(rows: seq<Record>, column: string): (xs: seq<real>)
    ensures forall x <- xs :: exists i :: 0 <= i < |rows| && column in rows[i].cells && DepthOf(rows[i].cells[column]) == Some(x)
    ensures forall i :: 0 <= i < |rows| && column in rows[i].cells && DepthOf(rows[i].cells[column]).Some? ==>
              DepthOf(rows[i].cells[column]).value in xs
  {
    if rows == [] then []
    else
      var here := if column in rows[0].cells && DepthOf(rows[0].cells[column]).Some?
                  then [DepthOf(rows[0].cells[column]).value] else [];
      var rest := Depths(rows[1..], column);
      assert forall i :: 1 <= i < |rows| ==> rows[i] == rows[1..][i - 1];
      here + rest
  }

  /** A column pandas reads as int64: every row holds an int in it, and no NaN. */
  predicate IntColumn(rows: seq<Record>, column: string) {
    forall i :: 0 <= i < |rows| ==> column in rows[i].cells && rows[i].cells[column].Int?
  }

  /**
   * `df[column].min()` (or `max()`): NaN when no cell is a number, an int for an int64 column,
   * and a float otherwise.
   */
  function Extreme(rows: seq<Record>, column: string, least: bool): Value {
    var xs := Depths(rows, column);
    if xs == [] then NaN
    else
      var x := if least then MinOf(xs) else MaxOf(xs);
      if IntColumn(rows, column) then Int(x.Floor) else Number(x)
  }

  // ---------------------------------------------------------------------------
  // The ~Well assignments of update_las

  /** Where an assigned value comes from. */
  datatype Source =
    | WellCell(column: string)                // filtered_well_data[column].iloc[0]
    | LogCell(column: string)                 // filtered_log_data[column].iloc[0]
    | LogExtreme(column: string, least: bool) // filtered_log_data[column].min() / .max(), None when empty
    | Fixed(v: Value)
    | KidValue
    | NameValue                               // the "LEASE_NAME WELL_NAME" text

  /**
   * One assignment: `las.well[m].value = v` (Assign), the same or a new item when `m` is missing
   * (Upsert), or, for UWI, the value when present and a new item without one otherwise (UpsertBlank).
   */
  datatype Step =
    | Assign(mnemonic: string, source: Source)
    | Upsert(mnemonic: string, unit: string, source: Source, descr: string)
    | UpsertBlank(mnemonic: string, source: Source, descr: string)

  /** What the assignments read: the KID, the well name and the KID's Wells_ and Logs_ rows. */
  datatype Context = Context(kid: Kid, wellName: string, wells: seq<Record>, logs: seq<Record>)

  function Eval(src: Source, ctx: Context): Updated<Value> {
    match src
    case WellCell(c) => FirstCell(ctx.wells, "Wells", c)
    case LogCell(c) => FirstCell(ctx.logs, "Logs", c)
    case LogExtreme(c, least) =>
      if ctx.logs == [] then Done(Null)
      else if c !in ctx.logs[0].cells then Failed(NoColumn(c))
      else Done(Extreme(ctx.logs, c, least))
    case Fixed(v) => Done(v)
    case KidValue => Done(Int(ctx.kid))
    case NameValue => Done(Str(ctx.wellName))
  }

  /**
   * The assignments in the order update_las makes them. The script spells each one out; the
   * model lists them here and applies them in turn.
   */
  const UpdateSteps: seq<Step> := [
    Assign("WELL", NameValue),
    Assign("FLD", WellCell("FIELD_NAME")),
    Assign("COMP", WellCell("ORIG_OPERATOR")),
    Upsert("LOC", "", LogCell("LOCATION"), "Location"),
    Assign("STRT", LogExtreme("TOP", true)),
    Assign("STOP", LogExtreme("BOTTOM", false)),
    Upsert("CTRY", "", Fixed(Str("USA")), "Country"),
    Upsert("STAT", "", Fixed(Str("Kansas")), "State"),
    Upsert("PROV", "", WellCell("TOWNSHIP"), "Province"),
    Upsert("CNTY", "", WellCell("COUNTY"), "County"),
    UpsertBlank("UWI", KidValue, "Unique Well Identifier"),
    Upsert("API", "", WellCell("API"), "API Number"),
    Upsert("SRVC", "", LogCell("LOGGER"), "Logger Service Company"),
    Upsert("DATE", "", LogCell("LOG_DATE"), "Date logged"),
    Upsert("XCOORD", "X", WellCell("NAD27_LONGITUDE"), "X Coordinate"),
    Upsert("YCOORD", "Y", WellCell("NAD27_LATITUDE"), "Y Coordinate")
  ]

  /** The value computed for a source, Null where computing it raises. */
  function ValueOf(src: Source, ctx: Context): Value {
    match Eval(src, ctx)
    case Done(v) => v
    case Failed(_) => Null
  }

  /**
   * The item a step leaves under its mnemonic when it raises nothing: the existing item with the
   * new value, or the new item (an Assign never reaches the last case).
   */
  function ItemAfter(well: map<string, HeaderItem>, s: Step, ctx: Context): HeaderItem {
    var v := ValueOf(s.source, ctx);
    if s.mnemonic in well then well[s.mnemonic].(value := v)
    else
      match s
      case Upsert(m, unit, _, descr) => HeaderItem(m, unit, v, descr)
      case UpsertBlank(m, _, descr) => HeaderItem(m, "", Str(""), descr)
      case Assign(m, _) => HeaderItem(m, "", v, "")
  }

  /** The step raises nothing: its value can be computed when it is needed, and an Assign finds its item. */
  predicate CanApply(well: map<string, HeaderItem>, s: Step, ctx: Context) {
    match s
    case Assign(m, src) => Eval(src, ctx).Done? && m in well
    case Upsert(_, _, src, _) => Eval(src, ctx).Done?
    case UpsertBlank(m, src, _) => m in well ==> Eval(src, ctx).Done?
  }

  /** One assignment on the item map; the right-hand side is computed before the item is looked up. */
  function ApplyStep(well: map<string, HeaderItem>, s: Step, ctx: Context): (r: Updated<map<string, HeaderItem>>)
    ensures r.Done? <==> CanApply(well, s, ctx)
    ensures r.Done? ==> r.value == well[s.mnemonic := ItemAfter(well, s, ctx)]
  {
    match s
    case Assign(m, src) =>
      (match Eval(src, ctx)
       case Failed(f) => Failed(f)
       case Done(v) => if m in well then Done(well[m := well[m].(value := v)]) else Failed(NoItem(m)))
    case Upsert(m, unit, src, descr) =>
      (match Eval(src, ctx)
       case Failed(f) => Failed(f)
       case Done(v) => Done(well[m := if m in well then well[m].(value := v) else HeaderItem(m, unit, v, descr)]))
    case UpsertBlank(m, src, descr) =>
      if m in well then
        (match Eval(src, ctx)
         case Failed(f) => Failed(f)
         case Done(v) => Done(well[m := well[m].(value := v)]))
      else Done(well[m := HeaderItem(m, "", Str(""), descr)])
  }

  /** The item map after `steps`, or the failure of the first step that raises. */
  function Applied(well: map<string, HeaderItem>, steps: seq<Step>, ctx: Context): Updated<map<string, HeaderItem>>
    decreases |steps|
  {
    if steps == [] then Done(well)
    else
      match Applied(well, steps[..|steps| - 1], ctx)
      case Failed(f) => Failed(f)
      case Done(w) => ApplyStep(w, steps[|steps| - 1], ctx)
  }

  function Mnemonics(steps: seq<Step>): (ms: set<string>)
    ensures forall k :: 0 <= k < |steps| ==> steps[k].mnemonic in ms
    decreases |steps|
  {
    if steps == [] then {}
    else
      var init := steps[..|steps| - 1];
      assert forall k :: 0 <= k < |init| ==> init[k] == steps[k];
      Mnemonics(init) + {steps[|steps| - 1].mnemonic}
  }

  /** A mnemonic no step assigns is not among the mnemonics. */
  lemma {:induction false} NotAssigned(steps: seq<Step>, m: string)
    requires forall k :: 0 <= k < |steps| ==> steps[k].mnemonic != m
    ensures m !in Mnemonics(steps)
    decreases |steps|
  {
    if steps != [] {
      NotAssigned(steps[..|steps| - 1], m);
    }
  }

  predicate DistinctMnemonics(steps: seq<Step>) {
    forall k, l :: 0 <= k < l < |steps| ==> steps[k].mnemonic != steps[l].mnemonic
  }

  /** Every step would succeed on the original items. */
  predicate AllApply(well: map<string, HeaderItem>, steps: seq<Step>, ctx: Context) {
    forall k :: 0 <= k < |steps| ==> CanApply(well, steps[k], ctx)
  }

  /** `w` holds what each step alone leaves under its mnemonic, and every other item of `well`. */
  predicate Effect(well: map<string, HeaderItem>, steps: seq<Step>, ctx: Context, w: map<string, HeaderItem>) {
    && w.Keys == well.Keys + Mnemonics(steps)
    && (forall k :: 0 <= k < |steps| ==> w[steps[k].mnemonic] == ItemAfter(well, steps[k], ctx))
    && (forall m :: m in well && m !in Mnemonics(steps) ==> w[m] == well[m])
  }

  /** One more step on a mnemonic not yet assigned extends the effect. */
  lemma EffectStep(well: map<string, HeaderItem>, steps: seq<Step>, ctx: Context, w: map<string, HeaderItem>)
    requires steps != [] && DistinctMnemonics(steps)
    requires AllApply(well, steps, ctx)
    requires Effect(well, steps[..|steps| - 1], ctx, w)
    ensures CanApply(w, steps[|steps| - 1], ctx)
    ensures Effect(well, steps, ctx, w[steps[|steps| - 1].mnemonic := ItemAfter(w, steps[|steps| - 1], ctx)])
  {
    var init := steps[..|steps| - 1];
    var last := steps[|steps| - 1];
    assert forall k :: 0 <= k < |init| ==> init[k] == steps[k];
    NotAssigned(init, last.mnemonic);
    assert (last.mnemonic in w) == (last.mnemonic in well);
    assert last.mnemonic in well ==> w[last.mnemonic] == well[last.mnemonic];
    assert CanApply(well, last, ctx);
    var w' := w[last.mnemonic := ItemAfter(w, last, ctx)];
    assert ItemAfter(w, last, ctx) == ItemAfter(well, last, ctx);
    forall k | 0 <= k < |steps| ensures w'[steps[k].mnemonic] == ItemAfter(well, steps[k], ctx) {
      if k < |init| {
        var m := steps[k].mnemonic;
        assert init[k] == steps[k];
        assert m != last.mnemonic;
        assert w'[m] == w[m];
        assert w[init[k].mnemonic] == ItemAfter(well, init[k], ctx);
      }
    }
  }

  /**
   * Steps on distinct mnemonics do not see each other: they all succeed exactly when each one
   * would succeed on the original items, and then every step's item is what that step alone
   * leaves, the keys grow by the mnemonics, and every other item is untouched.
   */
  lemma {:induction false} AppliedEffect(well: map<string, HeaderItem>, steps: seq<Step>, ctx: Context)
    requires DistinctMnemonics(steps)
    ensures Applied(well, steps, ctx).Done? <==> AllApply(well, steps, ctx)
    ensures Applied(well, steps, ctx).Done? ==> Effect(well, steps, ctx, Applied(well, steps, ctx).value)
    decreases |steps|
  {
    if steps != [] {
      var init := steps[..|steps| - 1];
      var last := steps[|steps| - 1];
      assert forall k :: 0 <= k < |init| ==> init[k] == steps[k];
      AppliedEffect(well, init, ctx);
      var r := Applied(well, init, ctx);
      if AllApply(well, steps, ctx) {
        EffectStep(well, steps, ctx, r.value);
      } else if r.Done? {
        var w := r.value;
        NotAssigned(init, last.mnemonic);
        assert (last.mnemonic in w) == (last.mnemonic in well);
      }
    }
  }

  /** Tells the assigned mnemonics apart: their first and third letters differ. */
  function Key(s: string): int {
    if |s| >= 3 then s[0] as int * 256 + s[2] as int else 0
  }

  const StepKeys: seq<int> := [22348, 17988, 17229, 19523, 21330, 21327, 17234, 21313,
                               20559, 17236, 21833, 16713, 21334, 17492, 22607, 22863]

  lemma StepKeysDistinct()
    ensures forall k, l :: 0 <= k < l < |StepKeys| ==> StepKeys[k] != StepKeys[l]
  {
  }

  lemma StepKeysMatch()
    ensures |StepKeys| == |UpdateSteps|
    ensures forall k :: 0 <= k < |UpdateSteps| ==> Key(UpdateSteps[k].mnemonic) == StepKeys[k]
  {
  }

  /** The assignments of update_las name sixteen different items. */
  lemma UpdateStepsDistinct()
    ensures DistinctMnemonics(UpdateSteps)
  {
    StepKeysDistinct();
    StepKeysMatch();
    forall k, l | 0 <= k < l < |UpdateSteps| ensures UpdateSteps[k].mnemonic != UpdateSteps[l].mnemonic {
      assert Key(UpdateSteps[k].mnemonic) != Key(UpdateSteps[l].mnemonic);
    }
  }


  /** The items update_las must find, and the columns it reads from the first Wells_ and Logs_ rows. */
  const AssignedItems: set<string> := {"WELL", "FLD", "COMP", "STRT", "STOP"}
  const WellColumns: set<string> := {"FIELD_NAME", "ORIG_OPERATOR", "TOWNSHIP", "COUNTY", "API", "NAD27_LONGITUDE", "NAD27_LATITUDE"}
  const LogColumns: set<string> := {"LOCATION", "TOP", "BOTTOM", "LOGGER", "LOG_DATE"}

  /** The items the assignments write, in order. */
  const StepNames: seq<string> := ["WELL", "FLD", "COMP", "LOC", "STRT", "STOP", "CTRY", "STAT",
                                   "PROV", "CNTY", "UWI", "API", "SRVC", "DATE", "XCOORD", "YCOORD"]

  lemma StepNamesMatch()
    ensures |StepNames| == |UpdateSteps|
    ensures forall k :: 0 <= k < |UpdateSteps| ==> UpdateSteps[k].mnemonic == StepNames[k]
  {
  }

  /** A mnemonic is assigned exactly when some step names it. */
  lemma MnemonicsIff(steps: seq<Step>, m: string)
    ensures m in Mnemonics(steps) <==> exists k :: 0 <= k < |steps| && steps[k].mnemonic == m
  {
    if forall k :: 0 <= k < |steps| ==> steps[k].mnemonic != m {
      NotAssigned(steps, m);
    }
  }

  /** What the assignments need to raise nothing. */
  predicate Assignable(well: map<string, HeaderItem>, ctx: Context) {
    && AssignedItems <= well.Keys
    && ctx.wells != [] && WellColumns <= ctx.wells[0].cells.Keys
    && ctx.logs != [] && LogColumns <= ctx.logs[0].cells.Keys
  }

  lemma AssignableApplies(well: map<string, HeaderItem>, ctx: Context)
    requires Assignable(well, ctx)
    ensures AllApply(well, UpdateSteps, ctx)
  {
  }

  lemma AppliesItems(well: map<string, HeaderItem>, ctx: Context)
    requires AllApply(well, UpdateSteps, ctx)
    ensures AssignedItems <= well.Keys
  {
    var s := UpdateSteps;
    assert CanApply(well, s[0], ctx) && CanApply(well, s[1], ctx) && CanApply(well, s[2], ctx);
    assert CanApply(well, s[4], ctx) && CanApply(well, s[5], ctx);
  }

  lemma AppliesWells(well: map<string, HeaderItem>, ctx: Context)
    requires AllApply(well, UpdateSteps, ctx)
    ensures ctx.wells != [] && WellColumns <= ctx.wells[0].cells.Keys
  {
    var s := UpdateSteps;
    assert CanApply(well, s[1], ctx) && CanApply(well, s[2], ctx) && CanApply(well, s[8], ctx);
    assert CanApply(well, s[9], ctx) && CanApply(well, s[11], ctx);
    assert CanApply(well, s[14], ctx) && CanApply(well, s[15], ctx);
  }

  lemma AppliesLogs(well: map<string, HeaderItem>, ctx: Context)
    requires AllApply(well, UpdateSteps, ctx)
    ensures ctx.logs != [] && LogColumns <= ctx.logs[0].cells.Keys
  {
    AppliesLogCells(well, ctx);
    AppliesLogDepths(well, ctx);
  }

  lemma AppliesLogCells(well: map<string, HeaderItem>, ctx: Context)
    requires AllApply(well, UpdateSteps, ctx)
    ensures ctx.logs != [] && {"LOCATION", "LOGGER", "LOG_DATE"} <= ctx.logs[0].cells.Keys
  {
    var s := UpdateSteps;
    assert CanApply(well, s[3], ctx) && CanApply(well, s[12], ctx) && CanApply(well, s[13], ctx);
  }

  lemma AppliesLogDepths(well: map<string, HeaderItem>, ctx: Context)
    requires AllApply(well, UpdateSteps, ctx) && ctx.logs != []
    ensures {"TOP", "BOTTOM"} <= ctx.logs[0].cells.Keys
  {
    var s := UpdateSteps;
    assert CanApply(well, s[4], ctx) && CanApply(well, s[5], ctx);
  }

  lemma AppliesAssignable(well: map<string, HeaderItem>, ctx: Context)
    requires AllApply(well, UpdateSteps, ctx)
    ensures Assignable(well, ctx)
  {
    AppliesItems(well, ctx);
    AppliesWells(well, ctx);
    AppliesLogs(well, ctx);
  }

  /** The assignments all go through exactly when every item, row and column they need is there. */
  lemma UpdateSucceeds(well: map<string, HeaderItem>, ctx: Context)
    ensures Applied(well, UpdateSteps, ctx).Done? <==> Assignable(well, ctx)
  {
    UpdateStepsDistinct();
    AppliedEffect(well, UpdateSteps, ctx);
    if Assignable(well, ctx) {
      AssignableApplies(well, ctx);
    }
    if AllApply(well, UpdateSteps, ctx) {
      AppliesAssignable(well, ctx);
    }
  }

  /** After assignments that went through, the item of step `k` is what that step alone leaves. */
  lemma UpdatedItemAt(well: map<string, HeaderItem>, ctx: Context, k: nat)
    requires Applied(well, UpdateSteps, ctx).Done? && k < |UpdateSteps|
    ensures var w := Applied(well, UpdateSteps, ctx).value;
      StepNames[k] in w && w[StepNames[k]] == ItemAfter(well, UpdateSteps[k], ctx)
  {
    UpdateStepsDistinct();
    AppliedEffect(well, UpdateSteps, ctx);
    StepNamesMatch();
  }

  /** After assignments that went through, the items are the old ones and the sixteen assigned, the others as they were. */
  lemma UpdatedKeys(well: map<string, HeaderItem>, ctx: Context)
    requires Applied(well, UpdateSteps, ctx).Done?
    ensures var w := Applied(well, UpdateSteps, ctx).value;
      && (forall m :: m in w <==> m in well || m in StepNames)
      && (forall m :: m in well && m !in StepNames ==> w[m] == well[m])
  {
    UpdateStepsDistinct();
    AppliedEffect(well, UpdateSteps, ctx);
    StepNamesMatch();
    forall m ensures m in Mnemonics(UpdateSteps) <==> m in StepNames {
      MnemonicsIff(UpdateSteps, m);
    }
  }

  /** WELL, which must have been there, holds "LEASE_NAME WELL_NAME". */
  lemma UpdatedWellName(well: map<string, HeaderItem>, ctx: Context)
    requires Applied(well, UpdateSteps, ctx).Done?
    ensures var w := Applied(well, UpdateSteps, ctx).value;
      "WELL" in well && "WELL" in w && w["WELL"] == well["WELL"].(value := Str(ctx.wellName))
  {
    UpdateSucceeds(well, ctx);
    UpdatedItemAt(well, ctx, 0);
  }

  /** STRT holds the least TOP and STOP the greatest BOTTOM of the KID's log rows. */
  lemma UpdatedDepthRange(well: map<string, HeaderItem>, ctx: Context)
    requires Applied(well, UpdateSteps, ctx).Done?
    ensures var w := Applied(well, UpdateSteps, ctx).value;
      && "STRT" in w && w["STRT"].value == Extreme(ctx.logs, "TOP", true)
      && "STOP" in w && w["STOP"].value == Extreme(ctx.logs, "BOTTOM", false)
  {
    UpdateSucceeds(well, ctx);
    UpdatedItemAt(well, ctx, 4);
    UpdatedItemAt(well, ctx, 5);
  }

  /** CTRY is 'USA' and STAT 'Kansas' afterwards, whether the items were there or not. */
  lemma UpdatedCountryState(well: map<string, HeaderItem>, ctx: Context)
    requires Applied(well, UpdateSteps, ctx).Done?
    ensures var w := Applied(well, UpdateSteps, ctx).value;
      && "CTRY" in w && w["CTRY"].value == Str("USA")
      && "STAT" in w && w["STAT"].value == Str("Kansas")
  {
    UpdatedItemAt(well, ctx, 6);
    UpdatedItemAt(well, ctx, 7);
  }

  /** UWI gets the KID only when it was already there; otherwise a UWI item without a value is added. */
  lemma UpdatedUwi(well: map<string, HeaderItem>, ctx: Context)
    requires Applied(well, UpdateSteps, ctx).Done?
    ensures var w := Applied(well, UpdateSteps, ctx).value;
      "UWI" in w && w["UWI"] == (if "UWI" in well then well["UWI"].(value := Int(ctx.kid))
                                 else HeaderItem("UWI", "", Str(""), "Unique Well Identifier"))
  {
    UpdatedItemAt(well, ctx, 10);
  }

  /**
   * STRT is the least numeric TOP of the log rows and STOP the greatest BOTTOM; each is an int
   * exactly when its column holds only ints.
   */
  lemma ExtremeBounds(rows: seq<Record>, column: string)
    ensures var r := Extreme(rows, column, true);
      r != NaN ==>
      && DepthOf(r).Some?
      && (exists i :: 0 <= i < |rows| && column in rows[i].cells && DepthOf(rows[i].cells[column]) == DepthOf(r))
      && (forall i :: 0 <= i < |rows| && column in rows[i].cells && DepthOf(rows[i].cells[column]).Some? ==>
            DepthOf(r).value <= DepthOf(rows[i].cells[column]).value)
    ensures var r := Extreme(rows, column, false);
      r != NaN ==>
      && DepthOf(r).Some?
      && (exists i :: 0 <= i < |rows| && column in rows[i].cells && DepthOf(rows[i].cells[column]) == DepthOf(r))
      && (forall i :: 0 <= i < |rows| && column in rows[i].cells && DepthOf(rows[i].cells[column]).Some? ==>
            DepthOf(rows[i].cells[column]).value <= DepthOf(r).value)
    ensures Extreme(rows, column, true) == NaN <==>
      forall i :: 0 <= i < |rows| && column in rows[i].cells ==> DepthOf(rows[i].cells[column]).None?
    ensures Extreme(rows, column, true).Int? <==> rows != [] && IntColumn(rows, column)
    ensures Extreme(rows, column, false).Int? <==> rows != [] && IntColumn(rows, column)
  {
    var xs := Depths(rows, column);
    if xs != [] {
      var x := xs[0];
      assert x in xs;
      if IntColumn(rows, column) {
        IntDepthsWhole(rows, column, MinOf(xs));
        IntDepthsWhole(rows, column, MaxOf(xs));
      }
    } else if rows != [] {
      assert column in rows[0].cells ==> DepthOf(rows[0].cells[column]).None?;
    }
  }

  /** In an int column every depth is a whole number. */
  lemma IntDepthsWhole(rows: seq<Record>, column: string, x: real)
    requires IntColumn(rows, column) && x in Depths(rows, column)
    ensures x.Floor as real == x
  {
    var i :| 0 <= i < |rows| && column in rows[i].cells && DepthOf(rows[i].cells[column]) == Some(x);
    assert x == rows[i].cells[column].i as real;
  }

  /** Failing at some step fails the whole list with that step's failure. */
  lemma {:induction false} AppliedFailsAt(well: map<string, HeaderItem>, steps: seq<Step>, ctx: Context, i: nat)
    requires i <= |steps| && Applied(well, steps[..i], ctx).Failed?
    ensures Applied(well, steps, ctx) == Applied(well, steps[..i], ctx)
    decreases |steps|
  {
    if i < |steps| {
      var init := steps[..|steps| - 1];
      assert init[..i] == steps[..i];
      AppliedFailsAt(well, init, ctx, i);
    } else {
      assert steps[..i] == steps;
    }
  }

  /** One assignment, in place. */
  method AssignItem(las: LasFile, s: Step, ctx: Context) returns (failure: Option<Failure>)
    modifies las
    ensures ApplyStep(old(las.well), s, ctx).Done? ==> failure == None && las.well == ApplyStep(old(las.well), s, ctx).value
    ensures ApplyStep(old(las.well), s, ctx).Failed? ==> failure == Some(ApplyStep(old(las.well), s, ctx).failure)
    ensures las.curves == old(las.curves) && las.index == old(las.index) && las.sections == old(las.sections)
  {
    match s {
    case Assign(m, src) =>
      var v := Eval(src, ctx);
      if v.Failed? {
        return Some(v.failure);
      }
      if m !in las.well {
        return Some(NoItem(m));
      }
      las.well := las.well[m := las.well[m].(value := v.value)];
    case Upsert(m, unit, src, descr) =>
      var v := Eval(src, ctx);
      if v.Failed? {
        return Some(v.failure);
      }
      if m in las.well {
        las.well := las.well[m := las.well[m].(value := v.value)];
      } else {
        las.well := las.well[m := HeaderItem(m, unit, v.value, descr)];
      }
    case UpsertBlank(m, src, descr) =>
      if m in las.well {
        var v := Eval(src, ctx);
        if v.Failed? {
          return Some(v.failure);
        }
        las.well := las.well[m := las.well[m].(value := v.value)];
      } else {
        las.well := las.well[m := HeaderItem(m, "", Str(""), descr)];
      }
    }
    return None;
  }

  /** The ~Well assignments of update_las one after another, stopping at the first that raises. */
  method AssignItems(las: LasFile, ctx: Context) returns (failure: Option<Failure>)
    modifies las
    ensures Applied(old(las.well), UpdateSteps, ctx).Done? ==>
              failure == None && las.well == Applied(old(las.well), UpdateSteps, ctx).value
    ensures Applied(old(las.well), UpdateSteps, ctx).Failed? ==>
              failure == Some(Applied(old(las.well), UpdateSteps, ctx).failure)
    ensures las.curves == old(las.curves) && las.index == old(las.index) && las.sections == old(las.sections)
  {
    ghost var start := las.well;
    assert UpdateSteps[..0] == [];
    for i := 0 to |UpdateSteps|
      invariant Applied(start, UpdateSteps[..i], ctx) == Done(las.well)
      invariant las.curves == old(las.curves) && las.index == old(las.index) && las.sections == old(las.sections)
    {
      assert UpdateSteps[..i + 1][..i] == UpdateSteps[..i];
      failure := AssignItem(las, UpdateSteps[i], ctx);
      if failure.Some? {
        AppliedFailsAt(start, UpdateSteps, ctx, i + 1);
        return;
      }
    }
    assert UpdateSteps[..|UpdateSteps|] == UpdateSteps;
    return None;
  }

  // ---------------------------------------------------------------------------
  // The ~Other block of add_formation_info_to_las_other_section

  const OtherHeader := "\tTOP, BASE, FORMATION"

  /** f"\t{TOP}, {BASE}, {FORMATION}" of one Tops_ row. */
  function OtherLine(r: TopsRow, nt: NumberText): string {
    "\t" + Render(r.top, nt) + ", " + Render(r.base, nt) + ", " + Render(r.formation, nt)
  }

  function OtherLines(rows: seq<TopsRow>, nt: NumberText): (ls: seq<string>)
    ensures |ls| == |rows|
  {
    seq(|rows|, i requires 0 <= i < |rows| => OtherLine(rows[i], nt))
  }

  /** The block: the header line, then one line per row, each ended by a newline. */
  function OtherBlock(rows: seq<TopsRow>, nt: NumberText): string {
    Lines([OtherHeader] + OtherLines(rows, nt))
  }

  /** Each text followed by a newline, as `formation_lines` holds them. */
  function Terminated(ls: seq<string>): (r: seq<string>)
    ensures |r| == |ls|
  {
    seq(|ls|, i requires 0 <= i < |ls| => ls[i] + "\n")
  }

  /** `"".join(parts)`. */
  function Concat(parts: seq<string>): string {
    if parts == [] then "" else parts[0] + Concat(parts[1..])
  }

  lemma {:induction false} ConcatTerminated(ls: seq<string>)
    ensures Concat(Terminated(ls)) == Lines(ls)
  {
    if ls != [] {
      assert Terminated(ls)[1..] == Terminated(ls[1..]);
      ConcatTerminated(ls[1..]);
    }
  }

  /** `formations_csv`: the lines collected one row after another, then joined. */
  method FormationsCsv(rows: seq<TopsRow>, nt: NumberText) returns (text: string)
    ensures text == OtherBlock(rows, nt)
  {
    var formationLines := [OtherHeader + "\n"];
    for i := 0 to |rows|
      invariant |formationLines| == i + 1 && formationLines[0] == OtherHeader + "\n"
      invariant forall k :: 0 <= k < i ==> formationLines[k + 1] == OtherLine(rows[k], nt) + "\n"
    {
      var line := "\t" + Render(rows[i].top, nt) + ", " + Render(rows[i].base, nt) + ", " + Render(rows[i].formation, nt) + "\n";
      formationLines := formationLines + [line];
    }
    assert formationLines == Terminated([OtherHeader] + OtherLines(rows, nt));
    ConcatTerminated([OtherHeader] + OtherLines(rows, nt));
    text := Concat(formationLines);
  }

  /**
   * Cutting the block at its newlines gives back the header line, one line per row in order,
   * and the empty text after the final newline.
   */
  lemma OtherBlockLines(rows: seq<TopsRow>, nt: NumberText)
    requires forall i :: 0 <= i < |rows| ==> SingleLine(rows[i], nt)
    ensures Split(OtherBlock(rows, nt), '\n') == [OtherHeader] + OtherLines(rows, nt) + [""]
  {
    var ls := [OtherHeader] + OtherLines(rows, nt);
    forall k | 0 <= k < |ls| ensures '\n' !in ls[k] {
      if k > 0 {
        assert ls[k] == OtherLine(rows[k - 1], nt);
      }
    }
    LinesSplit(ls);
  }

  /** The sections after the block is appended to ~Other, or set as ~Other when there is none. */
  function WithOther(sections: map<string, Section>, block: string): Updated<map<string, Section>> {
    if "Other" !in sections then Done(sections["Other" := Block(block)])
    else
      match sections["Other"]
      case Block(t) => Done(sections["Other" := Block(t + block)])
      case Items(_) => Failed(OtherNotText)
  }

  /** add_formation_info_to_las_other_section. */
  method AddFormationInfoToOther(las: LasFile, rows: seq<TopsRow>, nt: NumberText) returns (failure: Option<Failure>)
    modifies las
    ensures WithOther(old(las.sections), OtherBlock(rows, nt)).Done? ==>
              failure == None && las.sections == WithOther(old(las.sections), OtherBlock(rows, nt)).value
    ensures WithOther(old(las.sections), OtherBlock(rows, nt)).Failed? ==> failure == Some(OtherNotText)
    ensures las.well == old(las.well) && las.curves == old(las.curves) && las.index == old(las.index)
  {
    var formations := FormationsCsv(rows, nt);
    if "Other" in las.sections {
      match las.sections["Other"]
      case Block(t) =>
        las.sections := las.sections["Other" := Block(t + formations)];
      case Items(_) =>
        return Some(OtherNotText);
    } else {
      las.sections := las.sections["Other" := Block(formations)];
    }
    return None;
  }

  // ---------------------------------------------------------------------------
  // One call of update_las

  /** `well_name.replace(' ', '_').replace('/', '_') + '.las'`. */
  function OutputName(wellName: string): string {
    ReplaceChar(ReplaceChar(wellName, ' ', '_'), '/', '_') + ".las"
  }

  /** The saved file's name has no spaces and no slashes before `.las`, and one character per character of the well name. */
  lemma OutputNameClean(wellName: string)
    ensures var stem := ReplaceChar(ReplaceChar(wellName, ' ', '_'), '/', '_');
      && OutputName(wellName) == stem + ".las"
      && |stem| == |wellName| && ' ' !in stem && '/' !in stem
      && forall i :: 0 <= i < |wellName| ==> stem[i] == (if wellName[i] == ' ' || wellName[i] == '/' then '_' else wellName[i])
  {
    ReplaceCharRemoves(wellName, ' ', '_');
    ReplaceCharRemoves(ReplaceChar(wellName, ' ', '_'), '/', '_');
  }

  /** f"{LEASE_NAME} {WELL_NAME}" of the first Wells_ row. */
  function WellNameOf(wells: seq<Record>, nt: NumberText): Updated<string> {
    match FirstCell(wells, "Wells", "LEASE_NAME")
    case Failed(f) => Failed(f)
    case Done(lease) =>
      match FirstCell(wells, "Wells", "WELL_NAME")
      case Failed(f) => Failed(f)
      case Done(name) => Done(Render(lease, nt) + " " + Render(name, nt))
  }

  /**
   * What update_las does with one file: the document to save and where, nothing when the file's
   * KID is missing or 0, or the failure the try block catches.
   */
  function UpdateResult(file: SourceFile, wells: seq<Record>, logs: seq<Record>, tops: seq<TopsRow>,
                        index: seq<IndexRow>, dest: string, nt: NumberText): Updated<Option<(string, LasDoc)>> {
    match file.content
    case ReadError(message) => Failed(ReadFailure(message))
    case Parsed(doc) =>
      var kid := FirstKidFor(index, Basename(file.path));
      if !Truthy(kid) then Done(None)
      else
        var wellRows := RowsFor(wells, kid);
        match WellNameOf(wellRows, nt)
        case Failed(f) => Failed(f)
        case Done(name) =>
          match Applied(doc.well, UpdateSteps, Context(kid.value, name, wellRows, RowsFor(logs, kid)))
          case Failed(f) => Failed(f)
          case Done(well) =>
            match WithOther(doc.sections, OtherBlock(TopsFor(tops, kid), nt))
            case Failed(f) => Failed(f)
            case Done(sections) =>
              Done(Some((PathJoin(dest, OutputName(name)), doc.(well := well, sections := sections))))
  }

  /** The in-place work of update_las on a freshly read document. */
  method AdjustDocument(file: SourceFile, wells: seq<Record>, logs: seq<Record>, tops: seq<TopsRow>,
                        index: seq<IndexRow>, dest: string, nt: NumberText) returns (result: Updated<Option<(string, LasDoc)>>)
    ensures result == UpdateResult(file, wells, logs, tops, index, dest, nt)
  {
    if file.content.ReadError? {
      return Failed(ReadFailure(file.content.message));
    }
    var las := new LasFile.FromDoc(file.content.doc);
    var kid := FirstKidFor(index, Basename(file.path));
    if !Truthy(kid) {
      return Done(None);
    }
    var wellRows := RowsFor(wells, kid);
    var logRows := RowsFor(logs, kid);
    var topRows := TopsFor(tops, kid);
    var name := WellNameOf(wellRows, nt);
    if name.Failed? {
      return Failed(name.failure);
    }
    var failure := AssignItems(las, Context(kid.value, name.value, wellRows, logRows));
    if failure.Some? {
      return Failed(failure.value);
    }
    failure := AddFormationInfoToOther(las, topRows, nt);
    if failure.Some? {
      return Failed(failure.value);
    }
    return Done(Some((PathJoin(dest, OutputName(name.value)), las.Snapshot())));
  }

  /** One entry of error_log.json. */
  datatype ErrorInfo = ErrorInfo(file: string, error: Failure, message: string)

  const UnknownErrorMessage := "Error desconocido durante la actualización del archivo LAS"

  /** The list a call of update_las writes to error_log.json: its one error, or nothing. */
  function CallLog(path: string, result: Updated<Option<(string, LasDoc)>>): (log: seq<ErrorInfo>)
    ensures |log| <= 1
    ensures log == [] <==> result.Done?
  {
    match result
    case Failed(f) => [ErrorInfo(path, f, UnknownErrorMessage)]
    case Done(_) => []
  }

  /** The files saved so far and the content of error_log.json. */
  datatype AdjustState = AdjustState(outputs: map<string, LasDoc>, errorLog: seq<ErrorInfo>)

  function UpdateStep(st: AdjustState, file: SourceFile, wells: seq<Record>, logs: seq<Record>, tops: seq<TopsRow>,
                      index: seq<IndexRow>, dest: string, nt: NumberText): AdjustState {
    var r := UpdateResult(file, wells, logs, tops, index, dest, nt);
    AdjustState(if r.Done? && r.value.Some? then st.outputs[r.value.value.0 := r.value.value.1] else st.outputs,
                CallLog(file.path, r))
  }

  /**
   * Every call replaces error_log.json with its own list, whatever it held before; a file is
   * saved only by a call that raised nothing, and under `<dest>/<output name>`.
   */
  lemma UpdateStepEffect(st: AdjustState, file: SourceFile, wells: seq<Record>, logs: seq<Record>, tops: seq<TopsRow>,
                         index: seq<IndexRow>, dest: string, nt: NumberText)
    ensures var st' := UpdateStep(st, file, wells, logs, tops, index, dest, nt);
      var r := UpdateResult(file, wells, logs, tops, index, dest, nt);
      && st'.errorLog == CallLog(file.path, r)
      && (r.Failed? ==> st'.errorLog == [ErrorInfo(file.path, r.failure, UnknownErrorMessage)] && st'.outputs == st.outputs)
      && (r.Done? ==> st'.errorLog == [])
      && (st'.outputs.Keys <= st.outputs.Keys + (if r.Done? && r.value.Some? then {r.value.value.0} else {}))
      && (r.Done? && r.value.Some? ==> exists name :: r.value.value.0 == PathJoin(dest, OutputName(name)))
  {
  }
}
