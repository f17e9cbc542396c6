# Kansas LAS pipeline: a verified model

This project models the data-preparation core of the Kansas well-log pipeline in Dafny and proves what it does.
The pipeline takes LAS files from the Kansas Geological Survey, joins them with the field's reference tables, rewrites their headers and writes cleaned files.
It also reads formation tops back out of the cleaned files and prepares per-well data for learning.
The reference tables are Wells_, Logs_, Tops_ and the LAS_ index, keyed by the well identifier KID.

The model covers these parts, one Dafny module each:

- **Header clean-up** (`LasHeader`). `standardize_curve_information` splits combined mnemonic/unit tokens. `update_well_information` rebuilds the ~Well section from the 13 required mnemonics and the four mandatory ones.
- **Identity and metadata join** (`LasProcessing`):
  - file → KID by the first matching LAS_ row;
  - KID → first Wells_ and Logs_ rows;
  - KID → output well name;
  - KID → the files of that well;
  - choice of reference table by file name.
- **Per-file processing** (`LasProcessing.LasFileProcessor`). `clean_and_save_las_file` has ordered early exits and a fixed final section set. Results go into a map from output path to document, so a later file for the same well replaces the earlier one.
- **Error report** (`ErrorLedger`). `log_error` is a deduplicating append on a map from field to entries.
- **Curve merge** (`LasMerge`). `merge_las_files_with_nan` takes the union of mnemonics, fills a depth slot only while it is still NaN, and never extrapolates.
- **The older adjustment script** (`AdjustLas`, `AdjustRun`):
  - the sixteen ~Well assignments of `update_las`, as a table of steps applied in order and stopped by the first failure;
  - the tab-indented ~Other block;
  - the output file name;
  - the file/field driver;
  - `error_log.json`, which each call overwrites.
- **Formation tops** (`FormationParse`, `FormationIntervals`, `FormationLabels`):
  - the ~Other scan of `extract_formation_data`, with a round trip against the block `get_formation_information` writes;
  - sorting, filling of missing bases and the `Unknown` cap;
  - in `prepare_data`: normalisation, sorting, overlap truncation and half-open depth labelling.
- **Project bookkeeping** (`OutlierVote`, `ProjectData`, `ProjectManagement`). `ProjectManager` is a class whose fields the methods update:
  - the curve inventory, selection and filtering;
  - curve descriptions;
  - the remap of outlier indices in `process_curve`;
  - the outlier vote and Formation column in `prepare_data`.
- **Exploratory helpers** (`CurveInventory`): the unique curve list in first-appearance order, the description selection rule, and curves per well.
- **Train/test split** (`SplitData`): the presence matrix, the eligibility filter, a Fisher–Yates shuffle in place on an array, and the partition into categories.
- **Feature columns** (`Normalization`): categorical versus numerical columns and the per-column transformer steps.
- **Downloads and archives** (`DownloadLasFiles`, `UnzipFiles`):
  - LAS ids from the LAS_ table and from URL lines;
  - the URL map;
  - grouping of download errors;
  - the progress-bar fill count;
  - `format_field_name` (Python `str.title` over ASCII);
  - the zip-name → folder plan.

Shared pieces: `Text` (string functions with Python's meaning), `LasTypes` (table cells, header items, the LAS document), `StableSort` (the sort by key used for `list.sort` and `sort_values`), `Sequences` (duplicate-free lists and the first-appearance de-duplication behind `list_unique_curves` and the keys of a `Counter`) and `Wrappers` (Option, Result).

Modelling conventions:

- **Depths** are `real`. The code only compares them, takes min/max and interpolates linearly.
- **Missing values** (`'nan'`, `None`, NaN) are `Option` or the `Null`/`NaN` cases of `Value`.
- **Number text is a parameter.**
  - `str(float)` and `float(text)` are the parameter `NumberText(show, read)`.
  - `read` gives None where `float` raises.
  - The round trip of the ~Other section requires of each written depth only that `show` prints it in number characters and `read` gives it back (`FormationParse.DepthWritable`).
- **State-changing code becomes methods.**
  - Code that changes state step by step is a method with loop invariants, proved against a specification function.
  - A LAS document being edited is the class `LasTypes.LasFile`.
  - The processors are classes (`LasFileProcessor`, `Adjuster`, `ProjectManager`).
- **Exceptions are modelled by cause** (`Failure`, error strings), not by message text.

## Model

| member | source | states |
|---|---|---|
| LasTypes.RowsFor | code/src/process_all_las_files.py:324-325 | The rows selected for a KID all carry that KID, in table order. The selection is empty exactly when no row has that KID, so a missing KID selects nothing. |
| LasTypes.FirstRecord | code/src/process_all_las_files.py:330-331 | `.iloc[0]` of a selection is None exactly when the selection is empty, and otherwise its first row, which is a row of the table. |
| LasTypes.LasFile.FromDoc | code/src/process_all_las_files.py:123 | A document opened for editing holds exactly the header, curves, index and sections that were read. |
| Text.TitleAt | code/src/process_all_las_files.py:432-433 | Python `str.title` on ASCII text: a letter becomes upper case exactly when it is first or follows a non-letter, and lower case otherwise. Other characters are unchanged and stay non-letters. |
| Text.TitleKeepsNonLetters | code/scripts/unzip_files.py:88 | `title()` neither adds nor removes any non-letter character such as '-', ' ' or '/'. |
| Text.ReplaceCharRemoves | code/src/process_all_las_files.py:432-433 | After `replace(a, b)` no `a` is left, `b` occurs exactly when `a` or `b` occurred, and every other character's presence is unchanged. |
| Text.RemoveCharLength | code/scripts/unzip_files.py:88 | `replace(c, '')` shortens a text by exactly the number of occurrences of `c`. |
| Text.JoinSplit | code/src/project_manager.py:140 | Joining the parts of `split(sep)` with `sep` gives back the text. |
| Text.SplitJoin | code/src/project_manager.py:140 | Splitting the join of separator-free parts gives back exactly those parts. |
| Text.SplitHead | code/scripts/download_las_files.py:33 | `split(sep)[0]` is the text before the first separator. |
| Text.LeadsWithStrip | code/src/project_manager.py:134 | The character-wise prefix test used for the scan agrees with `line.strip().startswith(p)`. |
| Text.StripTrimEnd | code/src/project_manager.py:147 | Stripping a text whose trailing blanks were already removed gives the same as stripping the original. |
| Text.IndexOf | code/scripts/download_las_files.py:33 | The position of the first occurrence of a character, or the length when there is none; no earlier position holds it. |
| Text.Split | code/src/project_manager.py:140 | `split(sep)` gives at least one part and no part contains the separator. |
| Text.Words | code/src/process_all_las_files.py:200 | `split()` gives non-empty tokens free of whitespace. |
| Text.AfterLast | code/scripts/download_las_files.py:69-70 | The text after the last occurrence of a character is a suffix free of it, and the whole text when it does not occur. |
| Text.Basename | code/src/process_all_las_files.py:373 | `os.path.basename` contains no '/'. |
| ErrorLedger.LoggedEffect | code/src/process_all_las_files.py:362-376 | A report is dropped exactly when its field already holds an entry whose LASFILE equals the raw argument and whose Error equals the error. Otherwise (basename, error, message) is appended at the end of that field's list, which is created if missing. Other fields never change, and the message is not part of the key. |
| ErrorLedger.FindRepeat | code/src/process_all_las_files.py:363-366 | The repeat scan answers true exactly when some entry of the field matches both the file argument and the error. |
| ErrorLedger.LoggedKeepsBaseNames | code/src/process_all_las_files.py:373 | A report holding only base names as LASFILE keeps holding only base names after any report. |
| ErrorLedger.BareNameRepeatIsDropped | code/src/process_all_las_files.py:362-366 | Reporting the same slash-free file and error a second time, with any message, leaves the report as it was after the first time. |
| ErrorLedger.FullPathRepeatIsAppended | code/src/process_all_las_files.py:373 | A report passed as a full path is stored under its base name, so the same report repeated appends a second entry. |
| LasProcessing.LasFileProcessor.LogError | code/src/process_all_las_files.py:344-380 | The error report becomes the deduplicated append of the new entry, and no written file changes. |
| LasHeader.SplitMnemonicRules | code/src/process_all_las_files.py:200-208 | Whitespace tokens take priority: the mnemonic becomes the whitespace-free run after the leading whitespace, and the unit the whitespace-free run after the blanks that follow it (the first two tokens of `split()`). Otherwise the mnemonic splits at its first '.', else at its first ' ', with the separator absent from the new mnemonic. With no separator, mnemonic and unit are unchanged. |
| LasHeader.StandardizedCurve | code/src/process_all_las_files.py:199-209 | A curve's mnemonic and unit become the split pair. Its description and data are kept. |
| LasHeader.StandardizeCurveInformation | code/src/process_all_las_files.py:197-210 | The curve list keeps its length and order, and each curve is standardised. The ~Well section, index and other sections are untouched. |
| LasHeader.UpdateWellInformation | code/src/process_all_las_files.py:212-270 | The ~Well section becomes the synthesised section of the old one and the two table rows. The lemmas below give its keys and values. Nothing else in the document changes. |
| LasHeader.AddMandatoryFields | code/src/process_all_las_files.py:245-254 | STRT, STOP, STEP and NULL are written with their old values, or '0.0', '0.0', '0.0', '-999.25' when absent, and an empty description. |
| LasHeader.DropForeignItems | code/src/process_all_las_files.py:256-262 | Every item whose key is neither required nor mandatory is deleted. The others stay as they were. |
| LasHeader.SetRequiredFields | code/src/process_all_las_files.py:264-268 | The loop sets the required items in list order from the table values. |
| LasHeader.ApplyRequiredOther | code/src/process_all_las_files.py:264-268 | Setting the required items neither adds nor changes a key outside the required list. |
| LasHeader.ApplyRequiredField | code/src/process_all_las_files.py:266-268 | The value comes from the wells row when that column exists there, even if it is NaN, else from the logs row. The item is set, with the column name as description, exactly when the value is not None. Otherwise the old item, or its absence, remains. |
| LasHeader.WithMandatoryOther | code/src/process_all_las_files.py:253-254 | Adding the mandatory items leaves every other key as it was. |
| LasHeader.WithMandatoryField | code/src/process_all_las_files.py:245-254 | Each mandatory key is present afterwards with its old value or its default. |
| LasHeader.FieldListsDisjoint | code/src/process_all_las_files.py:217-250 | The 13 required keys are distinct, the 4 mandatory keys are distinct, and the two lists share no key. |
| LasHeader.SynthesizedWellKeys | code/src/process_all_las_files.py:256-262 | After the update every ~Well key is required or mandatory, and all four mandatory keys are present. |
| LasHeader.SynthesizedMandatory | code/src/process_all_las_files.py:245-254 | After the whole update each mandatory key holds its source value or its default. |
| LasHeader.SynthesizedRequired | code/src/process_all_las_files.py:264-268 | After the whole update each required key holds the table value when that is not None. Otherwise the old item is kept, or the key stays absent. |
| LasHeader.SynthesizedWellIdempotent | code/src/process_all_las_files.py:212-270 | Updating an already updated ~Well section with the same rows changes nothing. |
| LasProcessing.GetWellName | code/src/process_all_las_files.py:428-434 | The well name is None exactly when no wells row has the KID. |
| LasProcessing.NamePartIsClean | code/src/process_all_las_files.py:432-433 | A lease or well part, after the replacements and `title()`, has no space and no '/'. |
| LasProcessing.WellNameIsClean | code/src/process_all_las_files.py:428-434 | A returned well name has no space and no '/'. |
| LasProcessing.MapKidsToWellNames | code/src/process_all_las_files.py:382-388 | The loop over the wells rows builds the KID → "lease_well" map. |
| LasProcessing.KidWellNamesLastRowWins | code/src/process_all_las_files.py:384-387 | A KID maps to the name built from its last row in the table. |
| LasProcessing.KidWellNamesKeys | code/src/process_all_las_files.py:384-387 | The map's keys are exactly the KIDs of the rows. |
| LasProcessing.WellInformation | code/src/process_all_las_files.py:322-333 | Information is found exactly when both the wells and the logs table have a row with the KID. It is then the first such row of each. |
| LasProcessing.LasFileProcessor.GetWellInformation | code/src/process_all_las_files.py:322-342 | Returns that information. When it is missing, one report "No well or log information found for KID." is logged under "KID_<kid>". Written files do not change. |
| LasProcessing.TopsFor | code/src/process_all_las_files.py:187-188 | The tops rows of the KID are taken in table order. The selection is empty exactly when no row has the KID. |
| LasProcessing.GetFormationInformation | code/src/process_all_las_files.py:186-195 | The `+=` loop gives None when the KID has no tops. Otherwise it gives "BASE,TOP,FORMATION\n" followed by one "base,top,formation\n" line per matching row, in order. |
| LasProcessing.FormationBlockLines | code/src/process_all_las_files.py:191-193 | Split at newlines, the block is the header line, one line per matching row in order, and an empty tail. |
| LasProcessing.KeepNecessarySections | code/src/process_all_las_files.py:149-160 | Only Version, Ascii and Other survive among the extra sections, missing ones are created empty, and an empty Parameter section is added. ~Well, curves and index are untouched. |
| LasProcessing.TableFile | code/src/process_all_las_files.py:277-280 | The table read is the first listed file whose name contains the marker. There is none exactly when no name contains it. |
| LasProcessing.NoWellNameIsUnreachable | code/src/process_all_las_files.py:133-136 | The "no well name found" exit is never taken, because the information check before it already requires a wells row for the KID. |
| LasProcessing.CleanStepEffects | code/src/process_all_las_files.py:118-171 | A file that is not written leaves the written files unchanged. A written file adds exactly its own path and logs nothing. |
| LasProcessing.CleanedDocIsClean | code/src/process_all_las_files.py:139-160 | A cleaned document has only allowed ~Well keys and all mandatory keys. Its sections are exactly Version, Ascii, Other and an empty Parameter, with the formation block in Other when there is one. Its curve count and index are those of the input, and its data is empty exactly when the input's is. |
| LasProcessing.WrittenDocIsClean | code/src/process_all_las_files.py:118-171 | A file is written only if it was read, its information and well name were found, and its data is not empty. It goes to destination/<well name>.las, and its content is the cleaned document. |
| LasProcessing.SameWellLaterFileWins | code/src/process_all_las_files.py:167-171 | Two written files of the same KID go to the same path, and the later file's document replaces the earlier one. |
| LasProcessing.LasFilesOf | code/src/process_all_las_files.py:102 | Only extracted files whose base name ends in .las, in any case, are processed. |
| LasProcessing.FirstKidFor | code/src/process_all_las_files.py:309-313 | The KID is that of the first index row whose LASFILE equals the name. There is none exactly when no row does. |
| LasProcessing.KidsOfResolves | code/src/process_all_las_files.py:301-320 | A path is in the file → KID map exactly when it was listed and its base name has an index row. Its KID is the first match, so the map's domain is a subset of the files. |
| LasProcessing.LasFileProcessor.MapLasFilesToKids | code/src/process_all_las_files.py:301-320 | Returns that map, and logs one "No KID found for LAS file <name>" report per unmatched file, in order. |
| LasProcessing.AddToGroup | code/src/process_all_las_files.py:445-447 | Adding a file creates the KID's group if needed and appends the path at its end. Other groups are unchanged. |
| LasProcessing.GroupsResolve | code/src/process_all_las_files.py:436-448 | A path is in a KID's group exactly when it was listed and its first index match is that KID. |
| LasProcessing.GroupsNonEmpty | code/src/process_all_las_files.py:445-447 | Every group holds at least one file. |
| LasProcessing.LasFileProcessor.MapKidsToLasFiles | code/src/process_all_las_files.py:436-448 | Returns the KID → files grouping, and logs each unmatched file under "General". |
| LasProcessing.LasFileProcessor.MapKidToLasFile | code/src/process_all_las_files.py:439-447 | One iteration extends both the grouping and the report by exactly one file's effect. |
| LasProcessing.LasFileProcessor.CleanAndSaveLasFile | code/src/process_all_las_files.py:118-171 | The report, the written files and the outcome follow the ordered exits: read error, missing information, missing name, empty data, else write. |
| LasProcessing.LasFileProcessor.CleanDocument | code/src/process_all_las_files.py:139-160 | The in-place edits turn the document into the cleaned document, and return the formation block for the KID. |
| LasProcessing.SkippedFieldWritesNothing | code/src/process_all_las_files.py:89-93 | A field with a missing table writes nothing, and logs one "Missing CSV files for field <name>" report. |
| LasProcessing.CleanAllWritesWellFiles | code/src/process_all_las_files.py:105-110 | Every file written for a field is destination/<well name>.las for some wells row. |
| LasProcessing.LasFileProcessor.ProcessField | code/src/process_all_las_files.py:82-110 | One field's run: the table check, the KID map, then each extracted file. |
| LasProcessing.LasFileProcessor.ProcessLasFiles | code/src/process_all_las_files.py:73-110 | All fields are run in the given sorted order. |
| LasProcessing.LasFileProcessor.constructor | code/src/process_all_las_files.py:67-71 | A processor starts from the report already on disk, with no files written. |
| LasMerge.InterpAtSample | code/src/process_all_las_files.py:412 | At a sample depth of an increasing index, `np.interp` gives that sample's value. |
| LasMerge.InterpBetweenSamples | code/src/process_all_las_files.py:412 | A defined interpolated value lies inside the source's depth range, because left and right are NaN. It comes from the neighbouring samples. |
| LasMerge.SlotAppend | code/src/process_all_las_files.py:414-415 | A later source only fills a slot that is still NaN, and only for its own mnemonic. |
| LasMerge.SlotOutsideIsNaN | code/src/process_all_las_files.py:412 | A depth outside the range of every source with that mnemonic stays NaN: there is no extrapolation. |
| LasMerge.SlotFirstWins | code/src/process_all_las_files.py:414-415 | The first source in list order that defines a slot gives its value. |
| LasMerge.Mnemonics | code/src/process_all_las_files.py:404 | The merged curves are the union of all inputs' mnemonics, without duplicates. |
| LasMerge.MinOf | code/src/process_all_las_files.py:397 | The minimum depth is one of the index values and no larger than any. |
| LasMerge.MaxOf | code/src/process_all_las_files.py:398 | The maximum depth is one of the index values and no smaller than any. |
| LasMerge.FillGaps | code/src/process_all_las_files.py:414-415 | Slot by slot, the current value is kept when defined, else the incoming one is taken. |
| LasMerge.NaNCurves | code/src/process_all_las_files.py:404 | Each merged mnemonic starts as an all-NaN column as long as the grid. |
| LasMerge.FillFromFile | code/src/process_all_las_files.py:407-415 | After one more file, each slot holds the first defined value over all sources so far. |
| LasMerge.MergeLasFilesWithNan | code/src/process_all_las_files.py:390-426 | No files gives None. Otherwise the grid runs from the minimum to the maximum depth, the curves are the union of mnemonics, and each slot holds the first defined interpolated value in file order. |
| AdjustLas.FirstWithPrefix | code/scripts/ajust_las_files.py:12-15 | The table file is the first listed file starting with the prefix. There is none exactly when no name starts with it. |
| AdjustLas.ReadFirst | code/scripts/ajust_las_files.py:17-20 | The table is read from that file, and is missing (an empty DataFrame) exactly when no file matches. |
| AdjustLas.FirstCell | code/scripts/ajust_las_files.py:43-45 | `column.iloc[0]` succeeds exactly when there is a row and the column exists. |
| AdjustLas.Depths | code/scripts/ajust_las_files.py:56-57 | The float depths of a column: each comes from some row, and every row's float depth is included. |
| AdjustLas.ExtremeBounds | code/scripts/ajust_las_files.py:56-57 | The minimum TOP is a row's value and no larger than any, and the maximum BOTTOM is a row's value and no smaller than any. The result is NaN exactly when no row has a numeric value, and an int (pandas int64) exactly when every row holds an int in the column. |
| AdjustLas.ApplyStep | code/scripts/ajust_las_files.py:44-122 | An assignment succeeds exactly when its value can be computed and its item exists or is created. Then only that item changes. |
| AdjustLas.AppliedEffect | code/scripts/ajust_las_files.py:44-122 | With distinct mnemonics, the sequence succeeds exactly when every step applies, and then each item is what its step writes. |
| AdjustLas.UpdateStepsDistinct | code/scripts/ajust_las_files.py:44-122 | The sixteen assignments write sixteen distinct items. |
| AdjustLas.MnemonicsIff | code/scripts/ajust_las_files.py:44-122 | The written items are exactly the steps' mnemonics. |
| AdjustLas.UpdateSucceeds | code/scripts/ajust_las_files.py:44-122 | The assignments all succeed exactly when the items they index, the wells columns and the logs columns are all present. |
| AdjustLas.UpdatedItemAt | code/scripts/ajust_las_files.py:44-122 | Each assigned item ends up as its step writes it. |
| AdjustLas.UpdatedKeys | code/scripts/ajust_las_files.py:44-122 | The keys afterwards are the old keys plus the assigned ones. Items not assigned keep their values. |
| AdjustLas.UpdatedWellName | code/scripts/ajust_las_files.py:43-44 | WELL keeps its item and gets the value "LEASE_NAME WELL_NAME". |
| AdjustLas.UpdatedDepthRange | code/scripts/ajust_las_files.py:56-57 | STRT becomes the minimum TOP, and STOP the maximum BOTTOM, over the KID's log rows, with the value kind `Extreme` gives (int for an all-int column). |
| AdjustLas.UpdatedCountryState | code/scripts/ajust_las_files.py:61-71 | CTRY = 'USA' and STAT = 'Kansas' are always present afterwards. |
| AdjustLas.UpdatedUwi | code/scripts/ajust_las_files.py:84-88 | UWI gets the KID only if it already existed. Otherwise a UWI item is created with no value. |
| AdjustLas.AppliedFailsAt | code/scripts/ajust_las_files.py:30-144 | After the first failing assignment nothing further runs: the result is that failure. |
| AdjustLas.AssignItem | code/scripts/ajust_las_files.py:44-122 | One assignment changes only that item on success. On failure it reports its cause. |
| AdjustLas.AssignItems | code/scripts/ajust_las_files.py:44-122 | The assignment loop leaves the ~Well section as the applied steps say, or reports the first failure. |
| AdjustLas.FormationsCsv | code/scripts/ajust_las_files.py:161-172 | The text is "\tTOP, BASE, FORMATION\n" followed by one tab-indented "top, base, formation" line per row, in order. |
| AdjustLas.ConcatTerminated | code/scripts/ajust_las_files.py:172 | `"".join` of newline-terminated lines is the lines, each followed by a newline. |
| AdjustLas.OtherBlockLines | code/scripts/ajust_las_files.py:161-169 | Split at newlines, the block is the header, one line per row, and an empty tail. |
| AdjustLas.AddFormationInfoToOther | code/scripts/ajust_las_files.py:175-178 | The block is appended to an existing text Other section, and set when there is none. Other parts of the document are unchanged. |
| AdjustLas.OutputNameClean | code/scripts/ajust_las_files.py:139 | The output name is the well name with ' ' and '/' replaced by '_', plus ".las". It has the same length and no space or slash. |
| AdjustLas.AdjustDocument | code/scripts/ajust_las_files.py:28-143 | The update of one file returns the written path and document, nothing for a falsy KID, or the first failure. |
| AdjustLas.CallLog | code/scripts/ajust_las_files.py:144-151 | A call's error list has at most one entry, and none exactly when the call succeeded. |
| AdjustLas.UpdateStepEffect | code/scripts/ajust_las_files.py:144-156 | Every call overwrites error_log.json with just its own errors, an empty list on success. A failed call writes no file, and a successful one writes at most destination/<output name>. |
| AdjustRun.Visited | code/scripts/ajust_las_files.py:205-215 | Only files whose name ends in .las, in any case, from archives whose name ends in .zip, in any case, are visited. |
| AdjustRun.VisitOf | code/scripts/ajust_las_files.py:217-223 | A file raises when the LAS_ table is missing, or when its KID is truthy and another table is missing. `update_las` is called only for a truthy KID with non-empty wells, tops and logs rows of that KID. |
| AdjustRun.UpdateLasCallLog | code/scripts/ajust_las_files.py:154-156 | The error log after a call depends only on that call. |
| AdjustRun.FileStep | code/scripts/ajust_las_files.py:217-223 | Handling one file fails exactly when its lookup raises. |
| AdjustRun.RunFilesFailsAt | code/scripts/ajust_las_files.py:205-225 | Once a file raises, no later file is processed. |
| AdjustRun.RunFilesCrash | code/scripts/ajust_las_files.py:205-225 | The run fails exactly when some file raises, and with the first such file's failure. |
| AdjustRun.RunFilesLog | code/scripts/ajust_las_files.py:154-156 | Without a crash, error_log.json holds what the last update call wrote, or the initial log when no call was made. |
| AdjustRun.RunFilesOutputs | code/scripts/ajust_las_files.py:223 | Files already written are never removed by later files. |
| AdjustRun.AdjustFieldsFailsAt | code/scripts/ajust_las_files.py:193-225 | A failing field stops the whole run. |
| AdjustRun.Adjuster.constructor | code/scripts/ajust_las_files.py:193-197 | A run starts with no files written and an empty error log. |
| AdjustRun.Adjuster.UpdateLas | code/scripts/ajust_las_files.py:28-156 | One call updates the written files and the error log as the update of that file says. |
| AdjustRun.Adjuster.ProcessField | code/scripts/ajust_las_files.py:199-225 | One field's run ends in the state the per-file steps give, or in the first crash. |
| AdjustRun.Adjuster.ProcessFiles | code/scripts/ajust_las_files.py:205-223 | The visited files are handled in order, and the run stops at the first crash. |
| AdjustRun.Adjuster.VisitFile | code/scripts/ajust_las_files.py:213-223 | Handling one more file extends the run by exactly that file's step. |
| AdjustRun.Adjuster.ProcessLasFiles | code/scripts/ajust_las_files.py:193-225 | All field folders are run in order, stopping at the first crash. |
| FormationParse.OtherFrom | code/src/project_manager.py:134-136 | The section starts at the first line whose stripped text starts with "~Other". |
| FormationParse.NextSectionFrom | code/src/project_manager.py:137-138 | The section ends at the first later line whose stripped text starts with '~', or at the end of the file. |
| FormationParse.ReadRowsStops | code/src/project_manager.py:143-144 | Once a depth fails to convert, no later line is read. |
| FormationParse.ReadSectionLine | code/src/project_manager.py:139-150 | One line inside the section appends its row, skips it, or stops with the conversion error. |
| FormationParse.ReadLineAt | code/src/project_manager.py:139-150 | Reading line i extends the scan of lines before i by that line. |
| FormationParse.ReadOtherSection | code/src/project_manager.py:131-150 | The file scan returns exactly the rows, and the error, of the lines strictly between ~Other and the next '~' line. |
| FormationParse.HeaderFieldsSkipped | code/src/project_manager.py:141 | The header line "BASE,TOP,FORMATION" is skipped. |
| FormationParse.ReadDepthBack | code/src/project_manager.py:143-144 | A written float whose text reads back reads back as itself, and a written NaN as missing. The text is never 'base' and cannot start a section. |
| FormationParse.SplitThree | code/src/project_manager.py:140-141 | Three comma-free fields joined by commas split back into exactly those three. |
| FormationParse.ReadFieldsBack | code/src/project_manager.py:141-150 | A written line reads back as (stripped name, top, base or None), and a line whose top is NaN is skipped. |
| FormationParse.ReadFormationLine | code/src/project_manager.py:139-150 | A line written for a tops row is not a section header, and reads back as that row. |
| FormationParse.ReadBlock | code/src/project_manager.py:139-150 | A whole written block (header, one line per row, empty line) reads back as the rows with float tops, in order, with no error. |
| FormationParse.BlockBounds | code/src/project_manager.py:134-138 | Behind the first ~Other line, the scan runs exactly over the written block. |
| FormationParse.ReadOtherLayout | code/src/project_manager.py:131-150 | An ~Other section holding the written block, followed by the end or another section, reads back as the rows with float tops. |
| FormationParse.BlockText | code/src/process_all_las_files.py:191-193 | Split at newlines, the text written for the rows is the header, one line per row, and an empty tail. |
| FormationParse.OtherSectionExample | code/src/project_manager.py:131-150 | A file whose ~Other section holds the block written for a Lansing top at 1200.0 with no base reads back as the formation ("Lansing", 1200.0, None). |
| FormationParse.OtherSectionRoundTrip | code/src/project_manager.py:131-150 | Parsing the ~Other section written from tops rows whose depths' text reads back gives back, with no error, every row whose top is not NaN. Rows stay in order, names come back stripped, and a NaN base comes back as missing. |
| StableSort.Insert | code/src/project_manager.py:153 | Inserting adds exactly one element to the multiset. |
| StableSort.InsertSorted | code/src/project_manager.py:153 | Inserting into a sorted list keeps it sorted. |
| StableSort.SortBy | code/src/project_manager.py:153 | Sorting by a key gives a permutation of the input that is sorted by that key. |
| StableSort.SortByStable | code/src/project_manager.py:153 | Sorting is stable: the elements with any one key come out in their input order. |
| StableSort.SortBySorted | code/src/project_manager.py:188 | Sorting a list already sorted by the key changes nothing. |
| FormationIntervals.FillBases | code/src/project_manager.py:165-181 | The loop gives one interval per row: its top, then its own base, else the next row's top, else STOP, then its name. |
| FormationIntervals.FilledSorted | code/src/project_manager.py:165-181 | Filling the bases of rows sorted by top gives intervals sorted by top. |
| FormationIntervals.CappedSorted | code/src/project_manager.py:184-185 | The `Unknown` interval starts above every other top, so the capped list is still sorted. |
| FormationIntervals.PlottedShape | code/src/project_manager.py:153-188 | The stored intervals are the rows sorted by top (a permutation), each with its filled base. They are preceded by (START, first top, Unknown) exactly when there is a row and the first top lies below START. The length is rows or rows + 1, and the final sort changes nothing. |
| FormationIntervals.CappedRow | code/src/project_manager.py:166-181 | Each interval past the cap keeps its row's top and name. Its base is the row's own base, else the next row's top, else STOP. |
| FormationIntervals.FilledMeet | code/src/project_manager.py:173-178 | When no row has a base, the intervals meet end to end, from the first top down to STOP. |
| FormationIntervals.PlottedExample | code/src/project_manager.py:153-188 | (1000, no base, A) and (1200, 1250, B), with START 900 and STOP 1400, give (900, 1000, Unknown), (1000, 1200, A), (1200, 1250, B). This leaves 1250-1400 uncovered. |
| ProjectManagement.ProjectManager.ExtractFormationData | code/src/project_manager.py:115-192 | The well's entry becomes the plotting intervals of the rows read. After a depth that cannot be converted, it is the rows appended so far, and the error propagates. No other field changes. |
| ProjectManagement.ProjectManager.StoreFormations | code/src/project_manager.py:188-191 | Only the well's formation entry changes. |
| ProjectManagement.ProjectManager.StoredValue | code/src/project_manager.py:143-191 | What is stored is the raw rows after an error, else the plotting intervals. |
| ProjectManagement.ProjectManager.BuildIntervals | code/src/project_manager.py:153-188 | The sort, fill, cap and sort steps give the plotting intervals described by PlottedShape. |
| FormationLabels.Normalized | code/src/project_manager.py:609-611 | An interval becomes (min, max, name): start ≤ end, the same two depths in some order, and the same name. |
| FormationLabels.NormalizedAll | code/src/project_manager.py:609-611 | One normalised band per interval, each with start ≤ end. |
| FormationLabels.AdjustOverlaps | code/src/project_manager.py:619-626 | The in-place pass over the array leaves exactly the truncated bands. |
| FormationLabels.TruncatedKeeps | code/src/project_manager.py:619-626 | Truncation keeps each band's start and name and never lengthens its end. An end already at or before the next start is kept. |
| FormationLabels.TruncatedTiled | code/src/project_manager.py:615-626 | Normalised bands sorted by start become tiled after truncation: start ≤ end ≤ next start. |
| FormationLabels.BandsTiled | code/src/project_manager.py:609-626 | Normalising, sorting and truncating any intervals gives tiled bands, one per interval. |
| FormationLabels.CoveringFrom | code/src/project_manager.py:635-649 | The first band at or after position j with start ≤ d < end, and no band before it covers d. |
| FormationLabels.TiledOrdered | code/src/project_manager.py:619-626 | In tiled bands, every band ends at or before any later band starts. |
| FormationLabels.LabelUnique | code/src/project_manager.py:629-649 | In tiled bands at most one band covers a depth. The label is that band's name, or 'Unknown' when none covers it. |
| FormationLabels.FindBand | code/src/project_manager.py:635 | The index of the first band covering the depth, or -1 when none does. |
| FormationLabels.LabelDepths | code/src/project_manager.py:639-649 | One label per depth, each the name of the band covering it, else 'Unknown'. |
| FormationLabels.Labelled | code/src/project_manager.py:629-652 | The Formation column has one label per depth. |
| FormationLabels.LabelFormations | code/src/project_manager.py:606-652 | The truncation pass and the labelling loop together give that column. |
| FormationLabels.LabelExample | code/src/project_manager.py:606-655 | With the intervals above, 950 is Unknown, 1100 is A, 1200 is B, and 1300 is Unknown: it falls in the uncovered gap. |
| OutlierVote.PositionsFrom | code/src/project_manager.py:366-367 | The increasing positions of exactly the non-NaN samples. |
| OutlierVote.Clean | code/src/project_manager.py:367 | The NaN-free data, each value the sample at its position. |
| OutlierVote.CleanEmpty | code/src/project_manager.py:369-370 | The clean data is empty exactly when every sample is NaN. |
| OutlierVote.Remap | code/src/project_manager.py:376 | Every index found in the clean data maps back to a non-NaN sample holding that value, and order is kept. |
| OutlierVote.Flagged | code/src/project_manager.py:572-575 | A position is flagged exactly when some method lists it for the well and curve. |
| OutlierVote.KeepCounted | code/src/project_manager.py:579 | A candidate is kept exactly when its count reaches `min_methods`. |
| OutlierVote.ToFilter | code/src/project_manager.py:578-579 | A position is filtered exactly when it occurs at least `min_methods` times across the methods. Each appears once. |
| OutlierVote.BlankedByVote | code/src/project_manager.py:578-583 | Sample i becomes NaN exactly when it occurs at least `min_methods` times across the methods. Otherwise it is unchanged. |
| OutlierVote.AnyVoteBlanks | code/src/project_manager.py:578-583 | With `min_methods` ≤ 1, a single method's vote blanks a sample. |
| ProjectManagement.ProjectManager.ProcessCurve | code/src/project_manager.py:363-379 | An all-NaN curve gives {}. Otherwise each method gets an entry whose indices are its findings mapped back to sample positions. |
| ProjectManagement.ProjectManager.FilterOutliers | code/src/project_manager.py:567-583 | The blanking loop over the selected curves gives the filtered curves. |
| ProjectData.CurveNamesIff | code/src/project_manager.py:204-208 | A curve is in the inventory exactly when some well has it. |
| ProjectManagement.ProjectManager.GetUniqueCurves | code/src/project_manager.py:196-211 | Without a loaded project the result is empty and nothing changes. Otherwise it is the curve names of all wells, and they are stored. |
| ProjectManagement.ProjectManager.UpdateSelectedCurves | code/src/project_manager.py:213-221 | The selection is stored. Then `filter_curves_in_project(self)` passes one argument too many and raises TypeError, so no curve is deleted. |
| ProjectData.FilteredWellsKeep | code/src/project_manager.py:223-232 | Each well keeps exactly its selected curves, with their data, and nothing else about it changes. Filtering twice is filtering once. |
| ProjectManagement.ProjectManager.FilterCurvesInProject | code/src/project_manager.py:223-232 | Without a project, TypeError. Otherwise every well loses the curves not selected. |
| ProjectData.TableNextRow | code/src/project_manager.py:243-252 | One curve row more puts its description under (mnemonic, lease). |
| ProjectData.TableKeys | code/src/project_manager.py:247-252 | A curve is a key exactly when some header row names it. A lease appears under it exactly when that well has such a row. |
| ProjectData.TableLastWins | code/src/project_manager.py:252 | The description stored for (curve, lease) comes from the last such row. |
| ProjectManagement.ProjectManager.GetCurveDescriptions | code/src/project_manager.py:234-255 | Without a loaded project the result is {} and nothing changes. Otherwise it is the table over every well's curve rows, which is stored. |
| ProjectManagement.ProjectManager.DescribeRows | code/src/project_manager.py:245-252 | The loop over one well's curve rows extends the table by those rows. |
| ProjectData.FilterCurves | code/src/project_manager.py:567-583 | Filtering keeps the well's set of curves. |
| ProjectData.BlankedTwice | code/src/project_manager.py:583 | Blanking the same positions twice is blanking them once. |
| ProjectData.FilterCurvesEffect | code/src/project_manager.py:567-583 | A selected curve is blanked by the vote, and every other curve is unchanged. |
| ProjectData.FilterCurvesVote | code/src/project_manager.py:567-583 | A sample becomes NaN exactly when its curve is selected and the sample reaches `min_methods` votes. |
| ProjectData.PreparedLabels | code/src/project_manager.py:606-655 | A prepared well keeps its curve set and gets one Formation label per depth. The labels are all 'Unknown' without stored formations, else the label of the depth's band; a well with stored formations had a non-empty interval list. |
| ProjectData.PrepareFromRuns | code/src/project_manager.py:557-661 | The loop over the wells runs to the end exactly when no well's stored formations are the raw rows left by a failed parse or an empty list (which `IntervalIndex.from_arrays` refuses, lines 613 and 629). |
| ProjectData.PrepareFromLastWins | code/src/project_manager.py:661 | A well is stored under its lease, and a later well with the same lease replaces an earlier one. |
| ProjectData.PrepareFromKeeps | code/src/project_manager.py:661 | An entry whose lease no well of the run has stays as it was. |
| ProjectManagement.ProjectManager.PrepareData | code/src/project_manager.py:540-663 | No detected outliers gives ValueError, and nothing changes. Without a project, the prepared data is reset and the call fails. Otherwise every well is prepared in turn, and the call fails exactly when the loop stops early. |
| ProjectManagement.ProjectManager.constructor | code/src/project_manager.py:53-67 | A manager starts with no project, no selection and empty inventories. |
| CurveInventory.ListCurvesPerWell | code/old_code/exploratory_data_analysis.py:53-56 | The keys are exactly the wells' uwis. Each maps to the curves of the last well with that uwi. |
| Sequences.Unique | code/old_code/exploratory_data_analysis.py:96-100 | Deduplication keeps exactly the same names, with no duplicates. |
| Sequences.UniqueSnoc | code/old_code/exploratory_data_analysis.py:99-100 | A name is appended only when it is not yet in the list. |
| Sequences.UniqueOrdered | code/old_code/exploratory_data_analysis.py:96-100 | The list keeps first-appearance order. |
| CurveInventory.ListUniqueCurves | code/old_code/exploratory_data_analysis.py:86-102 | The nested loop builds the deduplicated list of all wells' curves. |
| CurveInventory.UniqueCurves | code/old_code/exploratory_data_analysis.py:96-102 | The list has no duplicates, holds exactly the curves of all wells, and keeps first-appearance order across wells, then curves. |
| CurveInventory.DescriptionsSnoc | code/old_code/exploratory_data_analysis.py:81-82 | One more curve updates only its own mnemonic's entry, by the selection rule. |
| CurveInventory.DescriptionsKeys | code/old_code/exploratory_data_analysis.py:77-82 | A mnemonic has a description exactly when some curve has that mnemonic. |
| CurveInventory.DescriptionsValue | code/old_code/exploratory_data_analysis.py:79-82 | Each stored description is the description of the curve the rule picked. |
| CurveInventory.DescriptionsChosen | code/old_code/exploratory_data_analysis.py:79-82 | A description is `descr`, or 'No description available' when `descr` is empty. The first non-blank one wins, and when all are whitespace-only the last one stays. |
| CurveInventory.DescribeCurves | code/old_code/exploratory_data_analysis.py:77-82 | The loop over one file's curves extends the descriptions by those curves. |
| CurveInventory.ListCurveDescriptions | code/old_code/exploratory_data_analysis.py:59-84 | The descriptions are taken over all curves of all wells, in order. |
| DownloadLasFiles.LasId | code/scripts/download_las_files.py:33 | An id is the LASFILE text before its first '.': a prefix containing no '.'. |
| DownloadLasFiles.GetFieldLasIds | code/scripts/download_las_files.py:21-37 | Without a LAS_ table the set is empty. Otherwise it is exactly the ids of its LASFILE column, none of which contains '.'. |
| DownloadLasFiles.UrlId | code/scripts/download_las_files.py:70 | A URL's id is the last '/' segment up to its first '.', so it contains neither character. |
| DownloadLasFiles.ParseLine | code/scripts/download_las_files.py:62-70 | A line with at least two comma fields yields an entry whose id is its URL's id. |
| DownloadLasFiles.UrlMapSnoc | code/scripts/download_las_files.py:73-74 | One more line stores its URL exactly when its id is wanted, overwriting an earlier one. |
| DownloadLasFiles.BuildLasUrlMap | code/scripts/download_las_files.py:52-80 | The loop builds the URL map, and the error report is always empty. |
| DownloadLasFiles.UrlMapKeys | code/scripts/download_las_files.py:73-74 | An id is a key exactly when it is wanted and some line names it. |
| DownloadLasFiles.UrlMapLastWins | code/scripts/download_las_files.py:73-74 | A key's URL comes from the last line naming it. |
| DownloadLasFiles.UrlMapOfLines | code/scripts/download_las_files.py:59-80 | The keys are a subset of `las_ids`, and an id is a key exactly when some parsed line names it. Its URL's id is the key, and the URL comes from the last line naming it. |
| DownloadLasFiles.ErrorsOf | code/scripts/download_las_files.py:240-245 | A field's errors are exactly (LASFILE, Error) of its own reports. |
| DownloadLasFiles.ErrorsOfEmpty | code/scripts/download_las_files.py:240-245 | A field's error list is empty exactly when no report names the field. |
| DownloadLasFiles.GroupErrors | code/scripts/download_las_files.py:237-245 | The keys are exactly the fields with reports, each mapped to its own errors. |
| DownloadLasFiles.ProgressBar | code/scripts/download_las_files.py:133-164 | There are `length` blocks, and block i is coloured exactly when (i + 1)·total ≤ length·iteration. A newline is printed exactly when iteration == total. |
| DownloadLasFiles.BlocksBelow | code/scripts/download_las_files.py:150 | Block i is coloured exactly when i < `filled_length`. |
| DownloadLasFiles.FilledAtMost | code/scripts/download_las_files.py:133 | `filled_length` is at most `length`, and equals it when iteration == total. |
| DownloadLasFiles.ProgressBarColoured | code/scripts/download_las_files.py:133-150 | Exactly floor(length·iteration/total) blocks are coloured, and all of them at completion. |
| UnzipFiles.FormatFieldNameClean | code/scripts/unzip_files.py:88 | A formatted name has no '-' and no ' '. |
| UnzipFiles.FormatFieldNameLength | code/scripts/unzip_files.py:88 | Its length is the input's, less the number of '-' and ' '. |
| UnzipFiles.FormatFieldNameCasing | code/scripts/unzip_files.py:88 | After '-' → ' ', a letter is upper case exactly when it is first or follows a non-letter, and other letters are lower-cased, so CamelCase input is flattened. The spaces are then removed. |
| UnzipFiles.FormatFieldNameExample | code/scripts/unzip_files.py:88 | "el-aB" becomes "ElAb". |
| UnzipFiles.ZipStem | code/scripts/unzip_files.py:108 | `splitext` drops the ".zip" extension, or keeps the whole name. |
| UnzipFiles.ZipNames | code/scripts/unzip_files.py:105-106 | Exactly the names ending in ".zip", case-sensitive, are extracted. |
| UnzipFiles.UnzipPlan | code/scripts/unzip_files.py:105-113 | One extraction per zip name, in listing order, into destination/format_field_name(stem). |
| UnzipFiles.UnzipFolderNames | code/scripts/unzip_files.py:108-111 | A target folder name has no '-' or ' '. "a.zip" gives "a", while "..zip" keeps its whole name. |
| Normalization.Names | code/src/preprocessing/normalization.py:43-58 | The column names, in column order. |
| Normalization.FormationColumns | code/src/preprocessing/normalization.py:50 | Exactly the columns whose name starts with "Formation_". |
| Normalization.CategoricalFeatures | code/src/preprocessing/normalization.py:40-56 | The appends build the categorical list. |
| Normalization.FormationEncodedUnreachable | code/src/preprocessing/normalization.py:50-56 | The categorical list is 'kmeans_cluster' if present, 'agglo_cluster' if present, then the Formation_ columns in order. The 'Formation_encoded' branch adds nothing, because that name already starts with Formation_. |
| Normalization.Numerical | code/src/preprocessing/normalization.py:58 | Exactly the numeric columns that are not categorical. |
| Normalization.StepsShape | code/src/preprocessing/normalization.py:62-92 | A negative minimum gives Yeo-Johnson. Otherwise |skew| > 1 gives Box-Cox. The scaler is always last and appears once. |
| Normalization.TransformerSteps | code/src/preprocessing/normalization.py:72-86 | The appends build the steps of one column. |
| Normalization.GetPreprocessor | code/src/preprocessing/normalization.py:40-115 | The categorical and numerical lists as above, and one transformer per numerical column, in order, with that column's steps. |
| Normalization.ColumnsPartitioned | code/src/preprocessing/normalization.py:58 | The two lists are disjoint. Every numeric, non-categorical column is numerical, and any other column is dropped. |
| SplitData.FilterWellsByCurves | code/src/preprocessing/split_data.py:6-36 | The first two results are always empty. The matrix has one row per well with one entry per selected curve, and an entry is 1 exactly when the curve is a column of the well, else 0. |
| SplitData.EligibleNames | code/src/preprocessing/split_data.py:82-87 | A well is eligible exactly when it has at least `min_curves` columns and every target curve. |
| SplitData.DiscardedNames | code/src/preprocessing/split_data.py:86-87 | The discarded list holds exactly the other wells. |
| SplitData.FilteredDataEntries | code/src/preprocessing/split_data.py:85 | `filtered_data` has exactly the eligible wells, each with its own frame. |
| SplitData.NamesDistinct | code/src/preprocessing/split_data.py:82-87 | Each well goes to exactly one of the two lists. |
| SplitData.EligibleSnoc | code/src/preprocessing/split_data.py:82-87 | One more well goes to exactly one list, and to `filtered_data` when eligible. |
| SplitData.Shuffle | code/src/preprocessing/split_data.py:97 | The in-place Fisher–Yates pass leaves the shuffled list. |
| SplitData.ShuffleDownPermutes | code/src/preprocessing/split_data.py:97 | The shuffle is a permutation. |
| SplitData.SwapPermutes | code/src/preprocessing/split_data.py:97 | A swap is a permutation. |
| SplitData.ShuffledNames | code/src/preprocessing/split_data.py:97 | The shuffled list holds the same wells, without duplicates. |
| SplitData.SlicesApart | code/src/preprocessing/split_data.py:100-106 | The train prefix and the test suffix are disjoint, and together they are the list. |
| SplitData.PartitionSplits | code/src/preprocessing/split_data.py:100-110 | Train and test are disjoint, their union is the shuffled wells, and test has n/5 wells and train the rest. Each keeps its frame. |
| SplitData.PartitionCategories | code/src/preprocessing/split_data.py:113-116 | Every well gets a category: Discarded, Train/Validation or External Test. |
| SplitData.SplitWellsByPrediction | code/src/preprocessing/split_data.py:56-118 | The method computes the split: the filter, the ValueError check, the shuffle, the slices and the categories. |
| SplitData.AssignWells | code/src/preprocessing/split_data.py:100-116 | The slicing and category assignments after the shuffle. |
| SplitData.SplitFails | code/src/preprocessing/split_data.py:93-94 | ValueError exactly when fewer than 3 wells are eligible. |
| SplitData.SplitPartitions | code/src/preprocessing/split_data.py:97-110 | Train and test are disjoint, and their union is exactly the eligible wells. Test holds n/5 wells and train the rest, and each keeps its frame. |
| SplitData.EligibleApart | code/src/preprocessing/split_data.py:82-87 | The eligible list has no duplicates and shares no well with the discarded list. |
| SplitData.SplitCategories | code/src/preprocessing/split_data.py:113-116 | Every input well gets exactly one category: Discarded when not eligible, Train/Validation when in train, else External Test. |

## Left out

- File I/O is not modelled: LAS reading and writing, CSV reading, JSON report files, `os.listdir`, `glob`, temporary directories and zip extraction. Files, listings and tables are parameters in listing order, and written files are a map from path to document.
- lasio and welly internals are not modelled: the numeric formats (`%.4f`, `%.2f`), welly's `Project`, and header lookups by mnemonic. A LAS document is a datatype, and a loaded well is its LEASE, STRT, STOP, curve rows, depths and curves.
- `str(float)` and `float(text)` are the parameter `NumberText`. FormationParse.OtherSectionRoundTrip: holds for rows whose depths `show` prints in number characters and `read` gives back (`DepthWritable`); Python's `repr` of a finite float has both properties, but the model does not define `repr`, so a row outside them is not covered.
- Floating point is not modelled: depths and values are reals and NaN is None. Python's `min`/`max`/`skew` of a pandas Series are inputs to the normalisation model.
- Concurrency is not modelled: the process pools, `as_completed` order and the Manager lock. Per-file steps and report updates run sequentially.
- LasProcessing.LasFileProcessor.ProcessLasFiles: files are processed in listing order, not in completion order. Zip extraction and its error reports (process_all_las_files.py:173-184), and the exception branches of `load_csv_files`, are not modelled.
- LasProcessing.LasFileProcessor.GetWellInformation: the KeyError branch (a table without a KID column) is not modelled.
- LasMerge.MergeLasFilesWithNan: the `np.arange(min, max + 0.1, 0.1)` grid is a parameter `arange`. Building the lasio file from the columns is left out.
- StableSort.SortBy: a stable insertion sort. `list.sort` is stable too, but `sort_values` (project_manager.py:615) defaults to quicksort, which may order equal starts differently.
- ProjectManagement.ProjectManager.PrepareData: the regrouping through `standardized_curve_mapping` (the Cali maximum, other curves copied) and the final `dropna` (project_manager.py:585-603, 657-658) are not modelled. The prepared data holds the outlier-filtered curves and the Formation column.
- ProjectManagement.ProjectManager.PrepareData: a well whose stored formations are the raw rows of a failed parse, or an empty list (a file without ~Other tops), stops the loop with an error. The empty list gives object-dtype columns that `IntervalIndex.from_arrays` refuses with TypeError; the model records the failure, not the exception's text.
- Text.TitleAt, Text.Words, Text.Lower, Text.IsSpace: strings are handled as ASCII. Python's Unicode case mapping and Unicode whitespace are not modelled, so non-ASCII letters are never re-cased and non-ASCII blanks never split or strip; this touches the 'nan' and 'base' tests, `title()` of field and well names, and `split()`/`strip()`.
- Outlier detection is not modelled: `detect_all_outliers`, the detectors (z-score, IQR, IsolationForest, DBSCAN, LOF) and `descriptive_statistics`. A detector is a function parameter of `ProcessCurve`, and the detected outliers are an input list per method.
- SplitData.SplitWellsByPrediction: `random.shuffle` is CPython's Fisher–Yates with the k-th random draw given by a parameter `draw`, and `random.seed` is not modelled. `int(n * 0.2)` is taken as n / 5, which differs from the float product only by rounding.
- SplitData.FilterWellsByCurves: the matrix is a map from well to row, not a DataFrame with row order. `missing_curves` is computed and discarded in the source, so it is not modelled.
- DownloadLasFiles.ProgressBar: the colour gradient, padding and terminal writes are left out; only which blocks are coloured and the final newline are modelled. The downloads themselves (urllib, retries) are not modelled.
- Plotting, widgets and UI code are not modelled (matplotlib, seaborn, ipywidgets).
- `unzip_files_KGS` and the commented-out alternatives are not modelled.
- AdjustLas.AdjustDocument: exceptions inside `update_las` are modelled by cause, and the message text of `str(e)` is not modelled.
