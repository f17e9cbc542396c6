/**
 * Reading the formation tops back from the ~Other section of a LAS file: the line scan of
 * `ProjectManager.extract_formation_data`, and the round trip with the block that
 * `get_formation_information` writes.
 */
module FormationParse {
  import opened Wrappers
  import opened Text
  import opened LasTypes
  import LasProcessing

  /** A formation read from the ~Other section: its stripped name, its top, and its base (None for 'nan'). */
  datatype FormationRow = FormationRow(formation: string, top: real, base: Option<real>)

  /** A depth field: the text 'nan' in any case, a number, or text `float` rejects. */
  datatype DepthText = NanText | Depth(x: real) | Unreadable

  /** `float(x) if x.lower() != 'nan' else None`, with Unreadable where `float` raises ValueError. */
  function ReadDepth(field: string, nt: NumberText): DepthText {
    if Lower(field) == "nan" then NanText
    else match nt.read(field)
      case Some(x) => Depth(x)
      case None => Unreadable
  }

  const OtherTag := "~Other"
  const SectionTag := "~"

  /** A line that opens the ~Other section: `line.strip().startswith('~Other')` (see `LeadsWithStrip`). */
  predicate IsOtherHeader(line: string) {
    LeadsWith(line, OtherTag)
  }

  /** A line that opens any other section and so ends the ~Other one. */
  predicate IsNextSection(line: string) {
    LeadsWith(line, SectionTag) && !IsOtherHeader(line)
  }

  /** What one line inside the ~Other section yields. */
  datatype LineRead = Skip | Row(row: FormationRow) | BadNumber(text: string)

  /**
   * A non-blank stripped line of the section: lines without exactly three comma fields and the
   * 'base' header are skipped; fields are base, top, name; a row whose top is 'nan' is dropped;
   * text that is not a number stops the scan (base is read first).
   */
  function ReadFields(s: string, nt: NumberText): LineRead {
    var parts := Split(s, ',');
    if |parts| != 3 || Lower(parts[0]) == "base" then Skip
    else
      var base := ReadDepth(parts[0], nt);
      var top := ReadDepth(parts[1], nt);
      if base.Unreadable? then BadNumber(parts[0])
      else if top.Unreadable? then BadNumber(parts[1])
      else if top.NanText? then Skip
      else Row(FormationRow(Strip(parts[2]), top.x, if base.Depth? then Some(base.x) else None))
  }

  /** One line inside the section: blank lines and repeated ~Other lines are skipped. */
  function ReadLine(line: string, nt: NumberText): LineRead {
    var s := Strip(line);
    if IsOtherHeader(line) || s == "" then Skip else ReadFields(s, nt)
  }

  /** The rows read so far, and the text of the number that could not be read, if any. */
  datatype Reading = Reading(rows: seq<FormationRow>, error: Option<string>)

  /** The rows after one more line of the section. */
  function NextReading(rows: seq<FormationRow>, r: LineRead): Reading {
    match r
    case Skip => Reading(rows, None)
    case Row(row) => Reading(rows + [row], None)
    case BadNumber(text) => Reading(rows, Some(text))
  }

  /** `f` applied to each element of `xs` from index `j` on. */
  function MapFrom<A, B>(f: A -> B, xs: seq<A>, j: nat): (ys: seq<B>)
    requires j <= |xs|
    ensures |ys| == |xs| - j
    decreases |xs| - j
  {
    if j == |xs| then [] else [f(xs[j])] + MapFrom(f, xs, j + 1)
  }

  lemma {:induction false} MapFromAt<A, B>(f: A -> B, xs: seq<A>, j: nat, i: nat)
    requires j <= i < |xs|
    ensures MapFrom(f, xs, j)[i - j] == f(xs[i])
    decreases i - j
  {
    if j < i {
      MapFromAt(f, xs, j + 1, i);
    }
  }

  /** What each line yields, line by line. */
  function LineReads(lines: seq<string>, nt: NumberText): (outcomes: seq<LineRead>)
    ensures |outcomes| == |lines|
  {
    MapFrom(line => ReadLine(line, nt), lines, 0)
  }

  /** What line `i` yields. */
  lemma LineReadsAt(lines: seq<string>, nt: NumberText, i: nat)
    requires i < |lines|
    ensures LineReads(lines, nt)[i] == ReadLine(lines[i], nt)
  {
    MapFromAt(line => ReadLine(line, nt), lines, 0, i);
  }

  /** The rows of the lines `lo..hi`, given what each line yields; reading stops at the first unreadable number. */
  function ReadRows(outcomes: seq<LineRead>, lo: nat, hi: nat): (r: Reading)
    requires lo <= hi <= |outcomes|
    decreases hi - lo
  {
    if hi == lo then Reading([], None)
    else
      var prev := ReadRows(outcomes, lo, hi - 1);
      if prev.error.Some? then prev else NextReading(prev.rows, outcomes[hi - 1])
  }

  /** Once a number could not be read, later lines change nothing. */
  lemma {:induction false} ReadRowsStops(outcomes: seq<LineRead>, lo: nat, k: nat, hi: nat)
    requires lo <= k <= hi <= |outcomes|
    requires ReadRows(outcomes, lo, k).error.Some?
    ensures ReadRows(outcomes, lo, hi) == ReadRows(outcomes, lo, k)
    decreases hi - k
  {
    if k < hi {
      ReadRowsStops(outcomes, lo, k, hi - 1);
    }
  }

  /** One more line read after an error-free prefix. */
  lemma ReadRowsNext(outcomes: seq<LineRead>, lo: nat, hi: nat, rows: seq<FormationRow>)
    requires lo <= hi < |outcomes|
    requires ReadRows(outcomes, lo, hi) == Reading(rows, None)
    ensures ReadRows(outcomes, lo, hi + 1) == NextReading(rows, outcomes[hi])
  {
  }

  /** Index of the first ~Other line at or after `j`, `|lines|` when there is none. */
  function OtherFrom(lines: seq<string>, j: nat): (i: nat)
    requires j <= |lines|
    ensures j <= i <= |lines|
    ensures i < |lines| ==> IsOtherHeader(lines[i])
    ensures forall k :: j <= k < i ==> !IsOtherHeader(lines[k])
    decreases |lines| - j
  {
    if j == |lines| || IsOtherHeader(lines[j]) then j else OtherFrom(lines, j + 1)
  }

  /** Index of the first line at or after `j` that opens another section, `|lines|` when there is none. */
  function NextSectionFrom(lines: seq<string>, j: nat): (e: nat)
    requires j <= |lines|
    ensures j <= e <= |lines|
    ensures e < |lines| ==> IsNextSection(lines[e])
    ensures forall k :: j <= k < e ==> !IsNextSection(lines[k])
    decreases |lines| - j
  {
    if j == |lines| || IsNextSection(lines[j]) then j else NextSectionFrom(lines, j + 1)
  }

  /**
   * The formation rows of a LAS file given as its lines: those of the lines strictly between
   * the first ~Other line and the next section line.
   */
  function ReadOther(lines: seq<string>, nt: NumberText): Reading {
    var start := OtherFrom(lines, 0);
    if start == |lines| then Reading([], None)
    else ReadRows(LineReads(lines, nt), start + 1, NextSectionFrom(lines, start + 1))
  }

  /** The loop body of extract_formation_data for a line inside the section. */
  method ReadSectionLine(rows: seq<FormationRow>, line: string, nt: NumberText) returns (rows': seq<FormationRow>, error: Option<string>)
    requires !IsOtherHeader(line)
    ensures Reading(rows', error) == NextReading(rows, ReadLine(line, nt))
  {
    rows', error := rows, None;
    var s := Strip(line);
    if s != "" {
      var parts := Split(s, ',');
      if |parts| == 3 && Lower(parts[0]) != "base" {
        var base := ReadDepth(parts[0], nt);
        if base.Unreadable? {
          return rows, Some(parts[0]);
        }
        var top := ReadDepth(parts[1], nt);
        if top.Unreadable? {
          return rows, Some(parts[1]);
        }
        if top.Depth? {
          rows' := rows + [FormationRow(Strip(parts[2]), top.x, if base.Depth? then Some(base.x) else None)];
        }
      }
    }
  }

  /** A line inside the section, read onto the rows read so far. */
  method ReadLineAt(lines: seq<string>, nt: NumberText, ghost lo: nat, i: nat, rows: seq<FormationRow>) returns (rows': seq<FormationRow>, error: Option<string>)
    requires lo <= i < |lines| && !IsOtherHeader(lines[i])
    requires ReadRows(LineReads(lines, nt), lo, i) == Reading(rows, None)
    ensures ReadRows(LineReads(lines, nt), lo, i + 1) == Reading(rows', error)
  {
    LineReadsAt(lines, nt, i);
    ReadRowsNext(LineReads(lines, nt), lo, i, rows);
    rows', error := ReadSectionLine(rows, lines[i], nt);
  }

  /**
   * The line scan of extract_formation_data: a flag is raised at a ~Other line, the scan stops at
   * the next section line, and each line in between is read; an unreadable number ends it early
   * with the rows appended so far.
   */
  method ReadOtherSection(lines: seq<string>, nt: NumberText) returns (rows: seq<FormationRow>, error: Option<string>)
    ensures Reading(rows, error) == ReadOther(lines, nt)
  {
    ghost var start := OtherFrom(lines, 0);
    ghost var end := if start < |lines| then NextSectionFrom(lines, start + 1) else |lines|;
    ghost var outcomes := LineReads(lines, nt);
    rows := [];
    error := None;
    var otherSection := false;
    var i := 0;
    while i < |lines|
      invariant 0 <= i <= |lines|
      invariant otherSection <==> start < i
      invariant start < i ==> i <= end
      invariant !otherSection ==> rows == []
      invariant error.None?
      invariant otherSection ==> ReadRows(outcomes, start + 1, i) == Reading(rows, None)
    {
      if IsOtherHeader(lines[i]) {
        LineReadsAt(lines, nt, i);
        otherSection := true;
      } else if otherSection && IsNextSection(lines[i]) {
        break;
      } else if otherSection {
        rows, error := ReadLineAt(lines, nt, start + 1, i, rows);
        if error.Some? {
          ReadRowsStops(outcomes, start + 1, i + 1, end);
          return;
        }
      }
      i := i + 1;
    }
  }

  // ---------------------------------------------------------------------------
  // Reading back what get_formation_information writes

  /** The characters of `str` of a finite float: digits, signs, the point and the exponent mark. */
  predicate NumberChar(c: char) {
    '0' <= c <= '9' || c == '+' || c == '-' || c == '.' || c == 'e'
  }

  /** `str(x)` is non-empty number text and `float(str(x)) == x`. */
  predicate ShowsBack(x: real, nt: NumberText) {
    var t := nt.show(x);
    t != [] && (forall i :: 0 <= i < |t| ==> NumberChar(t[i])) && nt.read(t) == Some(x)
  }

  /** A depth cell that is written as 'nan', or as float text that reads back as itself. */
  predicate DepthWritable(v: Value, nt: NumberText) {
    v.NaN? || (v.Number? && ShowsBack(v.x, nt))
  }

  /** A Tops_ row in the shape the block writes: depths are floats or NaN, the name is text without commas or newlines. */
  predicate Shaped(r: TopsRow) {
    (r.base.Number? || r.base.NaN?) && (r.top.Number? || r.top.NaN?) &&
    r.formation.Str? && ',' !in r.formation.s && '\n' !in r.formation.s
  }

  /** A Tops_ row whose line can be read back: it is shaped so, and both of its depths read back as themselves. */
  predicate Writable(r: TopsRow, nt: NumberText) {
    Shaped(r) && DepthWritable(r.base, nt) && DepthWritable(r.top, nt)
  }

  /** Rows each of whose lines can be read back. */
  predicate WritableRows(rows: seq<TopsRow>, nt: NumberText) {
    && (forall i :: 0 <= i < |rows| ==> Shaped(rows[i]))
    && (forall i :: 0 <= i < |rows| ==> DepthWritable(rows[i].base, nt) && DepthWritable(rows[i].top, nt))
  }

  /** The formation read back from the line of a row whose top is a float. */
  function ReadBack(r: TopsRow): FormationRow
    requires Shaped(r) && r.top.Number?
  {
    FormationRow(Strip(r.formation.s), r.top.x, if r.base.Number? then Some(r.base.x) else None)
  }

  /** The formations read back from the lines of the rows, in row order: those whose top is not NaN. */
  function ReadBackRows(rows: seq<TopsRow>): seq<FormationRow>
    requires forall i :: 0 <= i < |rows| ==> Shaped(rows[i])
  {
    if rows == [] then []
    else
      var last := rows[|rows| - 1];
      ReadBackRows(rows[..|rows| - 1]) + (if last.top.NaN? then [] else [ReadBack(last)])
  }

  /** A written depth reads back as itself, and its text can neither start a section nor be mistaken for a field. */
  lemma ReadDepthBack(v: Value, nt: NumberText)
    requires DepthWritable(v, nt)
    ensures ReadDepth(Render(v, nt), nt) == if v.Number? then Depth(v.x) else NanText
    ensures Lower(Render(v, nt)) != "base"
    ensures Render(v, nt) != [] && !IsSpace(Render(v, nt)[0]) && Render(v, nt)[0] != '~'
    ensures ',' !in Render(v, nt) && '\n' !in Render(v, nt)
  {
    var s := Render(v, nt);
    if v.Number? {
      assert NumberChar(s[0]);
      assert Lower(s)[0] == s[0];
      assert forall i :: 0 <= i < |s| ==> NumberChar(s[i]);
    } else {
      assert Lower(s) == "nan";
    }
  }

  /** A text made of three comma-free fields splits back into them. */
  lemma SplitThree(a: string, b: string, c: string)
    requires ',' !in a && ',' !in b && ',' !in c
    ensures Split(a + "," + b + "," + c, ',') == [a, b, c]
  {
    var parts := [a, b, c];
    assert parts[1..] == [b, c];
    assert parts[1..][1..] == [c];
    assert Join([c], ',') == c;
    assert Join([b, c], ',') == b + [','] + c;
    assert Join(parts, ',') == a + [','] + (b + [','] + c);
    assert a + "," + b + "," + c == a + [','] + (b + [','] + c);
    SplitJoin(parts, ',');
  }

  /** A line whose first character is neither whitespace nor the tag's first character does not lead with the tag. */
  lemma NotLeadsWith(s: string, p: string)
    requires s != [] && p != [] && !IsSpace(s[0]) && s[0] != p[0]
    ensures !LeadsWith(s, p)
  {
  }

  /** A line starting with neither whitespace nor '~' opens no section. */
  lemma NoSectionLine(line: string)
    requires line != [] && !IsSpace(line[0]) && line[0] != '~'
    ensures !IsOtherHeader(line) && !IsNextSection(line)
  {
    NotLeadsWith(line, OtherTag);
    NotLeadsWith(line, SectionTag);
  }

  /** A line that is not a section line and not blank is read by its comma fields. */
  lemma ReadLineFields(line: string, nt: NumberText)
    requires !IsOtherHeader(line) && Strip(line) != ""
    ensures ReadLine(line, nt) == ReadFields(Strip(line), nt)
  {
  }

  /** The header line is its three field names joined by commas. */
  lemma HeaderFields()
    ensures Split(LasProcessing.FormationHeader, ',') == ["BASE", "TOP", "FORMATION"]
  {
    assert LasProcessing.FormationHeader == "BASE" + "," + "TOP" + "," + "FORMATION";
    SplitThree("BASE", "TOP", "FORMATION");
  }

  /** Its first field name is 'base' in any case. */
  lemma BaseField()
    ensures Lower("BASE") == "base"
  {
    var l := Lower("BASE");
    assert l[0] == LowerChar('B') == 'b';
    assert l[1] == LowerChar('A') == 'a';
    assert l[2] == LowerChar('S') == 's';
    assert l[3] == LowerChar('E') == 'e';
  }

  /** The header line of the block does not end the section. */
  lemma HeaderNoSection()
    ensures !IsOtherHeader(LasProcessing.FormationHeader) && !IsNextSection(LasProcessing.FormationHeader)
  {
    NoSectionLine(LasProcessing.FormationHeader);
  }

  /** The header line of the block is read as nothing. */
  lemma ReadHeaderLine(nt: NumberText)
    ensures ReadLine(LasProcessing.FormationHeader, nt) == Skip
  {
    var h := LasProcessing.FormationHeader;
    NoSectionLine(h);
    StripKeeps(h);
    ReadLineFields(h, nt);
    HeaderFieldsSkipped(nt);
  }

  /** The header's fields are skipped: its first field is 'base'. */
  lemma HeaderFieldsSkipped(nt: NumberText)
    ensures ReadFields(LasProcessing.FormationHeader, nt) == Skip
  {
    HeaderFields();
    BaseField();
  }

  /** Fields written from a writable row are read as that row. */
  lemma ReadFieldsBack(r: TopsRow, u: string, nt: NumberText)
    requires Writable(r, nt) && ',' !in u
    ensures ReadFields(Render(r.base, nt) + "," + Render(r.top, nt) + "," + u, nt) ==
            if r.top.NaN? then Skip else Row(FormationRow(Strip(u), r.top.x, if r.base.Number? then Some(r.base.x) else None))
  {
    var b, t := Render(r.base, nt), Render(r.top, nt);
    ReadDepthBack(r.base, nt);
    ReadDepthBack(r.top, nt);
    SplitThree(b, t, u);
    ReadThreeFields(b, t, u, nt);
  }

  /** Three comma-free fields whose first is not 'base' are read by their depths. */
  lemma ReadThreeFields(b: string, t: string, u: string, nt: NumberText)
    requires Split(b + "," + t + "," + u, ',') == [b, t, u] && Lower(b) != "base"
    ensures ReadFields(b + "," + t + "," + u, nt) ==
      var base := ReadDepth(b, nt);
      var top := ReadDepth(t, nt);
      if base.Unreadable? then BadNumber(b)
      else if top.Unreadable? then BadNumber(t)
      else if top.NanText? then Skip
      else Row(FormationRow(Strip(u), top.x, if base.Depth? then Some(base.x) else None))
  {
  }

  /** The stripped line of a row: its trailing whitespace goes, nothing else. */
  lemma StripFormationLine(r: TopsRow, nt: NumberText)
    requires Writable(r, nt)
    ensures Strip(LasProcessing.FormationLine(r, nt)) ==
            Render(r.base, nt) + "," + Render(r.top, nt) + "," + TrimEnd(r.formation.s, IsSpace)
  {
    var b, t, s := Render(r.base, nt), Render(r.top, nt), r.formation.s;
    ReadDepthBack(r.base, nt);
    var line := LasProcessing.FormationLine(r, nt);
    var p := b + "," + t + ",";
    assert line == p + s;
    assert line[0] == b[0];
    assert PrefixRun(line, IsSpace) == 0;
    assert TrimStart(line, IsSpace) == line;
    TrimEndAfter(p, s);
  }

  /** The line of a writable row is read as that row (nothing when its top is NaN) and does not end the section. */
  lemma ReadFormationLine(r: TopsRow, nt: NumberText)
    requires Writable(r, nt)
    ensures !IsOtherHeader(LasProcessing.FormationLine(r, nt)) && !IsNextSection(LasProcessing.FormationLine(r, nt))
    ensures ReadLine(LasProcessing.FormationLine(r, nt), nt) == RowRead(r)
  {
    FormationLineNoSection(r, nt);
    FormationLineRead(r, nt);
  }

  lemma FormationLineNoSection(r: TopsRow, nt: NumberText)
    requires Writable(r, nt)
    ensures !IsOtherHeader(LasProcessing.FormationLine(r, nt)) && !IsNextSection(LasProcessing.FormationLine(r, nt))
  {
    var line := LasProcessing.FormationLine(r, nt);
    ReadDepthBack(r.base, nt);
    assert line[0] == Render(r.base, nt)[0];
    NoSectionLine(line);
  }

  lemma FormationLineRead(r: TopsRow, nt: NumberText)
    requires Writable(r, nt)
    ensures ReadLine(LasProcessing.FormationLine(r, nt), nt) == RowRead(r)
  {
    var line := LasProcessing.FormationLine(r, nt);
    var s := r.formation.s;
    var u := TrimEnd(s, IsSpace);
    StripFormationLine(r, nt);
    assert ReadLine(line, nt) == ReadFields(Strip(line), nt) by {
      FormationLineNoSection(r, nt);
      ReadLineFields(line, nt);
    }
    TrimEndKeepsOut(s, ',');
    ReadFieldsBack(r, u, nt);
    StripTrimEnd(s);
  }

  /** Dropping trailing whitespace adds no character. */
  lemma TrimEndKeepsOut(s: string, c: char)
    requires c !in s
    ensures c !in TrimEnd(s, IsSpace)
  {
    var u := TrimEnd(s, IsSpace);
    assert forall i :: 0 <= i < |u| ==> u[i] == s[i];
  }

  /** The first ~Other line is found where it is. */
  lemma OtherFromAt(lines: seq<string>, i: nat)
    requires i < |lines| && IsOtherHeader(lines[i])
    requires forall k :: 0 <= k < i ==> !IsOtherHeader(lines[k])
    ensures OtherFrom(lines, 0) == i
  {
  }

  /** The next section line is found where it is, or the end when there is none. */
  lemma NextSectionFromAt(lines: seq<string>, j: nat, e: nat)
    requires j <= e <= |lines|
    requires e < |lines| ==> IsNextSection(lines[e])
    requires forall k :: j <= k < e ==> !IsNextSection(lines[k])
    ensures NextSectionFrom(lines, j) == e
  {
  }

  /** Nothing in the rows' lines holds a newline. */
  lemma WritableSingleLine(rows: seq<TopsRow>, nt: NumberText)
    requires WritableRows(rows, nt)
    ensures forall i :: 0 <= i < |rows| ==> LasProcessing.SingleLine(rows[i], nt)
  {
    forall i | 0 <= i < |rows| ensures LasProcessing.SingleLine(rows[i], nt) {
      ReadDepthBack(rows[i].base, nt);
      ReadDepthBack(rows[i].top, nt);
    }
  }

  /** What reading the line of a writable row yields: nothing when its top is NaN. */
  function RowRead(r: TopsRow): LineRead
    requires Shaped(r)
  {
    if r.top.NaN? then Skip else Row(ReadBack(r))
  }

  /** Reading a skipped header line and then the lines of the first `k` rows. */
  lemma {:induction false} ReadBlockRows(outcomes: seq<LineRead>, lo: nat, rows: seq<TopsRow>, k: nat)
    requires forall i :: 0 <= i < |rows| ==> Shaped(rows[i])
    requires k <= |rows| && lo + 1 + |rows| <= |outcomes|
    requires outcomes[lo] == Skip
    requires forall i :: 0 <= i < |rows| ==> outcomes[lo + 1 + i] == RowRead(rows[i])
    ensures ReadRows(outcomes, lo, lo + 1 + k) == Reading(ReadBackRows(rows[..k]), None)
  {
    if k == 0 {
      assert ReadRows(outcomes, lo, lo) == Reading([], None);
    } else {
      ReadBlockRows(outcomes, lo, rows, k - 1);
      ReadRowsNext(outcomes, lo, lo + k, ReadBackRows(rows[..k - 1]));
      assert outcomes[lo + k] == RowRead(rows[k - 1]);
      ReadBackRowsSnoc(rows, k);
    }
  }

  lemma ReadBackRowsSnoc(rows: seq<TopsRow>, k: nat)
    requires forall i :: 0 <= i < |rows| ==> Shaped(rows[i])
    requires 0 < k <= |rows|
    ensures ReadBackRows(rows[..k]) ==
      ReadBackRows(rows[..k - 1]) + (if rows[k - 1].top.NaN? then [] else [ReadBack(rows[k - 1])])
  {
    assert rows[..k][..k - 1] == rows[..k - 1];
  }

  /** Each row line of the block is read as its row. */
  lemma RowOutcomes(lines: seq<string>, lo: nat, rows: seq<TopsRow>, nt: NumberText)
    requires WritableRows(rows, nt)
    requires lo + 1 + |rows| <= |lines|
    requires forall i :: 0 <= i < |rows| ==> lines[lo + 1 + i] == LasProcessing.FormationLine(rows[i], nt)
    ensures forall i :: 0 <= i < |rows| ==> LineReads(lines, nt)[lo + 1 + i] == RowRead(rows[i])
  {
    forall i | 0 <= i < |rows| ensures LineReads(lines, nt)[lo + 1 + i] == RowRead(rows[i]) {
      LineReadsAt(lines, nt, lo + 1 + i);
      ReadFormationLine(rows[i], nt);
    }
  }

  /** The ~Other line opens the section; the empty line after the block is read as nothing. */
  lemma TagLines()
    ensures IsOtherHeader(OtherTag) && !IsNextSection("")
  {
    assert StartsWith(OtherTag, OtherTag);
  }

  /** The empty line after the block is read as nothing. */
  lemma ReadEmptyLine(nt: NumberText)
    ensures ReadLine("", nt) == Skip
  {
    assert Strip("") == "";
  }

  /** No line written for a row opens a section. */
  lemma RowLinesNoSection(lines: seq<string>, from: nat, rows: seq<TopsRow>, nt: NumberText)
    requires WritableRows(rows, nt)
    requires from + |rows| <= |lines|
    requires forall i :: 0 <= i < |rows| ==> lines[from + i] == LasProcessing.FormationLine(rows[i], nt)
    ensures forall k :: from <= k < from + |rows| ==> !IsNextSection(lines[k])
  {
    forall k | from <= k < from + |rows| ensures !IsNextSection(lines[k]) {
      ReadFormationLine(rows[k - from], nt);
    }
  }

  /** Line `lo` holds the block's header line, the next lines hold the lines of the rows, and an empty line follows. */
  predicate BlockAt(lines: seq<string>, lo: nat, rows: seq<TopsRow>, nt: NumberText) {
    lo + 2 + |rows| <= |lines| && lines[lo] == LasProcessing.FormationHeader && lines[lo + 1 + |rows|] == "" &&
    forall i :: 0 <= i < |rows| ==> lines[lo + 1 + i] == LasProcessing.FormationLine(rows[i], nt)
  }

  /** The ~Other section of lines that hold, after the first ~Other line, the block of the rows and then another section or the end. */
  lemma BlockBounds(lines: seq<string>, lo: nat, rows: seq<TopsRow>, nt: NumberText)
    requires WritableRows(rows, nt)
    requires 1 <= lo && BlockAt(lines, lo, rows, nt)
    requires IsOtherHeader(lines[lo - 1]) && forall k :: 0 <= k < lo - 1 ==> !IsOtherHeader(lines[k])
    requires lo + 2 + |rows| < |lines| ==> IsNextSection(lines[lo + 2 + |rows|])
    ensures OtherFrom(lines, 0) == lo - 1 && NextSectionFrom(lines, lo) == lo + 2 + |rows|
  {
    OtherFromAt(lines, lo - 1);
    HeaderNoSection();
    TagLines();
    RowLinesNoSection(lines, lo + 1, rows, nt);
    NextSectionFromAt(lines, lo, lo + 2 + |rows|);
  }

  /** What the lines of the block yield: nothing for the header and the empty line, each row for its line. */
  lemma BlockOutcomes(lines: seq<string>, lo: nat, rows: seq<TopsRow>, nt: NumberText)
    requires WritableRows(rows, nt)
    requires BlockAt(lines, lo, rows, nt)
    ensures LineReads(lines, nt)[lo] == Skip && LineReads(lines, nt)[lo + 1 + |rows|] == Skip
    ensures forall i :: 0 <= i < |rows| ==> LineReads(lines, nt)[lo + 1 + i] == RowRead(rows[i])
  {
    LineReadsAt(lines, nt, lo);
    ReadHeaderLine(nt);
    LineReadsAt(lines, nt, lo + 1 + |rows|);
    ReadEmptyLine(nt);
    RowOutcomes(lines, lo, rows, nt);
  }

  /** Reading the whole block, up to and including the empty line after it. */
  lemma ReadBlock(lines: seq<string>, lo: nat, rows: seq<TopsRow>, nt: NumberText)
    requires WritableRows(rows, nt)
    requires BlockAt(lines, lo, rows, nt)
    ensures ReadRows(LineReads(lines, nt), lo, lo + 2 + |rows|) == Reading(ReadBackRows(rows), None)
  {
    BlockOutcomes(lines, lo, rows, nt);
    ReadBlockOutcomes(LineReads(lines, nt), lo, rows);
  }

  /** Reading the outcomes of a block: the skipped header, one outcome per row, and the skipped empty line. */
  lemma ReadBlockOutcomes(outcomes: seq<LineRead>, lo: nat, rows: seq<TopsRow>)
    requires forall i :: 0 <= i < |rows| ==> Shaped(rows[i])
    requires lo + 2 + |rows| <= |outcomes|
    requires outcomes[lo] == Skip && outcomes[lo + 1 + |rows|] == Skip
    requires forall i :: 0 <= i < |rows| ==> outcomes[lo + 1 + i] == RowRead(rows[i])
    ensures ReadRows(outcomes, lo, lo + 2 + |rows|) == Reading(ReadBackRows(rows), None)
  {
    ReadBlockRows(outcomes, lo, rows, |rows|);
    assert rows[..|rows|] == rows;
    ReadRowsNext(outcomes, lo, lo + 1 + |rows|, ReadBackRows(rows));
  }

  /** The scan reads the lines strictly between the ~Other line and the next section line. */
  lemma ReadOtherAt(lines: seq<string>, nt: NumberText, start: nat, end: nat)
    requires start < |lines| && OtherFrom(lines, 0) == start
    requires start + 1 <= end <= |lines| && NextSectionFrom(lines, start + 1) == end
    ensures ReadOther(lines, nt) == ReadRows(LineReads(lines, nt), start + 1, end)
  {
  }

  /** Where the parts of `before + [x] + block + after` sit. */
  lemma Layout<T>(s: seq<T>, before: seq<T>, x: T, block: seq<T>, after: seq<T>)
    requires s == before + [x] + block + after
    ensures |s| == |before| + 1 + |block| + |after| && s[|before|] == x
    ensures forall i :: 0 <= i < |before| ==> s[i] == before[i]
    ensures forall i :: 0 <= i < |block| ==> s[|before| + 1 + i] == block[i]
    ensures forall i :: 0 <= i < |after| ==> s[|before| + 1 + |block| + i] == after[i]
  {
  }

  /** The scan over lines whose first ~Other line is followed by the block of the rows and then another section or the end. */
  lemma ReadOtherBlock(lines: seq<string>, lo: nat, rows: seq<TopsRow>, nt: NumberText)
    requires WritableRows(rows, nt)
    ensures OtherBlockAt(lines, lo, rows, nt) ==> ReadOther(lines, nt) == Reading(ReadBackRows(rows), None)
  {
    if OtherBlockAt(lines, lo, rows, nt) {
      ReadOtherBlockBounds(lines, lo, rows, nt);
      ReadBlock(lines, lo, rows, nt);
    }
  }

  /** The scan over such lines reads exactly the block. */
  lemma ReadOtherBlockBounds(lines: seq<string>, lo: nat, rows: seq<TopsRow>, nt: NumberText)
    requires WritableRows(rows, nt)
    requires 1 <= lo && BlockAt(lines, lo, rows, nt)
    requires IsOtherHeader(lines[lo - 1]) && forall k :: 0 <= k < lo - 1 ==> !IsOtherHeader(lines[k])
    requires lo + 2 + |rows| < |lines| ==> IsNextSection(lines[lo + 2 + |rows|])
    ensures ReadOther(lines, nt) == ReadRows(LineReads(lines, nt), lo, lo + 2 + |rows|)
  {
    BlockBounds(lines, lo, rows, nt);
    ReadOtherAt(lines, nt, lo - 1, lo + 2 + |rows|);
  }

  /** The lines of a file whose ~Other section holds the block of the rows. */
  lemma OtherLayout(before: seq<string>, block: seq<string>, after: seq<string>, rows: seq<TopsRow>, nt: NumberText)
    requires forall i :: 0 <= i < |before| ==> !IsOtherHeader(before[i])
    requires after == [] || IsNextSection(after[0])
    requires |block| == |rows| + 2 && block[0] == LasProcessing.FormationHeader && block[|rows| + 1] == ""
    requires forall i :: 0 <= i < |rows| ==> block[1 + i] == LasProcessing.FormationLine(rows[i], nt)
    ensures OtherBlockAt(before + [OtherTag] + block + after, |before| + 1, rows, nt)
  {
    var lines := before + [OtherTag] + block + after;
    var lo := |before| + 1;
    Layout(lines, before, OtherTag, block, after);
    TagLines();
    assert lines[lo + 1 + |rows|] == block[|rows| + 1];
  }

  /** The scan over a file whose ~Other section holds the lines of the block and is followed by another section or the end. */
  lemma ReadOtherLayout(before: seq<string>, block: seq<string>, after: seq<string>, rows: seq<TopsRow>, nt: NumberText)
    requires WritableRows(rows, nt)
    requires forall i :: 0 <= i < |before| ==> !IsOtherHeader(before[i])
    requires after == [] || IsNextSection(after[0])
    requires |block| == |rows| + 2 && block[0] == LasProcessing.FormationHeader && block[|rows| + 1] == ""
    requires forall i :: 0 <= i < |rows| ==> block[1 + i] == LasProcessing.FormationLine(rows[i], nt)
    ensures ReadOther(before + [OtherTag] + block + after, nt) == Reading(ReadBackRows(rows), None)
  {
    var lines := before + [OtherTag] + block + after;
    assert OtherBlockAt(lines, |before| + 1, rows, nt) ==> ReadOther(lines, nt) == Reading(ReadBackRows(rows), None) by {
      ReadOtherBlock(lines, |before| + 1, rows, nt);
    }
    OtherLayout(before, block, after, rows, nt);
  }

  /** The ~Other section opens just before line `lo` and holds the block of the rows, then another section or the end. */
  predicate OtherBlockAt(lines: seq<string>, lo: nat, rows: seq<TopsRow>, nt: NumberText) {
    && 1 <= lo && BlockAt(lines, lo, rows, nt)
    && IsOtherHeader(lines[lo - 1]) && (forall k :: 0 <= k < lo - 1 ==> !IsOtherHeader(lines[k]))
    && (lo + 2 + |rows| < |lines| ==> IsNextSection(lines[lo + 2 + |rows|]))
  }

  /** The block written for writable rows, cut at its newlines: the header line, the rows' lines, and an empty tail. */
  lemma BlockText(rows: seq<TopsRow>, nt: NumberText)
    requires WritableRows(rows, nt)
    ensures var block := Split(LasProcessing.FormationBlock(rows, nt), '\n');
      |block| == |rows| + 2 && block[0] == LasProcessing.FormationHeader && block[|rows| + 1] == "" &&
      forall i :: 0 <= i < |rows| ==> block[1 + i] == LasProcessing.FormationLine(rows[i], nt)
  {
    WritableSingleLine(rows, nt);
    LasProcessing.FormationBlockLines(rows, nt);
  }

  /**
   * Round trip: when the ~Other section of a file holds the block written for the rows and is
   * followed by another section or the end, the scan reads back each row whose top is a float,
   * in order, and no error.
   */
  lemma OtherSectionRoundTrip(before: seq<string>, rows: seq<TopsRow>, after: seq<string>, nt: NumberText)
    requires WritableRows(rows, nt)
    requires forall i :: 0 <= i < |before| ==> !IsOtherHeader(before[i])
    requires after == [] || IsNextSection(after[0])
    ensures ReadOther(before + [OtherTag] + Split(LasProcessing.FormationBlock(rows, nt), '\n') + after, nt) ==
            Reading(ReadBackRows(rows), None)
  {
    BlockText(rows, nt);
    ReadOtherLayout(before, Split(LasProcessing.FormationBlock(rows, nt), '\n'), after, rows, nt);
  }

  /** A float text conversion that prints 1200.0 as "1200.0" and reads it back. */
  const SampleText := NumberText(x => if x == 1200.0 then "1200.0" else "0.0",
                                 t => if t == "1200.0" then Some(1200.0) else None)

  /** A Lansing top at 1200.0 with no base. */
  const SampleRows := [TopsRow(1, Number(1200.0), NaN, Str("Lansing"))]

  /** The sample row's line can be read back. */
  lemma SampleWritable()
    ensures WritableRows(SampleRows, SampleText)
  {
    var t := SampleText.show(1200.0);
    assert t == "1200.0";
    assert forall i :: 0 <= i < |t| ==> NumberChar(t[i]);
    assert ShowsBack(1200.0, SampleText);
  }

  /** The sample row reads back as the Lansing formation. */
  lemma SampleReadBack()
    ensures ReadBackRows(SampleRows) == [FormationRow("Lansing", 1200.0, None)]
  {
    var r := SampleRows[0];
    var name := "Lansing";
    assert forall i :: 0 <= i < |name| ==> 'A' <= name[i] <= 'z';
    assert Shaped(r);
    StripKeeps(name);
    assert ReadBack(r) == FormationRow("Lansing", 1200.0, None);
    assert SampleRows[..|SampleRows| - 1] == [];
    assert ReadBackRows(SampleRows) == ReadBackRows([]) + [ReadBack(r)];
  }

  /** A file made of the ~Other line and the block written for the rows. */
  lemma OtherOnlyRoundTrip(rows: seq<TopsRow>, nt: NumberText)
    requires WritableRows(rows, nt)
    ensures ReadOther([OtherTag] + Split(LasProcessing.FormationBlock(rows, nt), '\n'), nt) == Reading(ReadBackRows(rows), None)
  {
    var block := Split(LasProcessing.FormationBlock(rows, nt), '\n');
    OtherSectionRoundTrip([], rows, [], nt);
    assert [] + [OtherTag] + block + [] == [OtherTag] + block;
  }

  /**
   * The round trip on one file: a ~Other section holding the block written for a Lansing top at
   * 1200.0 with no base is read back as that formation.
   */
  lemma OtherSectionExample()
    ensures ReadOther([OtherTag] + Split(LasProcessing.FormationBlock(SampleRows, SampleText), '\n'), SampleText) ==
            Reading([FormationRow("Lansing", 1200.0, None)], None)
  {
    SampleWritable();
    OtherOnlyRoundTrip(SampleRows, SampleText);
    SampleReadBack();
  }
}
