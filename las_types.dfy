/**
 * The shapes the LAS pipeline works on: cells of the reference tables (Wells_, Logs_,
 * Tops_ and the LAS_ index), header items, curves, and a LAS document.
 */
module LasTypes {
  import opened Wrappers
  import opened Text

  /** The well identity key of the Kansas reference tables. */
  type Kid = int

  /** A table cell or a header value as Python holds it: None, NaN, a float, an int or a str. */
  datatype Value = Null | NaN | Number(x: real) | Int(i: int) | Str(s: string)

  /**
   * The two numeric text conversions the pipeline leaves to Python: `show` is `str(x)` of a
   * float, `read` is `float(text)`, with None where `float` raises ValueError.
   */
  datatype NumberText = NumberText(show: real -> string, read: string -> Option<real>)

  /** Python's `str(v)`, as an f-string renders a cell. */
  function Render(v: Value, nt: NumberText): string {
    match v
    case Null => "None"
    case NaN => "nan"
    case Number(x) => nt.show(x)
    case Int(i) => IntText(i)
    case Str(s) => s
  }

  /** f"{kid}" for a KID that may be missing (None). */
  function KidText(kid: Option<Kid>): string {
    match kid
    case Some(k) => IntText(k)
    case None => "None"
  }

  /** One row of the Wells_ or Logs_ table: its KID and its other columns by name. */
  datatype Record = Record(kid: Kid, cells: map<string, Value>)

  /** One row of the LAS_ index table: which LAS file belongs to which KID. */
  datatype IndexRow = IndexRow(kid: Kid, lasFile: string)

  /** One row of the Tops_ table. */
  datatype TopsRow = TopsRow(kid: Kid, top: Value, base: Value, formation: Value)

  /** The rows of a table whose KID equals `kid` (none when `kid` is None), in table order. */
  function RowsFor(table: seq<Record>, kid: Option<Kid>): (r: seq<Record>)
    ensures |r| <= |table|
    ensures forall i :: 0 <= i < |r| ==> Some(r[i].kid) == kid
    ensures (r == []) <==> (forall i :: 0 <= i < |table| ==> Some(table[i].kid) != kid)
  {
    if table == [] then []
    else (if Some(table[0].kid) == kid then [table[0]] else []) + RowsFor(table[1..], kid)
  }

  /** `df[df['KID'] == kid].iloc[0]`: the first row with that KID, None when there is none. */
  function FirstRecord(table: seq<Record>, kid: Option<Kid>): (r: Option<Record>)
    ensures r.None? <==> RowsFor(table, kid) == []
    ensures r.Some? ==> r.value == RowsFor(table, kid)[0] && r.value in table
  {
    if table == [] then None
    else if Some(table[0].kid) == kid then Some(table[0])
    else FirstRecord(table[1..], kid)
  }

  /** A header item of a LAS section. */
  datatype HeaderItem = HeaderItem(mnemonic: string, unit: string, value: Value, descr: string)

  /** A curve: its header fields and one sample per depth (None for NaN). */
  datatype Curve = Curve(mnemonic: string, unit: string, descr: string, data: seq<Option<real>>)

  /** A LAS section other than ~Well and ~Curves: header items, or free text (~Other). */
  datatype Section = Items(items: seq<HeaderItem>) | Block(text: string)

  /**
   * A LAS document as the pipeline sees it: the ~Well items by mnemonic, the curves in
   * order (the depth curve first), the depth index, and the remaining sections by name.
   * The ~Well and ~Curves sections are the `well` and `curves` fields, never `sections` keys.
   */
  datatype LasDoc = LasDoc(
    well: map<string, HeaderItem>,
    curves: seq<Curve>,
    index: seq<real>,
    sections: map<string, Section>)

  /** `las.data.size == 0`: the data array has no rows or no columns. */
  predicate DataEmpty(doc: LasDoc) {
    |doc.index| == 0 || |doc.curves| == 0
  }

  /** What reading a LAS file gives: a document, or the message of the ValueError raised. */
  datatype ReadResult = Parsed(doc: LasDoc) | ReadError(message: string)

  /** A LAS document that is changed in place, as a lasio LASFile object is. */
  class LasFile {
    var well: map<string, HeaderItem>
    var curves: seq<Curve>
    var index: seq<real>
    var sections: map<string, Section>

    /** A document just read from disk. */
    constructor FromDoc(doc: LasDoc)
      ensures Snapshot() == doc
    {
      well := doc.well;
      curves := doc.curves;
      index := doc.index;
      sections := doc.sections;
    }

    /** The document's current content, as it would be written. */
    function Snapshot(): LasDoc
      reads this
    {
      LasDoc(well, curves, index, sections)
    }
  }
}
