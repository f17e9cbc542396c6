/**
 * The bookkeeping of `download_las_files.py`: the LAS ids a field lists, the map from id to
 * download URL read from the database file, the grouping of download errors by field, and the
 * number of coloured blocks of the progress bar.
 */
module DownloadLasFiles {
  import opened Wrappers
  import opened Text

  /** `row['LASFILE'].split('.')[0]`: the id of a listed LAS file. */
  function LasId(lasFile: string): (id: string)
    ensures '.' !in id && StartsWith(lasFile, id)
  {
    Before(lasFile, '.')
  }

  /**
   * `get_field_las_ids`: the ids of the LASFILE column of the field's `LAS_*.csv`, given as its
   * cells in row order, or no id at all when the field has no such file (`lasCsv` is None).
   */
  method GetFieldLasIds(lasCsv: Option<seq<string>>) returns (ids: set<string>)
    ensures lasCsv.None? ==> ids == {}
    ensures lasCsv.Some? ==> forall id :: id in ids <==> exists i :: 0 <= i < |lasCsv.value| && LasId(lasCsv.value[i]) == id
    ensures forall id :: id in ids ==> '.' !in id
  {
    ids := {};
    if lasCsv.Some? {
      var rows := lasCsv.value;
      for i := 0 to |rows|
        invariant forall id :: id in ids <==> exists k :: 0 <= k < i && LasId(rows[k]) == id
      {
        ids := ids + {LasId(rows[i])};
      }
    }
  }

  // ---------------------------------------------------------------------------
  // The id -> URL map

  /** `url.split('/')[-1].split('.')[0]`: the id a download URL names. */
  function UrlId(url: string): (id: string)
    ensures '.' !in id && '/' !in id
  {
    Before(AfterLast(url, '/'), '.')
  }

  /** A database line that names a download: its id and its URL. */
  datatype Entry = Entry(id: string, url: string)

  /**
   * One line of the database: stripped and split on ','; a line with fewer than two fields names
   * nothing, otherwise the URL is the last field with '"' stripped from both ends.
   */
  function ParseLine(line: string): (e: Option<Entry>)
    ensures e.Some? ==> e.value.id == UrlId(e.value.url)
  {
    var parts := Split(Strip(line), ',');
    if |parts| < 2 then None
    else
      var url := StripChar(parts[|parts| - 1], '"');
      Some(Entry(UrlId(url), url))
  }

  /** What each line of the database names. */
  function Parsed(lines: seq<string>): (es: seq<Option<Entry>>)
    ensures |es| == |lines|
  {
    seq(|lines|, i requires 0 <= i < |lines| => ParseLine(lines[i]))
  }

  /** The map `build_las_url_map` builds from the parsed lines read so far. */
  function UrlMap(entries: seq<Option<Entry>>, lasIds: set<string>): map<string, string> {
    if entries == [] then map[]
    else
      var m := UrlMap(entries[..|entries| - 1], lasIds);
      match entries[|entries| - 1]
      case None => m
      case Some(e) => if e.id in lasIds then m[e.id := e.url] else m
  }

  lemma UrlMapSnoc(entries: seq<Option<Entry>>, i: nat, lasIds: set<string>)
    requires i < |entries|
    ensures UrlMap(entries[..i + 1], lasIds) ==
      match entries[i]
      case None => UrlMap(entries[..i], lasIds)
      case Some(e) => if e.id in lasIds then UrlMap(entries[..i], lasIds)[e.id := e.url] else UrlMap(entries[..i], lasIds)
  {
    assert entries[..i + 1][..i] == entries[..i];
  }

  /** An error of the report: the LAS id and its message. */
  datatype MissingUrl = MissingUrl(lasFile: string, error: string)

  /**
   * `build_las_url_map`: the URL of every listed id, and an error report that stays empty, because
   * its condition (an id in `las_ids`) is the one the first branch has just found false.
   */
  method BuildLasUrlMap(lines: seq<string>, lasIds: set<string>)
    returns (lasUrlMap: map<string, string>, errorReport: seq<MissingUrl>)
    ensures lasUrlMap == UrlMap(Parsed(lines), lasIds)
    ensures errorReport == []
  {
    lasUrlMap := map[];
    errorReport := [];
    for i := 0 to |lines|
      invariant lasUrlMap == UrlMap(Parsed(lines)[..i], lasIds)
      invariant errorReport == []
    {
      var entry := ParseLine(lines[i]);
      UrlMapSnoc(Parsed(lines), i, lasIds);
      assert Parsed(lines)[i] == entry;
      if entry.None? {
        continue;
      }
      var url := entry.value.url;
      var lasNumber := entry.value.id;
      if lasNumber in lasIds {
        lasUrlMap := lasUrlMap[lasNumber := url];
      } else if lasNumber !in lasUrlMap && lasNumber in lasIds {
        errorReport := errorReport + [MissingUrl(lasNumber, "No URL available")];
      }
    }
    assert Parsed(lines)[..|lines|] == Parsed(lines);
  }

  /** Entry `i` names `id`. */
  predicate Names(entries: seq<Option<Entry>>, id: string, i: int) {
    0 <= i < |entries| && entries[i].Some? && entries[i].value.id == id
  }

  /** Entry `i` names `id` and no later entry does. */
  predicate LastNaming(entries: seq<Option<Entry>>, id: string, i: int) {
    Names(entries, id, i) && forall j :: i < j < |entries| ==> !Names(entries, id, j)
  }

  /** Only listed ids are kept, and a listed id is kept exactly when some line names it. */
  lemma {:induction false} UrlMapKeys(entries: seq<Option<Entry>>, lasIds: set<string>)
    ensures forall id :: id in UrlMap(entries, lasIds) <==> id in lasIds && exists i :: Names(entries, id, i)
  {
    if entries != [] {
      var n := |entries| - 1;
      var init := entries[..n];
      UrlMapKeys(init, lasIds);
      assert forall j :: 0 <= j < n ==> init[j] == entries[j];
      forall id ensures id in UrlMap(entries, lasIds) <==> id in lasIds && exists i :: Names(entries, id, i) {
        if Names(entries, id, n) {
          assert id in UrlMap(entries, lasIds) <==> id in lasIds;
        } else {
          assert id in UrlMap(entries, lasIds) <==> id in UrlMap(init, lasIds);
          if exists i :: Names(entries, id, i) {
            var i :| Names(entries, id, i);
            assert Names(init, id, i);
          }
          if exists i :: Names(init, id, i) {
            var i :| Names(init, id, i);
            assert Names(entries, id, i);
          }
        }
      }
    }
  }

  /** The URL kept for an id is that of the last line naming it: a later line overwrites an earlier one. */
  lemma {:induction false} UrlMapLastWins(entries: seq<Option<Entry>>, lasIds: set<string>, id: string)
    requires id in UrlMap(entries, lasIds)
    ensures exists i :: LastNaming(entries, id, i) && UrlMap(entries, lasIds)[id] == entries[i].value.url
  {
    var n := |entries| - 1;
    var init := entries[..n];
    var e := entries[n];
    if e.Some? && e.value.id == id && id in lasIds {
      assert LastNaming(entries, id, n);
    } else {
      assert id in UrlMap(init, lasIds) && UrlMap(entries, lasIds)[id] == UrlMap(init, lasIds)[id];
      UrlMapLastWins(init, lasIds, id);
      var i :| LastNaming(init, id, i) && UrlMap(init, lasIds)[id] == init[i].value.url;
      assert forall j :: 0 <= j < n ==> init[j] == entries[j];
      UrlMapKeys(init, lasIds);
      assert !Names(entries, id, n);
      forall j | i < j < |entries| ensures !Names(entries, id, j) {
        if j < n {
          assert !Names(init, id, j);
        }
      }
      assert LastNaming(entries, id, i);
    }
  }

  /**
   * `build_las_url_map` over the database lines: the map keeps only listed ids, an id exactly when
   * some line names it, with the URL of the last such line, a URL that names the id back.
   */
  lemma UrlMapOfLines(lines: seq<string>, lasIds: set<string>, id: string)
    ensures UrlMap(Parsed(lines), lasIds).Keys <= lasIds
    ensures id in UrlMap(Parsed(lines), lasIds) <==>
      id in lasIds && exists i :: 0 <= i < |lines| && ParseLine(lines[i]).Some? && ParseLine(lines[i]).value.id == id
    ensures id in UrlMap(Parsed(lines), lasIds) ==> UrlId(UrlMap(Parsed(lines), lasIds)[id]) == id
    ensures id in UrlMap(Parsed(lines), lasIds) ==>
      exists i :: 0 <= i < |lines| && ParseLine(lines[i]).Some? && UrlMap(Parsed(lines), lasIds)[id] == ParseLine(lines[i]).value.url &&
        forall j :: i < j < |lines| ==> ParseLine(lines[j]).None? || ParseLine(lines[j]).value.id != id
  {
    var es := Parsed(lines);
    UrlMapKeys(es, lasIds);
    if exists i :: 0 <= i < |lines| && ParseLine(lines[i]).Some? && ParseLine(lines[i]).value.id == id {
      var i :| 0 <= i < |lines| && ParseLine(lines[i]).Some? && ParseLine(lines[i]).value.id == id;
      assert Names(es, id, i);
    }
    if id in UrlMap(es, lasIds) {
      UrlMapLastWins(es, lasIds, id);
      var i :| LastNaming(es, id, i) && UrlMap(es, lasIds)[id] == es[i].value.url;
      assert es[i] == ParseLine(lines[i]);
      forall j | i < j < |lines| ensures ParseLine(lines[j]).None? || ParseLine(lines[j]).value.id != id {
        assert es[j] == ParseLine(lines[j]);
        assert !Names(es, id, j);
      }
    }
  }

  // ---------------------------------------------------------------------------
  // Errors grouped by field

  /** An entry of `error_report`: the field, the LAS id and the message. */
  datatype DownloadError = DownloadError(field: string, lasFile: string, error: string)

  /** The `{'LASFILE', 'Error'}` entries of one field, in report order. */
  function ErrorsOf(report: seq<DownloadError>, field: string): (r: seq<MissingUrl>)
    ensures forall x :: x in r <==>
      exists i :: 0 <= i < |report| && report[i].field == field && x == MissingUrl(report[i].lasFile, report[i].error)
    ensures |r| <= |report|
  {
    if report == [] then []
    else
      var init := report[..|report| - 1];
      var last := report[|report| - 1];
      assert forall i :: 0 <= i < |init| ==> report[i] == init[i];
      ErrorsOf(init, field) + (if last.field == field then [MissingUrl(last.lasFile, last.error)] else [])
  }

  /** A field has no entry exactly when no error of the report is about it. */
  lemma ErrorsOfEmpty(report: seq<DownloadError>, field: string)
    ensures ErrorsOf(report, field) == [] <==> forall i :: 0 <= i < |report| ==> report[i].field != field
  {
    if exists i :: 0 <= i < |report| && report[i].field == field {
      var i :| 0 <= i < |report| && report[i].field == field;
      assert MissingUrl(report[i].lasFile, report[i].error) in ErrorsOf(report, field);
    }
  }

  /**
   * `errors_grouped_by_field`: one list per field that has errors, each holding that field's
   * errors in report order.
   */
  method GroupErrors(report: seq<DownloadError>) returns (grouped: map<string, seq<MissingUrl>>)
    ensures forall f :: f in grouped <==> exists i :: 0 <= i < |report| && report[i].field == f
    ensures forall f :: f in grouped ==> grouped[f] == ErrorsOf(report, f)
  {
    grouped := map[];
    for i := 0 to |report|
      invariant forall f :: f in grouped <==> ErrorsOf(report[..i], f) != []
      invariant forall f :: f in grouped ==> grouped[f] == ErrorsOf(report[..i], f)
    {
      assert report[..i + 1][..i] == report[..i];
      var error := report[i];
      var fieldName := error.field;
      var entries := if fieldName in grouped then grouped[fieldName] else [];
      grouped := grouped[fieldName := entries + [MissingUrl(error.lasFile, error.error)]];
    }
    assert report[..|report|] == report;
    forall f ensures f in grouped <==> exists i :: 0 <= i < |report| && report[i].field == f {
      ErrorsOfEmpty(report, f);
    }
  }

  // ---------------------------------------------------------------------------
  // The progress bar

  /**
   * `print_progress_bar` without the colours: block `i` of the `length` blocks is coloured (true)
   * when `i < int(length * iteration // total)`, grey otherwise, and the line ends only when the
   * last item is done.
   */
  method ProgressBar(iteration: nat, total: nat, length: nat) returns (blocks: seq<bool>, newline: bool)
    requires total > 0
    ensures |blocks| == length
    ensures forall i :: 0 <= i < length ==> (blocks[i] <==> (i + 1) * total <= length * iteration)
    ensures newline <==> iteration == total
  {
    var filledLength := length * iteration / total;
    blocks := [];
    for i := 0 to length
      invariant |blocks| == i
      invariant forall k :: 0 <= k < i ==> (blocks[k] <==> k < filledLength)
    {
      blocks := blocks + [i < filledLength];
    }
    forall i | 0 <= i < length ensures blocks[i] <==> (i + 1) * total <= length * iteration {
      FilledBelow(length * iteration, total, i);
    }
    newline := iteration == total;
  }

  lemma MulLe(a: nat, b: nat, d: nat)
    requires a <= b
    ensures a * d <= b * d
  {
    var c := b - a;
    assert b * d == a * d + c * d;
  }

  /** `k < n // d` exactly when `(k + 1) * d <= n`. */
  lemma FilledBelow(n: nat, d: nat, k: nat)
    requires d > 0
    ensures k < n / d <==> (k + 1) * d <= n
  {
    var q := n / d;
    assert n == q * d + n % d;
    if k < q {
      MulLe(k + 1, q, d);
    } else {
      MulLe(q + 1, k + 1, d);
      assert (q + 1) * d == q * d + d;
    }
  }

  /** Part way through the bar never overflows, and at the end it is full. */
  lemma FilledAtMost(iteration: nat, total: nat, length: nat)
    requires total > 0 && iteration <= total
    ensures length * iteration / total <= length
    ensures iteration == total ==> length * iteration / total == length
  {
    FilledBelow(length * iteration, total, length);
    MulLe(iteration, total, length);
    assert (length + 1) * total == length * total + total;
    assert length * iteration <= length * total;
    if iteration == total && length > 0 {
      FilledBelow(length * iteration, total, length - 1);
    }
  }

  /** Number of coloured blocks. */
  function Coloured(blocks: seq<bool>): nat {
    if blocks == [] then 0 else (if blocks[0] then 1 else 0) + Coloured(blocks[1..])
  }

  /**
   * Part way through, `length * iteration // total` blocks are coloured, never more than the bar
   * holds; once every item is done the whole bar is coloured.
   */
  lemma {:induction false} ProgressBarColoured(iteration: nat, total: nat, length: nat, blocks: seq<bool>)
    requires total > 0 && iteration <= total
    requires |blocks| == length
    requires forall i :: 0 <= i < length ==> (blocks[i] <==> (i + 1) * total <= length * iteration)
    ensures Coloured(blocks) == length * iteration / total <= length
    ensures iteration == total ==> Coloured(blocks) == length
  {
    var f := length * iteration / total;
    FilledAtMost(iteration, total, length);
    BlocksBelow(iteration, total, length, blocks);
    ColouredPrefix(blocks, f);
  }

  lemma BlocksBelow(iteration: nat, total: nat, length: nat, blocks: seq<bool>)
    requires total > 0 && |blocks| == length
    requires forall i :: 0 <= i < length ==> (blocks[i] <==> (i + 1) * total <= length * iteration)
    ensures forall i :: 0 <= i < length ==> (blocks[i] <==> i < length * iteration / total)
  {
    forall i | 0 <= i < length ensures blocks[i] <==> i < length * iteration / total {
      FilledBelow(length * iteration, total, i);
    }
  }

  lemma {:induction false} ColouredPrefix(blocks: seq<bool>, f: nat)
    requires f <= |blocks|
    requires forall i :: 0 <= i < |blocks| ==> (blocks[i] <==> i < f)
    ensures Coloured(blocks) == f
  {
    if blocks != [] {
      if f > 0 {
        ColouredPrefix(blocks[1..], f - 1);
      } else {
        ColouredPrefix(blocks[1..], 0);
      }
    }
  }
}
