/**
 * The LAS update error report: for each field, the list of {LASFILE, Error, Message}
 * entries, in the order they were first reported.
 */
module ErrorLedger {
  import opened Text

  /** One report entry. `lasFile` is the base name of the file argument. */
  datatype Entry = Entry(lasFile: string, error: string, message: string)

  /** The report, by field name. */
  type Ledger = map<string, seq<Entry>>

  /** The entries of `field`, none when the field has no key yet. */
  function EntriesOf(ledger: Ledger, field: string): seq<Entry> {
    if field in ledger then ledger[field] else []
  }

  /** An entry counts as a repeat when its stored name equals the RAW file argument and its error text matches. */
  predicate Matches(e: Entry, lasFile: string, error: string) {
    e.lasFile == lasFile && e.error == error
  }

  /** The repeat test of log_error. */
  predicate AlreadyLogged(ledger: Ledger, field: string, lasFile: string, error: string) {
    exists e <- EntriesOf(ledger, field) :: Matches(e, lasFile, error)
  }

  /**
   * log_error as a function of the report: a repeat leaves the report alone, otherwise a new
   * entry with the base name of the file goes at the end of the field's list.
   */
  function Logged(ledger: Ledger, field: string, lasFile: string, error: string, message: string): Ledger {
    if AlreadyLogged(ledger, field, lasFile, error) then ledger
    else
      ledger[field := EntriesOf(ledger, field) + [Entry(Basename(lasFile), error, message)]]
  }

  /**
   * What logging does: only a report that is not a repeat adds an entry, always at the end of
   * the field's list and with the file's base name; the message plays no part in the repeat
   * test, and no other field is touched.
   */
  lemma LoggedEffect(ledger: Ledger, field: string, lasFile: string, error: string, message: string)
    ensures var r := Logged(ledger, field, lasFile, error, message);
      && (forall f :: f in r <==> f in ledger || (f == field && !AlreadyLogged(ledger, field, lasFile, error)))
      && (forall f :: f in ledger && f != field ==> r[f] == ledger[f])
      && (AlreadyLogged(ledger, field, lasFile, error) ==> r == ledger)
      && (!AlreadyLogged(ledger, field, lasFile, error) ==>
            EntriesOf(r, field) == EntriesOf(ledger, field) + [Entry(Basename(lasFile), error, message)])
  {
  }

  /** The scan over a field's entries that looks for a repeat. */
  method FindRepeat(entries: seq<Entry>, lasFile: string, error: string) returns (found: bool)
    ensures found <==> exists e <- entries :: Matches(e, lasFile, error)
  {
    found := false;
    var i := 0;
    while i < |entries|
      invariant 0 <= i <= |entries|
      invariant forall j :: 0 <= j < i ==> !Matches(entries[j], lasFile, error)
    {
      if Matches(entries[i], lasFile, error) {
        return true;
      }
      i := i + 1;
    }
  }

  /** Every name in `entries` is a base name: it holds no '/'. */
  predicate BaseNames(entries: seq<Entry>) {
    forall k :: 0 <= k < |entries| ==> IsBaseName(entries[k].lasFile)
  }

  /** A name with no directory part. */
  predicate IsBaseName(name: string) {
    '/' !in name
  }

  /** Every stored name of the report is a base name. */
  predicate BaseNamesOnly(ledger: Ledger) {
    forall f :: f in ledger ==> BaseNames(ledger[f])
  }

  /** Logging keeps every stored name a base name. */
  lemma LoggedKeepsBaseNames(ledger: Ledger, field: string, lasFile: string, error: string, message: string)
    requires BaseNamesOnly(ledger)
    ensures BaseNamesOnly(Logged(ledger, field, lasFile, error, message))
  {
    var r := Logged(ledger, field, lasFile, error, message);
    if !AlreadyLogged(ledger, field, lasFile, error) {
      var entries := EntriesOf(ledger, field) + [Entry(Basename(lasFile), error, message)];
      assert r == ledger[field := entries];
      forall f | f in r
        ensures BaseNames(r[f])
      {
        if f == field {
          assert BaseNames(EntriesOf(ledger, field));
          assert IsBaseName(entries[|entries| - 1].lasFile);
        } else {
          assert r[f] == ledger[f];
        }
      }
    }
  }

  /**
   * A file argument without '/' is stored as given, so reporting the same error twice
   * leaves one entry.
   */
  lemma BareNameRepeatIsDropped(ledger: Ledger, field: string, lasFile: string, error: string, message: string, message2: string)
    requires '/' !in lasFile
    ensures var once := Logged(ledger, field, lasFile, error, message);
      Logged(once, field, lasFile, error, message2) == once
  {
    var once := Logged(ledger, field, lasFile, error, message);
    assert AlreadyLogged(once, field, lasFile, error) by {
      if !AlreadyLogged(ledger, field, lasFile, error) {
        var e := Entry(lasFile, error, message);
        assert Basename(lasFile) == lasFile;
        var es := EntriesOf(once, field);
        assert es == EntriesOf(ledger, field) + [e];
        assert es[|es| - 1] == e && e in es && Matches(e, lasFile, error);
      }
    }
  }

  /**
   * A file argument holding '/' never matches a stored base name, so a report that is not
   * yet in a well-formed ledger is appended again on every repeat.
   */
  lemma FullPathRepeatIsAppended(ledger: Ledger, field: string, lasFile: string, error: string, message: string)
    requires BaseNamesOnly(ledger)
    requires '/' in lasFile
    ensures var once := Logged(ledger, field, lasFile, error, message);
      |EntriesOf(Logged(once, field, lasFile, error, message), field)| == |EntriesOf(ledger, field)| + 2
  {
    var once := Logged(ledger, field, lasFile, error, message);
    assert !AlreadyLogged(ledger, field, lasFile, error) by {
      forall e | e in EntriesOf(ledger, field) ensures !Matches(e, lasFile, error) {
        var k :| 0 <= k < |ledger[field]| && ledger[field][k] == e;
      }
    }
    LoggedKeepsBaseNames(ledger, field, lasFile, error, message);
    assert !AlreadyLogged(once, field, lasFile, error) by {
      forall e | e in EntriesOf(once, field) ensures !Matches(e, lasFile, error) {
        var k :| 0 <= k < |once[field]| && once[field][k] == e;
      }
    }
  }
}
