/**
 * `unzip_files.py`: every downloaded field archive `<name>.zip` is extracted into a folder of the
 * destination named after the field, the name reformatted by `format_field_name`.
 */
module UnzipFiles {
  import opened Text

  /** `format_field_name`: hyphens become spaces, the text is title-cased, and the spaces go. */
  function FormatFieldName(name: string): string {
    RemoveChar(Title(ReplaceChar(name, '-', ' ')), ' ')
  }

  /** Removing one character keeps every other character that was there. */
  lemma {:induction false} RemoveCharKeeps(s: string, c: char, d: char)
    requires d != c
    ensures d in RemoveChar(s, c) <==> d in s
  {
    if s != [] {
      RemoveCharKeeps(s[1..], c, d);
      assert s == [s[0]] + s[1..];
    }
  }

  /** The formatted name contains neither a hyphen nor a space. */
  lemma FormatFieldNameClean(name: string)
    ensures '-' !in FormatFieldName(name) && ' ' !in FormatFieldName(name)
  {
    var spaced := ReplaceChar(name, '-', ' ');
    ReplaceCharRemoves(name, '-', ' ');
    TitleKeepsNonLetters(spaced, '-');
    RemoveCharKeeps(Title(spaced), ' ', '-');
  }

  /** Replacing `a` by `b` leaves as many `b` as there were `a` and `b` together. */
  lemma {:induction false} CountReplaced(s: string, a: char, b: char)
    requires a != b
    ensures Count(ReplaceChar(s, a, b), b) == Count(s, a) + Count(s, b)
  {
    if s != [] {
      CountReplaced(s[1..], a, b);
      assert ReplaceChar(s, a, b)[1..] == ReplaceChar(s[1..], a, b);
    }
  }

  lemma {:induction false} CountTitleFrom(s: string, afterCased: bool, c: char)
    requires !IsCased(c)
    ensures Count(TitleFrom(s, afterCased), c) == Count(s, c)
  {
    if s != [] {
      CountTitleFrom(s[1..], IsCased(s[0]), c);
    }
  }

  /**
   * The formatted name is as long as the input less its hyphens and spaces: title case changes
   * no length, and only the spaces (the old ones and those from hyphens) are removed.
   */
  lemma FormatFieldNameLength(name: string)
    ensures |FormatFieldName(name)| == |name| - Count(name, '-') - Count(name, ' ')
  {
    var spaced := ReplaceChar(name, '-', ' ');
    CountReplaced(name, '-', ' ');
    CountTitleFrom(spaced, false, ' ');
    RemoveCharLength(Title(spaced), ' ');
  }

  /**
   * The casing before the spaces are removed: each letter of the input is upper case exactly when
   * it is the first character or follows a character that is not a letter (a hyphen, a space, a
   * digit ...), so upper case inside a word is flattened; every other character but '-' is kept.
   */
  lemma FormatFieldNameCasing(name: string, i: nat)
    requires i < |name|
    ensures var titled := Title(ReplaceChar(name, '-', ' '));
      && |titled| == |name|
      && (IsCased(name[i]) ==> IsCased(titled[i]) && (IsUpper(titled[i]) <==> i == 0 || !IsCased(name[i - 1])))
      && (IsCased(name[i]) ==> UpperChar(titled[i]) == UpperChar(name[i]))
      && (!IsCased(name[i]) ==> titled[i] == if name[i] == '-' then ' ' else name[i])
      && FormatFieldName(name) == RemoveChar(titled, ' ')
  {
    var spaced := ReplaceChar(name, '-', ' ');
    TitleAt(spaced, i);
    TitleFromAt(spaced, false, i);
  }

  /** "el-aB" becomes "ElAb": the hyphen starts a new word, and the capital inside it is lowered. */
  lemma FormatFieldNameExample()
    ensures FormatFieldName("el-aB") == "ElAb"
  {
    SpacedExample();
    TitledExample();
    JoinedExample();
  }

  lemma SpacedExample()
    ensures ReplaceChar("el-aB", '-', ' ') == "el aB"
  {
    var spaced := ReplaceChar("el-aB", '-', ' ');
    assert spaced[2] == ' ';
  }

  lemma TitledExample()
    ensures Title("el aB") == "El Ab"
  {
    assert TitleFrom("B", true) == "b";
    assert TitleFrom("aB", false) == "Ab";
    assert TitleFrom(" aB", true) == " Ab";
    assert TitleFrom("l aB", true) == "l Ab";
  }

  lemma JoinedExample()
    ensures RemoveChar("El Ab", ' ') == "ElAb"
  {
    assert "Ab"[1..] == "b" && "b"[1..] == [];
    assert RemoveChar("Ab", ' ') == "Ab";
    assert " Ab"[1..] == "Ab";
    assert RemoveChar(" Ab", ' ') == "Ab";
    assert "l Ab"[1..] == " Ab";
    assert RemoveChar("l Ab", ' ') == "lAb";
    assert "El Ab"[1..] == "l Ab";
  }

  /** `os.path.splitext(filename)[0]` for a name ending in '.zip': dots leading the name start no extension. */
  function ZipStem(filename: string): (stem: string)
    requires EndsWith(filename, ".zip")
    ensures stem == filename || stem + ".zip" == filename
  {
    var stem := filename[..|filename| - 4];
    if forall i :: 0 <= i < |stem| ==> stem[i] == '.' then filename
    else
      assert stem + ".zip" == filename;
      stem
  }

  /** The names that `filename.endswith('.zip')` keeps, in listing order. */
  function ZipNames(filenames: seq<string>): (zips: seq<string>)
    ensures forall k :: 0 <= k < |zips| ==> EndsWith(zips[k], ".zip")
    ensures forall f :: f in zips <==> f in filenames && EndsWith(f, ".zip")
  {
    if filenames == [] then []
    else
      var last := filenames[|filenames| - 1];
      var init := filenames[..|filenames| - 1];
      assert filenames == init + [last];
      ZipNames(init) + (if EndsWith(last, ".zip") then [last] else [])
  }

  /** One archive to extract and the folder that receives it. */
  datatype Extraction = Extraction(archive: string, folder: string)

  function ExtractionOf(sourceFolder: string, destinationFolder: string, filename: string): Extraction
    requires EndsWith(filename, ".zip")
  {
    Extraction(PathJoin(sourceFolder, filename), PathJoin(destinationFolder, FormatFieldName(ZipStem(filename))))
  }

  /**
   * The loop of `unzip_files`: each listed name ending in '.zip' (case-sensitive) is extracted, in
   * listing order, into the destination folder named by its formatted stem; other names are ignored.
   */
  method UnzipPlan(sourceFolder: string, destinationFolder: string, filenames: seq<string>)
    returns (plan: seq<Extraction>)
    ensures |plan| == |ZipNames(filenames)|
    ensures forall k :: 0 <= k < |plan| ==> plan[k] == ExtractionOf(sourceFolder, destinationFolder, ZipNames(filenames)[k])
  {
    plan := [];
    for i := 0 to |filenames|
      invariant |plan| == |ZipNames(filenames[..i])|
      invariant forall k :: 0 <= k < |plan| ==>
        plan[k] == ExtractionOf(sourceFolder, destinationFolder, ZipNames(filenames[..i])[k])
    {
      assert filenames[..i + 1][..i] == filenames[..i];
      var filename := filenames[i];
      if EndsWith(filename, ".zip") {
        var fieldName := ZipStem(filename);
        var formatted := FormatFieldName(fieldName);
        plan := plan + [Extraction(PathJoin(sourceFolder, filename), PathJoin(destinationFolder, formatted))];
      }
    }
    assert filenames[..|filenames|] == filenames;
  }

  /**
   * Every field folder is named without hyphens or spaces; the stem of 'a.zip' is 'a', while a
   * name made of dots before '.zip' has no extension and is kept whole.
   */
  lemma UnzipFolderNames(filename: string)
    requires EndsWith(filename, ".zip")
    ensures var folder := FormatFieldName(ZipStem(filename));
      '-' !in folder && ' ' !in folder
    ensures filename == "a.zip" ==> ZipStem(filename) == "a"
    ensures filename == "..zip" ==> ZipStem(filename) == "..zip"
  {
    FormatFieldNameClean(ZipStem(filename));
    if filename == "a.zip" {
      assert filename[..|filename| - 4] == "a";
    }
    if filename == "..zip" {
      assert filename[..|filename| - 4] == ".";
    }
  }
}
