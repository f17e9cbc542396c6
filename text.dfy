/**
 * The operations of Python's `str` and `os.path` that the pipeline relies on,
 * for ASCII text. Characters outside ASCII are never whitespace and never cased here.
 */
module Text {

  /** Python's `str.isspace` on ASCII: space, \t \n \v \f \r and the separators 0x1c-0x1f. */
  predicate IsSpace(c: char) {
    c == ' ' || ('\t' <= c <= '\r') || ('\U{1c}' <= c <= '\U{1f}')
  }

  predicate IsUpper(c: char) { 'A' <= c <= 'Z' }
  predicate IsLower(c: char) { 'a' <= c <= 'z' }
  predicate IsCased(c: char) { IsUpper(c) || IsLower(c) }

  function UpperChar(c: char): (d: char)
    ensures IsCased(c) ==> IsUpper(d)
    ensures !IsCased(c) ==> d == c
  {
    if IsLower(c) then (c as int - 32) as char else c
  }

  function LowerChar(c: char): (d: char)
    ensures IsCased(c) ==> IsLower(d)
    ensures !IsCased(c) ==> d == c
  {
    if IsUpper(c) then (c as int + 32) as char else c
  }

  /** Python's `str.lower` on ASCII. */
  function Lower(s: string): (r: string)
    ensures |r| == |s|
  {
    seq(|s|, i requires 0 <= i < |s| => LowerChar(s[i]))
  }

  // ---------------------------------------------------------------------------
  // Prefixes, suffixes, substrings

  predicate StartsWith(s: string, prefix: string) {
    |prefix| <= |s| && s[..|prefix|] == prefix
  }

  predicate EndsWith(s: string, suffix: string) {
    |suffix| <= |s| && s[|s| - |suffix|..] == suffix
  }

  /** Python's `sub in s`. */
  predicate Contains(s: string, sub: string)
    decreases |s|
  {
    StartsWith(s, sub) || (s != [] && Contains(s[1..], sub))
  }

  /** The position of the first name satisfying `p`, `|names|` when none does: `next(f for f in names if p(f))`. */
  function FirstWhere(names: seq<string>, p: string -> bool): (i: nat)
    ensures i <= |names|
    ensures i < |names| ==> p(names[i])
    ensures forall j :: 0 <= j < i ==> !p(names[j])
  {
    if names == [] then 0
    else if p(names[0]) then 0
    else 1 + FirstWhere(names[1..], p)
  }

  // ---------------------------------------------------------------------------
  // Stripping

  /** Length of the longest prefix of `s` whose characters satisfy `drop`. */
  function PrefixRun(s: string, drop: char -> bool): (n: nat)
    ensures n <= |s|
    ensures forall i :: 0 <= i < n ==> drop(s[i])
    ensures n < |s| ==> !drop(s[n])
  {
    if s == [] || !drop(s[0]) then 0 else 1 + PrefixRun(s[1..], drop)
  }

  /** Start of the longest suffix of `s` whose characters satisfy `drop`. */
  function SuffixStart(s: string, drop: char -> bool): (n: nat)
    ensures n <= |s|
    ensures forall i :: n <= i < |s| ==> drop(s[i])
    ensures n > 0 ==> !drop(s[n - 1])
  {
    if s == [] || !drop(s[|s| - 1]) then |s| else SuffixStart(s[..|s| - 1], drop)
  }

  /** Drops the longest prefix whose characters satisfy `drop`. */
  function TrimStart(s: string, drop: char -> bool): (r: string)
    ensures |r| <= |s|
    ensures r != [] ==> !drop(r[0])
  {
    s[PrefixRun(s, drop)..]
  }

  /** Drops the longest suffix whose characters satisfy `drop`. */
  function TrimEnd(s: string, drop: char -> bool): (r: string)
    ensures |r| <= |s|
    ensures r != [] ==> !drop(r[|r| - 1])
  {
    s[..SuffixStart(s, drop)]
  }

  /** Python's `s.strip()`. */
  function Strip(s: string): string {
    TrimEnd(TrimStart(s, IsSpace), IsSpace)
  }

  /** Python's `s.strip(c)` for a one-character argument. */
  function StripChar(s: string, c: char): string {
    TrimEnd(TrimStart(s, x => x == c), x => x == c)
  }

  /** Text that starts and ends with a non-space character is its own strip. */
  lemma StripKeeps(s: string)
    requires s != [] && !IsSpace(s[0]) && !IsSpace(s[|s| - 1])
    ensures Strip(s) == s
  {
    assert PrefixRun(s, IsSpace) == 0;
    assert SuffixStart(s, IsSpace) == |s|;
  }

  /** Trailing whitespace after a non-space character is dropped from the tail only. */
  lemma TrimEndAfter(p: string, c: string)
    requires p != [] && !IsSpace(p[|p| - 1])
    ensures TrimEnd(p + c, IsSpace) == p + TrimEnd(c, IsSpace)
  {
    var s := p + c;
    var k := SuffixStart(c, IsSpace);
    assert !IsSpace(s[|p| - 1]);
    assert k > 0 ==> !IsSpace(s[|p| + k - 1]);
    assert forall i :: |p| + k <= i < |s| ==> IsSpace(s[i]) by {
      forall i | |p| + k <= i < |s| ensures IsSpace(s[i]) {
        assert s[i] == c[i - |p|];
      }
    }
    assert SuffixStart(s, IsSpace) == |p| + k;
    assert s[..|p| + k] == p + c[..k];
  }

  /** The longest dropped suffix starts where the last kept character ends. */
  lemma SuffixStartAt(s: string, drop: char -> bool, m: nat)
    requires 0 < m <= |s| && !drop(s[m - 1])
    requires forall i :: m <= i < |s| ==> drop(s[i])
    ensures SuffixStart(s, drop) == m
  {
  }

  /** Dropping a prefix that ends before the trailing run moves its start back by the prefix length. */
  lemma SuffixStartAfter(c: string, drop: char -> bool, n: nat)
    requires n < SuffixStart(c, drop)
    ensures SuffixStart(c[n..], drop) == SuffixStart(c, drop) - n
    ensures TrimEnd(c[n..], drop) == c[n..SuffixStart(c, drop)]
  {
    var k := SuffixStart(c, drop);
    var u := c[n..];
    assert u[k - n - 1] == c[k - 1];
    forall i | k - n <= i < |u| ensures drop(u[i]) {
      assert u[i] == c[n + i];
    }
    SuffixStartAt(u, drop, k - n);
    assert u[..k - n] == c[n..k];
  }

  /** Trimming both ends keeps what lies between the dropped prefix and the dropped suffix. */
  lemma TrimBothIsMiddle(c: string, drop: char -> bool)
    requires PrefixRun(c, drop) < SuffixStart(c, drop)
    ensures TrimEnd(TrimStart(c, drop), drop) == c[PrefixRun(c, drop)..SuffixStart(c, drop)]
  {
    var n := PrefixRun(c, drop);
    assert TrimStart(c, drop) == c[n..];
    SuffixStartAfter(c, drop, n);
  }

  /** Stripping after dropping the trailing whitespace is stripping. */
  lemma StripTrimEnd(c: string)
    ensures Strip(TrimEnd(c, IsSpace)) == Strip(c)
  {
    var k := SuffixStart(c, IsSpace);
    var n := PrefixRun(c, IsSpace);
    var t := c[..k];
    if n >= k {
      // c is all whitespace: both strips are empty
      assert k == 0 && t == [];
      assert n == |c| && c[n..] == [];
    } else {
      assert t[n] == c[n];
      assert PrefixRun(t, IsSpace) == n;
      assert SuffixStart(t, IsSpace) == k;
      TrimBothIsMiddle(c, IsSpace);
      TrimBothIsMiddle(t, IsSpace);
      assert t[n..k] == c[n..k];
    }
  }

  /** `s.lstrip().startswith(p)`, character by character. */
  predicate LeadsWith(s: string, p: string)
    decreases |s|
  {
    if s != [] && IsSpace(s[0]) then LeadsWith(s[1..], p) else StartsWith(s, p)
  }

  lemma {:induction false} LeadsWithTrimStart(s: string, p: string)
    ensures LeadsWith(s, p) <==> StartsWith(TrimStart(s, IsSpace), p)
    decreases |s|
  {
    if s != [] && IsSpace(s[0]) {
      LeadsWithTrimStart(s[1..], p);
      assert PrefixRun(s, IsSpace) == 1 + PrefixRun(s[1..], IsSpace);
      assert TrimStart(s, IsSpace) == TrimStart(s[1..], IsSpace);
    } else {
      assert PrefixRun(s, IsSpace) == 0;
    }
  }

  /** For a prefix that ends in a non-space character, `s.strip().startswith(p)` is `LeadsWith(s, p)`. */
  lemma LeadsWithStrip(s: string, p: string)
    requires p != [] && !IsSpace(p[|p| - 1])
    ensures LeadsWith(s, p) <==> StartsWith(Strip(s), p)
  {
    LeadsWithTrimStart(s, p);
    var t := TrimStart(s, IsSpace);
    var k := SuffixStart(t, IsSpace);
    if StartsWith(t, p) {
      assert t[|p| - 1] == p[|p| - 1];
      assert k >= |p|;
      assert t[..k][..|p|] == t[..|p|];
    }
    if StartsWith(Strip(s), p) {
      assert t[..k][..|p|] == t[..|p|];
    }
  }

  // ---------------------------------------------------------------------------
  // Splitting on one character

  /** Index of the first `c` in `s`, or `|s|` when there is none. */
  function IndexOf(s: string, c: char): (i: nat)
    ensures i <= |s|
    ensures i < |s| ==> s[i] == c
    ensures forall j :: 0 <= j < i ==> s[j] != c
  {
    if s == [] || s[0] == c then 0 else 1 + IndexOf(s[1..], c)
  }

  /** Python's `s.split(sep)` for a one-character separator. */
  function Split(s: string, sep: char): (parts: seq<string>)
    ensures |parts| >= 1
    ensures forall k :: 0 <= k < |parts| ==> sep !in parts[k]
    decreases |s|
  {
    var i := IndexOf(s, sep);
    if i == |s| then [s] else [s[..i]] + Split(s[i + 1..], sep)
  }

  /** Python's `sep.join(parts)`. */
  function Join(parts: seq<string>, sep: char): string {
    if parts == [] then ""
    else if |parts| == 1 then parts[0]
    else parts[0] + [sep] + Join(parts[1..], sep)
  }

  /** The text before the first `sep`: Python's `s.split(sep)[0]`. */
  function Before(s: string, sep: char): (r: string)
    ensures sep !in r && StartsWith(s, r)
    ensures |r| < |s| ==> s[|r|] == sep
  {
    s[..IndexOf(s, sep)]
  }

  lemma IndexOfAppend(a: string, b: string, c: char)
    requires c !in a
    ensures IndexOf(a + b, c) == |a| + IndexOf(b, c)
  {
    if a == [] {
      assert a + b == b;
    } else {
      assert (a + b)[1..] == a[1..] + b;
      IndexOfAppend(a[1..], b, c);
    }
  }

  /** Joining the parts of a split gives back the text. */
  lemma {:induction false} JoinSplit(s: string, sep: char)
    ensures Join(Split(s, sep), sep) == s
    decreases |s|
  {
    var i := IndexOf(s, sep);
    if i < |s| {
      var rest := Split(s[i + 1..], sep);
      JoinSplit(s[i + 1..], sep);
      var parts := [s[..i]] + rest;
      assert Split(s, sep) == parts;
      assert parts[1..] == rest;
      assert Join(parts, sep) == s[..i] + [sep] + Join(rest, sep);
      assert s == s[..i] + [sep] + s[i + 1..];
    }
  }

  /** Splitting a join of separator-free parts gives back the parts. */
  lemma {:induction false} SplitJoin(parts: seq<string>, sep: char)
    requires |parts| >= 1
    requires forall k :: 0 <= k < |parts| ==> sep !in parts[k]
    ensures Split(Join(parts, sep), sep) == parts
  {
    if |parts| == 1 {
      assert IndexOf(parts[0], sep) == |parts[0]|;
    } else {
      var rest := Join(parts[1..], sep);
      IndexOfAppend(parts[0], [sep] + rest, sep);
      assert parts[0] + [sep] + rest == parts[0] + ([sep] + rest);
      SplitJoin(parts[1..], sep);
      assert (parts[0] + [sep] + rest)[|parts[0]| + 1..] == rest;
      assert (parts[0] + [sep] + rest)[..|parts[0]|] == parts[0];
      assert parts == [parts[0]] + parts[1..];
    }
  }

  /** The first part of a split is the text before the first separator. */
  lemma SplitHead(s: string, sep: char)
    ensures Split(s, sep)[0] == Before(s, sep)
  {
  }

  // ---------------------------------------------------------------------------
  // Splitting on whitespace

  /** Index of the first whitespace character of `s`, or `|s|`. */
  function SpaceIndex(s: string): (i: nat)
    ensures i <= |s|
    ensures i < |s| ==> IsSpace(s[i])
    ensures forall j :: 0 <= j < i ==> !IsSpace(s[j])
  {
    if s == [] || IsSpace(s[0]) then 0 else 1 + SpaceIndex(s[1..])
  }

  /** A non-empty run of characters none of which is whitespace. */
  predicate IsWord(w: string) {
    w != [] && forall j :: 0 <= j < |w| ==> !IsSpace(w[j])
  }

  /** Python's `s.split()` with no argument: the maximal runs of non-whitespace. */
  function Words(s: string): (ws: seq<string>)
    ensures forall k :: 0 <= k < |ws| ==> IsWord(ws[k])
    decreases |s|
  {
    var t := TrimStart(s, IsSpace);
    if t == [] then []
    else
      var i := SpaceIndex(t);
      assert IsWord(t[..i]);
      [t[..i]] + Words(t[i..])
  }

  /**
   * The first word of `split()` is the text after the leading whitespace up to the next
   * whitespace or the end, and the other words are those of the text after it.
   */
  lemma WordsFirst(s: string)
    requires Words(s) != []
    ensures var t := TrimStart(s, IsSpace); var w := Words(s)[0];
      |w| <= |t| && t[..|w|] == w && (|w| == |t| || IsSpace(t[|w|])) && Words(s)[1..] == Words(t[|w|..])
  {
  }

  // ---------------------------------------------------------------------------
  // Character replacement and title case

  /** Python's `s.replace(a, b)` for one-character arguments. */
  function ReplaceChar(s: string, a: char, b: char): (r: string)
    ensures |r| == |s|
  {
    seq(|s|, i requires 0 <= i < |s| => if s[i] == a then b else s[i])
  }

  /** Python's `s.replace(c, '')`. */
  function RemoveChar(s: string, c: char): (r: string)
    ensures c !in r
  {
    if s == [] then []
    else (if s[0] == c then [] else [s[0]]) + RemoveChar(s[1..], c)
  }

  /** Number of occurrences of `c` in `s`. */
  function Count(s: string, c: char): nat {
    if s == [] then 0 else (if s[0] == c then 1 else 0) + Count(s[1..], c)
  }

  lemma {:induction false} RemoveCharLength(s: string, c: char)
    ensures |RemoveChar(s, c)| == |s| - Count(s, c)
  {
    if s != [] {
      RemoveCharLength(s[1..], c);
    }
  }

  /** Title case continued after a character that was (`afterCased`) or was not cased. */
  function TitleFrom(s: string, afterCased: bool): (r: string)
    ensures |r| == |s|
  {
    if s == [] then []
    else
      var c := s[0];
      [if !IsCased(c) then c else if afterCased then LowerChar(c) else UpperChar(c)]
      + TitleFrom(s[1..], IsCased(c))
  }

  /** Python's `str.title` on ASCII. */
  function Title(s: string): (r: string)
    ensures |r| == |s|
  {
    TitleFrom(s, false)
  }

  lemma {:induction false} TitleFromAt(s: string, afterCased: bool, i: nat)
    requires i < |s|
    ensures TitleFrom(s, afterCased)[i] ==
      if !IsCased(s[i]) then s[i]
      else if (if i == 0 then afterCased else IsCased(s[i - 1])) then LowerChar(s[i])
      else UpperChar(s[i])
  {
    if i > 0 {
      TitleFromAt(s[1..], IsCased(s[0]), i - 1);
    }
  }

  /**
   * Title case, character by character: a letter is upper case exactly when it is the first
   * character or follows a character that is not a letter; everything else is unchanged or lowered.
   */
  lemma TitleAt(s: string, i: nat)
    requires i < |s|
    ensures !IsCased(s[i]) ==> Title(s)[i] == s[i]
    ensures IsCased(s[i]) ==> (IsUpper(Title(s)[i]) <==> (i == 0 || !IsCased(s[i - 1])))
    ensures IsCased(Title(s)[i]) <==> IsCased(s[i])
  {
    TitleFromAt(s, false, i);
  }

  /** Title case leaves every non-letter where it was. */
  lemma TitleKeepsNonLetters(s: string, c: char)
    requires !IsCased(c)
    ensures (c in Title(s)) <==> (c in s)
  {
    if c in Title(s) {
      var i :| 0 <= i < |s| && Title(s)[i] == c;
      TitleAt(s, i);
    }
    if c in s {
      var i :| 0 <= i < |s| && s[i] == c;
      TitleAt(s, i);
    }
  }

  lemma ReplaceCharRemoves(s: string, a: char, b: char)
    requires a != b
    ensures a !in ReplaceChar(s, a, b)
    ensures b in ReplaceChar(s, a, b) <==> (a in s || b in s)
    ensures forall c :: c != a && c != b ==> (c in ReplaceChar(s, a, b) <==> c in s)
  {
    var r := ReplaceChar(s, a, b);
    if a in s {
      var i :| 0 <= i < |s| && s[i] == a;
      assert r[i] == b;
    }
    if b in s {
      var i :| 0 <= i < |s| && s[i] == b;
      assert r[i] == b;
    }
    forall c | c != a && c != b && c in s ensures c in r {
      var i :| 0 <= i < |s| && s[i] == c;
      assert r[i] == c;
    }
  }

  // ---------------------------------------------------------------------------
  // Paths and numbers

  /** Index of the last `c` in `s`, or -1 when there is none. */
  function LastIndexOf(s: string, c: char): (i: int)
    ensures -1 <= i < |s|
    ensures i >= 0 ==> s[i] == c
    ensures forall j :: i < j < |s| ==> s[j] != c
  {
    if s == [] then -1
    else if s[|s| - 1] == c then |s| - 1
    else LastIndexOf(s[..|s| - 1], c)
  }

  /** The text after the last `c`: Python's `s.rsplit(c, 1)[-1]`. */
  function AfterLast(s: string, c: char): (r: string)
    ensures c !in r
    ensures |r| <= |s| && r == s[|s| - |r|..]
    ensures c !in s ==> r == s
  {
    s[LastIndexOf(s, c) + 1..]
  }

  /** `os.path.basename`: the last component of a '/'-separated path. */
  function Basename(path: string): (r: string)
    ensures '/' !in r
  {
    AfterLast(path, '/')
  }

  /** `os.path.join(a, b)` for POSIX paths. */
  function PathJoin(a: string, b: string): string {
    if StartsWith(b, "/") then b
    else if a == [] || EndsWith(a, "/") then a + b
    else a + "/" + b
  }

  function Digit(d: nat): char
    requires d < 10
  {
    ('0' as int + d) as char
  }

  /** Python's `str(n)` for a natural number. */
  function NatText(n: nat): (r: string)
    ensures r != []
    decreases n
  {
    if n < 10 then [Digit(n)] else NatText(n / 10) + [Digit(n % 10)]
  }

  /** Python's `str(i)` for an integer. */
  function IntText(i: int): string {
    if i < 0 then "-" + NatText(-i) else NatText(i)
  }
}
