/** normalize_to_hebrew_sources.py: every data row of the schedule with at least five columns
    has the English Torah book names in its biblical-source column (index 4) and its summary
    (index 3) replaced by the Hebrew names, and the rows that changed are counted. */
module Normalize {
  import opened Common

  /** The `english_to_hebrew` dictionary, in insertion order. */
  const EnglishToHebrew: seq<(string, string)> := [
    ("Genesis", "Bereishis"),
    ("Exodus", "Shemos"),
    ("Leviticus", "Vayikra"),
    ("Numbers", "Bamidbar"),
    ("Deuteronomy", "Devarim")
  ]

  // ---------------------------------------------------------------------------
  // The biblical-source column

  /** The source column as the loop writes it: each name found in the ORIGINAL text replaces
      the column by that original with only this name replaced, so the last name found wins. */
  function SourceAsWritten(original: string, pairs: seq<(string, string)>): (r: string)
    requires forall k :: 0 <= k < |pairs| ==> pairs[k].0 != []
  {
    if pairs == [] then original
    else
      var (english, hebrew) := pairs[|pairs| - 1];
      if Contains(original, english) then ReplaceAll(original, english, hebrew)
      else SourceAsWritten(original, pairs[..|pairs| - 1])
  }

  /** The source column with the replacements chained, each applied to the previous result. */
  function SourceChained(source: string, pairs: seq<(string, string)>): string
    requires forall k :: 0 <= k < |pairs| ==> pairs[k].0 != []
  {
    if pairs == [] then source
    else
      var r := SourceChained(source, pairs[..|pairs| - 1]);
      var (english, hebrew) := pairs[|pairs| - 1];
      if Contains(r, english) then ReplaceAll(r, english, hebrew) else r
  }

  /** The source-column loop as written: each name found in the column as read replaces the
      column by that text with only this name replaced. */
  method RewriteSource(source: string, pairs: seq<(string, string)>) returns (r: string)
    requires forall k :: 0 <= k < |pairs| ==> pairs[k].0 != []
    ensures r == SourceAsWritten(source, pairs)
  {
    r := source;
    for k := 0 to |pairs|
      invariant r == SourceAsWritten(source, pairs[..k])
    {
      assert pairs[..k + 1][..k] == pairs[..k];
      var (english, hebrew) := pairs[k];
      if Contains(source, english) {
        r := ReplaceAll(source, english, hebrew);
      }
    }
    assert pairs[..|pairs|] == pairs;
  }

  /** The corrected source-column loop, with each replacement applied to the column as it now
      stands. */
  method RewriteSourceChained(source: string, pairs: seq<(string, string)>) returns (r: string)
    requires forall k :: 0 <= k < |pairs| ==> pairs[k].0 != []
    ensures r == SourceChained(source, pairs)
  {
    r := source;
    for k := 0 to |pairs|
      invariant r == SourceChained(source, pairs[..k])
    {
      assert pairs[..k + 1][..k] == pairs[..k];
      var (english, hebrew) := pairs[k];
      if Contains(r, english) {
        r := ReplaceAll(r, english, hebrew);
      }
    }
    assert pairs[..|pairs|] == pairs;
  }

  // ---------------------------------------------------------------------------
  // The summary column

  /** The case-insensitive pass: each English name, in any case, replaced in turn. */
  function SummaryCI(summary: string, pairs: seq<(string, string)>): string
    requires forall k :: 0 <= k < |pairs| ==> pairs[k].0 != []
  {
    if pairs == [] then summary
    else ReplaceAllCI(SummaryCI(summary, pairs[..|pairs| - 1]), pairs[|pairs| - 1].0, pairs[|pairs| - 1].1)
  }

  /** The end of a match of `\(name\s+\d+` under IGNORECASE at the start of `s`. */
  function ParenMatchEnd(s: string, name: string): (r: Option<nat>)
    ensures r.Some? ==> 1 + |name| < r.value <= |s| && s[0] == '('
  {
    if |s| < 1 + |name| || s[0] != '(' || !StartsWithCI(s[1..], name) then None
    else
      var w := SpaceEnd(s, 1 + |name|);
      var d := DigitEnd(s, w);
      if w == 1 + |name| || d == w then None else Some(d)
  }

  /** `pattern.sub(lambda m: m.group(0).replace(name, hebrew), s)` for the pattern above: in
      each match the lower-case name, written exactly so, is replaced. */
  function ParenSub(s: string, name: string, hebrew: string): string
    requires name != []
    decreases |s|
  {
    if s == [] then []
    else
      var m := ParenMatchEnd(s, name);
      if m.Some? then ReplaceAll(s[..m.value], name, hebrew) + ParenSub(s[m.value..], name, hebrew)
      else [s[0]] + ParenSub(s[1..], name, hebrew)
  }

  /** The parentheses pass, one book name at a time. */
  function ParenPass(summary: string, pairs: seq<(string, string)>): string
    requires forall k :: 0 <= k < |pairs| ==> pairs[k].0 != []
  {
    if pairs == [] then summary
    else
      var (english, hebrew) := pairs[|pairs| - 1];
      ParenSub(ParenPass(summary, pairs[..|pairs| - 1]), Lower(english), hebrew)
  }

  function NormalizeSummary(summary: string, pairs: seq<(string, string)>): string
    requires forall k :: 0 <= k < |pairs| ==> pairs[k].0 != []
  {
    ParenPass(SummaryCI(summary, pairs), pairs)
  }

  /** The two summary loops. */
  method RewriteSummary(summary0: string, pairs: seq<(string, string)>) returns (summary: string)
    requires forall k :: 0 <= k < |pairs| ==> pairs[k].0 != []
    ensures summary == NormalizeSummary(summary0, pairs)
  {
    summary := summary0;
    for k := 0 to |pairs|
      invariant summary == SummaryCI(summary0, pairs[..k])
    {
      assert pairs[..k + 1][..k] == pairs[..k];
      summary := ReplaceAllCI(summary, pairs[k].0, pairs[k].1);
    }
    assert pairs[..|pairs|] == pairs;
    ghost var afterCI := summary;
    for k := 0 to |pairs|
      invariant summary == ParenPass(afterCI, pairs[..k])
    {
      assert pairs[..k + 1][..k] == pairs[..k];
      var (english, hebrew) := pairs[k];
      summary := ParenSub(summary, Lower(english), hebrew);
    }
  }

  // ---------------------------------------------------------------------------
  // Rows

  /** One data row with at least five columns, rewritten. */
  function NormalizeRow(row: seq<string>, pairs: seq<(string, string)>): (r: seq<string>)
    requires |row| >= 5 && forall k :: 0 <= k < |pairs| ==> pairs[k].0 != []
    ensures |r| == |row| && forall c :: 0 <= c < |row| && c != 3 && c != 4 ==> r[c] == row[c]
  {
    row[4 := SourceAsWritten(row[4], pairs)][3 := NormalizeSummary(row[3], pairs)]
  }

  /** All rows: the header and rows of fewer than five columns as they were. */
  function NormalizedRows(rows: seq<seq<string>>, pairs: seq<(string, string)>): (r: seq<seq<string>>)
    requires forall k :: 0 <= k < |pairs| ==> pairs[k].0 != []
    ensures |r| == |rows|
  {
    seq(|rows|, i requires 0 <= i < |rows| => NormalizedAt(rows[i], i, pairs))
  }

  /** Row `i` after the rewrite. */
  function NormalizedAt(row: seq<string>, i: nat, pairs: seq<(string, string)>): seq<string>
    requires forall k :: 0 <= k < |pairs| ==> pairs[k].0 != []
  {
    if i == 0 || |row| < 5 then row else NormalizeRow(row, pairs)
  }

  /** The number of positions at which two lists of rows differ. */
  function ChangedRows(a: seq<seq<string>>, b: seq<seq<string>>): nat
    requires |a| == |b|
  {
    if a == [] then 0
    else ChangedRows(a[..|a| - 1], b[..|b| - 1]) + (if a[|a| - 1] != b[|b| - 1] then 1 else 0)
  }

  /** `normalize_biblical_sources`, on the rows once read: rewrites the rows in place and
      returns `changes_made`. */
  method NormalizeBiblicalSources(rows: array<seq<string>>) returns (changesMade: nat)
    modifies rows
    ensures rows[..] == NormalizedRows(old(rows[..]), EnglishToHebrew)
    ensures changesMade == ChangedRows(old(rows[..]), rows[..])
  {
    changesMade := NormalizeRows(rows, EnglishToHebrew);
  }

  method NormalizeRows(rows: array<seq<string>>, pairs: seq<(string, string)>) returns (changesMade: nat)
    requires forall k :: 0 <= k < |pairs| ==> pairs[k].0 != []
    modifies rows
    ensures rows[..] == NormalizedRows(old(rows[..]), pairs)
    ensures changesMade == ChangedRows(old(rows[..]), rows[..])
  {
    ghost var original := rows[..];
    ghost var target := NormalizedRows(original, pairs);
    changesMade := 0;
    for i := 0 to rows.Length
      invariant forall k :: 0 <= k < i ==> rows[k] == target[k]
      invariant forall k :: i <= k < rows.Length ==> rows[k] == original[k]
      invariant changesMade == ChangedRows(original[..i], target[..i])
    {
      ChangedRowsStep(original, target, i);
      var changed := NormalizeAt(rows, i, pairs);
      if changed {
        changesMade := changesMade + 1;
      }
    }
    assert rows[..] == target;
    assert original[..rows.Length] == original && target[..rows.Length] == target;
  }

  /** One turn of the row loop: the header and short rows are skipped, a data row is rewritten;
      reports whether the row changed. */
  method NormalizeAt(rows: array<seq<string>>, i: nat, pairs: seq<(string, string)>) returns (changed: bool)
    requires i < rows.Length && forall k :: 0 <= k < |pairs| ==> pairs[k].0 != []
    modifies rows
    ensures rows[..] == old(rows[..])[i := NormalizedAt(old(rows[i]), i, pairs)]
    ensures changed <==> rows[i] != old(rows[i])
  {
    if i == 0 || |rows[i]| < 5 {
      return false;
    }
    var originalRow := rows[i];
    var row := RewriteRow(originalRow, pairs);
    rows[i] := row;
    changed := row != originalRow;
  }

  /** The two column rewrites of one data row: the source column, then the summary. */
  method RewriteRow(row0: seq<string>, pairs: seq<(string, string)>) returns (row: seq<string>)
    requires |row0| >= 5 && forall k :: 0 <= k < |pairs| ==> pairs[k].0 != []
    ensures row == NormalizeRow(row0, pairs)
  {
    var source := RewriteSource(row0[4], pairs);
    row := row0[4 := source];
    var summary := RewriteSummary(row[3], pairs);
    row := row[3 := summary];
  }

  // ---------------------------------------------------------------------------
  // Properties

  /** The header row and rows of fewer than five columns are never changed, and in the other
      rows only the summary and the source column can change. */
  lemma OnlySummaryAndSourceChange(rows: seq<seq<string>>, i: nat, c: nat)
    requires i < |rows| && c < |rows[i]| && !(i > 0 && |rows[i]| >= 5 && (c == 3 || c == 4))
    ensures |NormalizedRows(rows, EnglishToHebrew)[i]| == |rows[i]|
    ensures NormalizedRows(rows, EnglishToHebrew)[i][c] == rows[i][c]
  {
  }

  /** Counting one more position. */
  lemma ChangedRowsStep(a: seq<seq<string>>, b: seq<seq<string>>, i: nat)
    requires |a| == |b| && i < |a|
    ensures ChangedRows(a[..i + 1], b[..i + 1]) == ChangedRows(a[..i], b[..i]) + (if a[i] != b[i] then 1 else 0)
  {
    assert a[..i + 1][..i] == a[..i] && b[..i + 1][..i] == b[..i];
  }

  /** `changes_made` is zero exactly when no row changed, and never counts the header. */
  lemma {:induction false} ChangedRowsZero(a: seq<seq<string>>, b: seq<seq<string>>)
    requires |a| == |b|
    ensures ChangedRows(a, b) == 0 <==> a == b
    ensures ChangedRows(a, b) <= |a|
    ensures a != [] && a[0] == b[0] ==> ChangedRows(a, b) <= |a| - 1
  {
    if a != [] {
      var n := |a| - 1;
      ChangedRowsZero(a[..n], b[..n]);
      assert a == a[..n] + [a[n]] && b == b[..n] + [b[n]];
      if n > 0 && a[0] == b[0] {
        assert a[..n][0] == b[..n][0];
      }
    }
  }

  // The as-written source loop keeps all but one name.

  /** As written, the column is the original with only the LAST name found in it replaced. */
  lemma {:induction false} AsWrittenLastFound(original: string, pairs: seq<(string, string)>, k: nat)
    requires (forall j :: 0 <= j < |pairs| ==> pairs[j].0 != []) && k < |pairs|
    requires Contains(original, pairs[k].0)
    requires forall j :: k < j < |pairs| ==> !Contains(original, pairs[j].0)
    ensures SourceAsWritten(original, pairs) == ReplaceAll(original, pairs[k].0, pairs[k].1)
  {
    var n := |pairs| - 1;
    if k < n {
      assert pairs[..n][k] == pairs[k];
      AsWrittenLastFound(original, pairs[..n], k);
    }
  }

  /** As written, the column is either the original or the original with exactly one name
      replaced, one that occurs in it; with no name in it, it is the original. */
  lemma {:induction false} AsWrittenOneName(original: string, pairs: seq<(string, string)>)
    requires forall k :: 0 <= k < |pairs| ==> pairs[k].0 != []
    ensures (forall k :: 0 <= k < |pairs| ==> !Contains(original, pairs[k].0)) ==> SourceAsWritten(original, pairs) == original
    ensures SourceAsWritten(original, pairs) == original
      || (exists k :: 0 <= k < |pairs| && Contains(original, pairs[k].0)
            && SourceAsWritten(original, pairs) == ReplaceAll(original, pairs[k].0, pairs[k].1))
  {
    if pairs != [] {
      var n := |pairs| - 1;
      AsWrittenOneName(original, pairs[..n]);
      if !Contains(original, pairs[n].0) && SourceAsWritten(original, pairs) != original {
        var k :| 0 <= k < n && Contains(original, pairs[..n][k].0)
          && SourceAsWritten(original, pairs[..n]) == ReplaceAll(original, pairs[..n][k].0, pairs[..n][k].1);
        assert pairs[..n][k] == pairs[k];
      }
    }
  }

  /** "Genesis 1:28; Exodus 12:2" keeps "Genesis": only the last name found is replaced. */
  lemma AsWrittenKeepsGenesis()
    ensures Contains(SourceAsWritten("Genesis 1:28; Exodus 12:2", EnglishToHebrew), "Genesis")
  {
    KeepsGenesis("Genesis 1:28; Exodus 12:2", EnglishToHebrew);
  }

  /** The same in the rewritten rows: a data row citing "Genesis 1:28; Exodus 12:2" still has
      "Genesis" in its source column afterwards. */
  lemma RowKeepsGenesis(rows: seq<seq<string>>, i: nat)
    requires 0 < i < |rows| && |rows[i]| >= 5 && rows[i][4] == "Genesis 1:28; Exodus 12:2"
    ensures Contains(NormalizedRows(rows, EnglishToHebrew)[i][4], "Genesis")
  {
    KeepsGenesis(rows[i][4], EnglishToHebrew);
  }

  lemma KeepsGenesis(s: string, p: seq<(string, string)>)
    requires s == "Genesis 1:28; Exodus 12:2" && p == EnglishToHebrew
    ensures Contains(SourceAsWritten(s, p), "Genesis")
  {
    ExampleNames(s, p);
    AsWrittenLastFound(s, p, 1);
    GenesisKept(s);
  }

  lemma ExampleNames(s: string, p: seq<(string, string)>)
    requires s == "Genesis 1:28; Exodus 12:2" && p == EnglishToHebrew
    ensures Contains(s, p[1].0) && !Contains(s, p[2].0) && !Contains(s, p[3].0) && !Contains(s, p[4].0)
  {
    ExodusInExample(s);
    AbsentFromExample(s, p[2].0, 'L');
    AbsentFromExample(s, p[3].0, 'N');
    AbsentFromExample(s, p[4].0, 'D');
  }

  lemma AbsentFromExample(s: string, name: string, c: char)
    requires s == "Genesis 1:28; Exodus 12:2" && name in ["Leviticus", "Numbers", "Deuteronomy"] && c == name[0]
    ensures !Contains(s, name)
  {
    CharAbsentNotContained(s, name, c);
  }

  lemma ExodusInExample(s: string)
    requires s == "Genesis 1:28; Exodus 12:2"
    ensures Contains(s, "Exodus")
  {
    assert s[14..][..6] == "Exodus";
    assert Contains(s[14..], "Exodus");
    ContainsSuffixOf(s, 14, "Exodus");
  }

  lemma GenesisKept(s: string)
    requires s == "Genesis 1:28; Exodus 12:2"
    ensures Contains(ReplaceAll(s, "Exodus", "Shemos"), "Genesis")
  {
    ReplaceAllPrefix(s, "Exodus", "Shemos", 7);
    assert s[..7] == "Genesis";
  }

  /** The first `n` characters are copied when none of them starts the replaced text. */
  lemma {:induction false} ReplaceAllPrefix(s: string, pat: string, rep: string, n: nat)
    requires pat != [] && n <= |s|
    requires forall k :: 0 <= k < n ==> s[k] != pat[0]
    ensures StartsWith(ReplaceAll(s, pat, rep), s[..n])
  {
    if n > 0 && |s| >= |pat| {
      assert s[..|pat|][0] == s[0];
      ReplaceAllPrefix(s[1..], pat, rep, n - 1);
      assert s[..n] == [s[0]] + s[1..][..n - 1];
    }
  }

  /** A string without the character `c` does not contain a text holding `c`. */
  lemma {:induction false} CharAbsentNotContained(s: string, p: string, c: char)
    requires c in p && c !in s
    ensures !Contains(s, p)
  {
    if s != [] {
      CharAbsentNotContained(s[1..], p, c);
    }
  }

  // The chained source loop leaves no English name behind.

  predicate IsUpperChar(c: char) { 'A' <= c <= 'Z' }
  predicate IsLowerChar(c: char) { 'a' <= c <= 'z' }

  /** A capitalised word: one capital letter, then lower-case letters only. */
  predicate CapWord(w: string) {
    |w| >= 1 && IsUpperChar(w[0]) && forall j :: 1 <= j < |w| ==> IsLowerChar(w[j])
  }

  /** Neither word is a prefix of the other. */
  predicate Apart(e: string, h: string) {
    !StartsWith(e, h) && !StartsWith(h, e)
  }

  /** The table's names are capitalised words, and no English name and Hebrew name share a
      prefix relation. */
  predicate WellFormed(pairs: seq<(string, string)>) {
    (forall k :: 0 <= k < |pairs| ==> CapWord(pairs[k].0) && CapWord(pairs[k].1))
    && forall i, j :: 0 <= i < |pairs| && 0 <= j < |pairs| ==> Apart(pairs[i].0, pairs[j].1)
  }

  lemma ApartAt(e: string, h: string, j: nat)
    requires j < |e| && j < |h| && e[j] != h[j]
    ensures Apart(e, h)
  {
  }

  lemma EnglishToHebrewWellFormed()
    ensures WellFormed(EnglishToHebrew)
  {
    TableWellFormed(EnglishToHebrew);
  }

  lemma TableWellFormed(p: seq<(string, string)>)
    requires p == EnglishToHebrew
    ensures WellFormed(p)
  {
    forall k | 0 <= k < |p| ensures CapWord(p[k].0) && CapWord(p[k].1) {
      TableCapWords(p, k);
    }
    forall i, j | 0 <= i < |p| && 0 <= j < |p| ensures Apart(p[i].0, p[j].1) {
      if i == 4 && j == 4 {
        ApartAt(p[i].0, p[j].1, 2);
      } else {
        ApartAt(p[i].0, p[j].1, 0);
      }
    }
  }

  lemma TableCapWords(p: seq<(string, string)>, k: nat)
    requires p == EnglishToHebrew && k < |p|
    ensures CapWord(p[k].0) && CapWord(p[k].1)
  {
  }

  /** A run of lower-case letters at the start of a replaced text was there before: the
      inserted word starts with a capital. */
  lemma {:induction false} LowerRunKept(t: string, a: string, h: string, w: string)
    requires a != [] && CapWord(h) && forall k :: 0 <= k < |w| ==> IsLowerChar(w[k])
    requires StartsWith(ReplaceAll(t, a, h), w)
    ensures StartsWith(t, w)
    decreases |t|
  {
    if |t| >= |a| && w != [] {
      if t[..|a|] == a {
        assert false;
      } else {
        var rest := ReplaceAll(t[1..], a, h);
        assert ReplaceAll(t, a, h) == [t[0]] + rest;
        assert StartsWith(rest, w[1..]) by {
          assert ([t[0]] + rest)[..|w|][1..] == rest[..|w| - 1];
        }
        assert w[0] == ReplaceAll(t, a, h)[0] == t[0];
        LowerRunKept(t[1..], a, h, w[1..]);
        assert t[..|w|] == [w[0]] + w[1..] == w;
      }
    }
  }

  lemma {:induction false} ContainsSuffixOf(s: string, k: nat, e: string)
    requires k <= |s| && Contains(s[k..], e)
    ensures Contains(s, e)
    decreases k
  {
    if k > 0 {
      assert s[1..][k - 1..] == s[k..];
      ContainsSuffixOf(s[1..], k - 1, e);
    }
  }

  lemma {:induction false} ContainsLength(s: string, e: string)
    requires Contains(s, e)
    ensures |e| <= |s|
  {
    if !StartsWith(s, e) {
      ContainsLength(s[1..], e);
    }
  }

  /** An occurrence of a capitalised word in `h + x` lies in `x`, when the word and `h` are
      apart. */
  lemma {:induction false} ContainsAfterWord(h: string, x: string, e: string, j: nat)
    requires CapWord(h) && CapWord(e) && Apart(e, h) && j <= |h|
    requires Contains((h + x)[j..], e)
    ensures Contains(x, e)
    decreases |h| - j
  {
    var t := (h + x)[j..];
    if j == |h| {
      assert t == x;
    } else {
      if StartsWith(t, e) {
        assert false;
      }
      assert t[1..] == (h + x)[j + 1..];
      ContainsAfterWord(h, x, e, j + 1);
    }
  }

  /** Replacing by a capitalised word apart from `e` creates no occurrence of `e`, and leaves
      none of the replaced word `a` itself. */
  lemma {:induction false} ReplaceCreatesNone(s: string, a: string, h: string, e: string)
    requires a != [] && CapWord(h) && CapWord(e) && Apart(e, h)
    requires Contains(ReplaceAll(s, a, h), e)
    ensures Contains(s, e) && e != a
    decreases |s|
  {
    var r := ReplaceAll(s, a, h);
    if |s| < |a| {
      ContainsLength(s, e);
      if e == a { assert false; }
    } else if s[..|a|] == a {
      var rest := ReplaceAll(s[|a|..], a, h);
      assert r == h + rest;
      assert (h + rest)[0..] == h + rest;
      ContainsAfterWord(h, rest, e, 0);
      ReplaceCreatesNone(s[|a|..], a, h, e);
      ContainsSuffixOf(s, |a|, e);
    } else {
      var rest := ReplaceAll(s[1..], a, h);
      assert r == [s[0]] + rest;
      if StartsWith(r, e) {
        assert StartsWith(rest, e[1..]) by {
          assert r[..|e|][1..] == rest[..|e| - 1];
        }
        LowerRunKept(s[1..], a, h, e[1..]);
        assert s[..|e|] == [s[0]] + s[1..][..|e| - 1];
        assert StartsWith(s, e);
        if e == a { assert false; }
      } else {
        assert r[1..] == rest;
        ReplaceCreatesNone(s[1..], a, h, e);
        ContainsSuffixOf(s, 1, e);
      }
    }
  }

  /** With the replacements chained, no English name of the table is left in the column. */
  lemma {:induction false} ChainedRemovesAll(source: string, pairs: seq<(string, string)>, k: nat)
    requires WellFormed(pairs) && k < |pairs|
    ensures !Contains(SourceChained(source, pairs), pairs[k].0)
  {
    var n := |pairs| - 1;
    var init := pairs[..n];
    var r := SourceChained(source, init);
    var (english, hebrew) := pairs[n];
    if k < n {
      assert init[k] == pairs[k];
      ChainedRemovesAll(source, init, k);
      if Contains(SourceChained(source, pairs), pairs[k].0) {
        assert Contains(r, english);
        ReplaceCreatesNone(r, english, hebrew, pairs[k].0);
      }
    } else if Contains(SourceChained(source, pairs), english) {
      assert Contains(r, english);
      ReplaceCreatesNone(r, english, hebrew, english);
    }
  }

  /** The corrected source column holds none of the five English names. */
  lemma SourceHasNoEnglishName(source: string, k: nat)
    requires k < |EnglishToHebrew|
    ensures !Contains(SourceChained(source, EnglishToHebrew), EnglishToHebrew[k].0)
  {
    EnglishToHebrewWellFormed();
    ChainedRemovesAll(source, EnglishToHebrew, k);
  }

  /** A source column holding no English name is kept as it is. */
  lemma {:induction false} ChainedKeepsOtherText(source: string, pairs: seq<(string, string)>)
    requires forall k :: 0 <= k < |pairs| ==> pairs[k].0 != [] && !Contains(source, pairs[k].0)
    ensures SourceChained(source, pairs) == source
  {
    if pairs != [] {
      ChainedKeepsOtherText(source, pairs[..|pairs| - 1]);
    }
  }

  // The summary pass ignores case.

  lemma LowerSlice(s: string, i: nat, j: nat)
    requires i <= j <= |s|
    ensures Lower(s[i..j]) == Lower(s)[i..j]
  {
  }

  /** Which text the case-insensitive replacement rewrites depends only on the letters, not on
      their case: texts equal up to case are rewritten to texts equal up to case. */
  lemma {:induction false} ReplaceCIIgnoresCase(s: string, t: string, e: string, h: string)
    requires e != [] && Lower(s) == Lower(t)
    ensures Lower(ReplaceAllCI(s, e, h)) == Lower(ReplaceAllCI(t, e, h))
    decreases |s|
  {
    assert |s| == |Lower(s)| == |t|;
    if |s| >= |e| {
      LowerSlice(s, 0, |e|);
      LowerSlice(t, 0, |e|);
      if StartsWithCI(s, e) {
        assert StartsWithCI(t, e);
        LowerSlice(s, |e|, |s|);
        LowerSlice(t, |e|, |t|);
        assert s[|e|..|s|] == s[|e|..] && t[|e|..|t|] == t[|e|..];
        ReplaceCIIgnoresCase(s[|e|..], t[|e|..], e, h);
        LowerConcat(h, ReplaceAllCI(s[|e|..], e, h));
        LowerConcat(h, ReplaceAllCI(t[|e|..], e, h));
      } else {
        assert !StartsWithCI(t, e);
        LowerSlice(s, 1, |s|);
        LowerSlice(t, 1, |t|);
        assert s[1..|s|] == s[1..] && t[1..|t|] == t[1..];
        ReplaceCIIgnoresCase(s[1..], t[1..], e, h);
        assert Lower(s)[0] == Lower(t)[0];
        LowerConcat([s[0]], ReplaceAllCI(s[1..], e, h));
        LowerConcat([t[0]], ReplaceAllCI(t[1..], e, h));
      }
    }
  }

  lemma LowerConcat(a: string, b: string)
    ensures Lower(a + b) == Lower(a) + Lower(b)
  {
  }

  /** The whole case-insensitive summary pass, likewise. */
  lemma {:induction false} SummaryIgnoresCase(s: string, t: string, pairs: seq<(string, string)>)
    requires (forall k :: 0 <= k < |pairs| ==> pairs[k].0 != []) && Lower(s) == Lower(t)
    ensures Lower(SummaryCI(s, pairs)) == Lower(SummaryCI(t, pairs))
  {
    if pairs != [] {
      var n := |pairs| - 1;
      SummaryIgnoresCase(s, t, pairs[..n]);
      ReplaceCIIgnoresCase(SummaryCI(s, pairs[..n]), SummaryCI(t, pairs[..n]), pairs[n].0, pairs[n].1);
    }
  }

  /** A name in any case is replaced: "GENESIS" becomes "Bereishis". */
  lemma UpperCaseNameReplaced()
    ensures ReplaceAllCI("GENESIS", "Genesis", "Bereishis") == "Bereishis"
  {
    assert Lower("GENESIS") == Lower("Genesis");
    assert "GENESIS"[7..] == [];
  }

  // Each case-insensitive pass removes its own name, when the name cannot run into its
  // replacement.

  /** No lower-cased occurrence of `e` can start inside `h` or run from before `h` into it:
      no suffix of `h` and no proper suffix of `e` is compatible with the other word. */
  predicate NoOverlap(e: string, h: string) {
    (forall j :: 1 <= j < |e| ==> Apart(e[j..], h))
    && (forall i :: 0 <= i < |h| ==> Apart(e, h[i..]))
  }

  /** A text that starts `x + y` is compatible with `x`. */
  lemma PrefixCompatible(x: string, y: string, w: string)
    requires StartsWith(x + y, w)
    ensures !Apart(w, x)
  {
    if |w| <= |x| {
      assert x[..|w|] == (x + y)[..|w|];
    } else {
      assert w[..|x|] == (x + y)[..|x|];
    }
  }

  /** Text at the start of a case-insensitive replacement that no suffix of it lets run into the
      replacement was already there, up to case. */
  lemma {:induction false} LowerPrefixKept(t: string, e: string, h: string, w: string)
    requires e != [] && StartsWith(Lower(ReplaceAllCI(t, e, h)), w)
    requires forall m :: 0 <= m < |w| ==> Apart(w[m..], Lower(h))
    ensures StartsWith(Lower(t), w)
    decreases |t|
  {
    if w != [] && |t| >= |e| {
      if StartsWithCI(t, e) {
        assert w[0..] == w && Apart(w[0..], Lower(h));
        var rest := ReplaceAllCI(t[|e|..], e, h);
        LowerConcat(h, rest);
        PrefixCompatible(Lower(h), Lower(rest), w);
        assert false;
      } else {
        var rest := ReplaceAllCI(t[1..], e, h);
        LowerConcat([t[0]], rest);
        var r := Lower([t[0]]) + Lower(rest);
        assert StartsWith(Lower(rest), w[1..]) by {
          assert r[..|w|][1..] == Lower(rest)[..|w| - 1];
        }
        forall m | 0 <= m < |w[1..]| ensures Apart(w[1..][m..], Lower(h)) {
          assert w[1..][m..] == w[m + 1..];
        }
        LowerPrefixKept(t[1..], e, h, w[1..]);
        LowerSlice(t, 1, |t|);
        assert t[1..|t|] == t[1..];
        assert Lower(t)[..|w|] == [w[0]] + w[1..] == w;
      }
    }
  }

  /** An occurrence in `x + y` from position `i` on lies in `y`, when `e` is compatible with no
      suffix of `x` from `i` on. */
  lemma {:induction false} ContainsAfterApart(x: string, y: string, e: string, i: nat)
    requires i <= |x| && forall m :: i <= m < |x| ==> Apart(e, x[m..])
    requires !Contains(y, e)
    ensures !Contains((x + y)[i..], e)
    decreases |x| - i
  {
    if i == |x| {
      assert (x + y)[i..] == y;
    } else {
      assert (x + y)[i..] == x[i..] + y;
      if StartsWith(x[i..] + y, e) {
        PrefixCompatible(x[i..], y, e);
      }
      ContainsAfterApart(x, y, e, i + 1);
      assert (x + y)[i..][1..] == (x + y)[i + 1..];
    }
  }

  /** One pass of `pattern.sub(hebrew, summary)` under IGNORECASE leaves no occurrence of the
      name, in any case, when the lower-cased name and replacement do not overlap. */
  lemma {:induction false} PassRemovesName(s: string, e: string, h: string)
    requires e != [] && NoOverlap(Lower(e), Lower(h))
    ensures !Contains(Lower(ReplaceAllCI(s, e, h)), Lower(e))
    decreases |s|
  {
    var le := Lower(e);
    var r := ReplaceAllCI(s, e, h);
    if |s| < |e| {
      if Contains(Lower(r), le) {
        ContainsLength(Lower(r), le);
      }
    } else if StartsWithCI(s, e) {
      var rest := ReplaceAllCI(s[|e|..], e, h);
      LowerConcat(h, rest);
      PassRemovesName(s[|e|..], e, h);
      ContainsAfterApart(Lower(h), Lower(rest), le, 0);
      assert (Lower(h) + Lower(rest))[0..] == Lower(r);
    } else {
      var rest := ReplaceAllCI(s[1..], e, h);
      LowerConcat([s[0]], rest);
      PassRemovesName(s[1..], e, h);
      if StartsWith(Lower(r), le) {
        MatchFromTail(s, e, h);
        assert false;
      }
      assert Lower(r)[1..] == Lower(rest);
    }
  }

  /** A lower-cased name at the start of the pass's output, when the first letter was kept,
      was at the start of the input. */
  lemma MatchFromTail(s: string, e: string, h: string)
    requires e != [] && |s| >= |e| && NoOverlap(Lower(e), Lower(h))
    requires StartsWith(Lower([s[0]]) + Lower(ReplaceAllCI(s[1..], e, h)), Lower(e))
    ensures StartsWithCI(s, e)
  {
    var le := Lower(e);
    var rest := ReplaceAllCI(s[1..], e, h);
    var r := Lower([s[0]]) + Lower(rest);
    assert StartsWith(Lower(rest), le[1..]) by {
      assert r[..|le|][1..] == Lower(rest)[..|le| - 1];
    }
    forall m | 0 <= m < |le[1..]| ensures Apart(le[1..][m..], Lower(h)) {
      assert le[1..][m..] == le[m + 1..];
    }
    LowerPrefixKept(s[1..], e, h, le[1..]);
    LowerSlice(s, 1, |s|);
    LowerSlice(s, 0, |e|);
    assert s[1..|s|] == s[1..];
    assert Lower(s)[..|e|] == [le[0]] + le[1..] == le;
  }

  /** Pass `k` of the summary rewrite leaves no occurrence of its own name, in any case. */
  lemma PassKRemovesName(summary: string, pairs: seq<(string, string)>, k: nat)
    requires (forall j :: 0 <= j < |pairs| ==> pairs[j].0 != []) && k < |pairs|
    requires NoOverlap(Lower(pairs[k].0), Lower(pairs[k].1))
    ensures !Contains(Lower(SummaryCI(summary, pairs[..k + 1])), Lower(pairs[k].0))
  {
    assert pairs[..k + 1][..k] == pairs[..k] && pairs[..k + 1][k] == pairs[k];
    PassRemovesName(SummaryCI(summary, pairs[..k]), pairs[k].0, pairs[k].1);
  }

  /** Every table pair but "Exodus"/"Shemos" is free of overlap, so its pass removes its name. */
  lemma TableNoOverlap(k: nat)
    requires k < |EnglishToHebrew| && k != 1
    ensures NoOverlap(Lower(EnglishToHebrew[k].0), Lower(EnglishToHebrew[k].1))
  {
    PairNoOverlap(EnglishToHebrew[k].0, EnglishToHebrew[k].1);
  }

  lemma PairNoOverlap(e: string, h: string)
    requires (e, h) in [("Genesis", "Bereishis"), ("Leviticus", "Vayikra"), ("Numbers", "Bamidbar"), ("Deuteronomy", "Devarim")]
    ensures NoOverlap(Lower(e), Lower(h))
  {
    if e == "Genesis" {
      GenesisNoOverlap(e, h);
    } else if e == "Leviticus" {
      LeviticusNoOverlap(e, h);
    } else if e == "Numbers" {
      NumbersNoOverlap(e, h);
    } else {
      DeuteronomyNoOverlap(e, h);
    }
  }

  lemma GenesisNoOverlap(e: string, h: string)
    requires e == "Genesis" && h == "Bereishis"
    ensures NoOverlap(Lower(e), Lower(h))
  {
    assert Lower(e) == "genesis" && Lower(h) == "bereishis";
    WordsNoOverlap("genesis", "bereishis", 0, 0, 0);
  }

  lemma LeviticusNoOverlap(e: string, h: string)
    requires e == "Leviticus" && h == "Vayikra"
    ensures NoOverlap(Lower(e), Lower(h))
  {
    assert Lower(e) == "leviticus" && Lower(h) == "vayikra";
    WordsNoOverlap("leviticus", "vayikra", 2, 0, 0);
  }

  lemma NumbersNoOverlap(e: string, h: string)
    requires e == "Numbers" && h == "Bamidbar"
    ensures NoOverlap(Lower(e), Lower(h))
  {
    assert Lower(e) == "numbers" && Lower(h) == "bamidbar";
    WordsNoOverlap("numbers", "bamidbar", 3, 0, 0);
  }

  lemma DeuteronomyNoOverlap(e: string, h: string)
    requires e == "Deuteronomy" && h == "Devarim"
    ensures NoOverlap(Lower(e), Lower(h))
  {
    assert Lower(e) == "deuteronomy" && Lower(h) == "devarim";
    WordsNoOverlap("deuteronomy", "devarim", 0, 0, 2);
  }

  /** Two words without overlap, told apart at their first letters except at one suffix of `e`
      (`je`, told apart at its second letter) and one of `h` (`ih`, at letter `c`). */
  lemma WordsNoOverlap(e: string, h: string, je: nat, ih: nat, c: nat)
    requires |e| >= 2 && |h| >= 2
    requires forall j :: 1 <= j < |e| && j != je ==> e[j] != h[0]
    requires je > 0 ==> je + 1 < |e| && e[je + 1] != h[1]
    requires forall i :: 0 <= i < |h| && (i != ih || c == 0) ==> h[i] != e[0]
    requires c > 0 ==> ih + c < |h| && c < |e| && h[ih + c] != e[c]
    ensures NoOverlap(e, h)
  {
    forall j | 1 <= j < |e| ensures Apart(e[j..], h) {
      if j == je {
        ApartAt(e[j..], h, 1);
      } else {
        ApartAt(e[j..], h, 0);
      }
    }
    forall i | 0 <= i < |h| ensures Apart(e, h[i..]) {
      if i == ih && c > 0 {
        ApartAt(e, h[i..], c);
      } else {
        ApartAt(e, h[i..], 0);
      }
    }
  }

  /** "Exodus" and "Shemos" overlap in "s": one pass turns "ExoduExodus" into "ExoduShemos",
      which still reads "exodus" up to case. */
  lemma ExodusOverlapKept()
    ensures ReplaceAllCI("Exodu" + "Exodus", "Exodus", "Shemos") == "Exodu" + "Shemos"
    ensures StartsWith(Lower("Exodu" + "Shemos"), Lower("Exodus"))
  {
    var x, e := "Exodu", "Exodus";
    var t := x + e;
    MismatchAt(t[4..], e, 0);
    assert NoMatchFrom(t, e, 4, 5);
    MismatchAt(t[3..], e, 0);
    assert NoMatchFrom(t, e, 3, 5);
    MismatchAt(t[2..], e, 0);
    assert NoMatchFrom(t, e, 2, 5);
    MismatchAt(t[1..], e, 0);
    assert NoMatchFrom(t, e, 1, 5);
    MismatchAt(t, e, 5);
    assert t[0..] == t && NoMatchFrom(t, e, 0, 5);
    KeepPrefix(t, e, "Shemos", 5, 0);
    assert t[0..] == t && t[0..5] == x;
    assert Lower("Exodu" + "Shemos")[..6] == "exodus" == Lower(e);
  }

  /** A text followed by the name, with no match starting in the text, keeps the text and
      gets the replacement for the name: here from position `i` of `t`, the name at `n`. */
  lemma {:induction false} KeepPrefix(t: string, e: string, h: string, n: nat, i: nat)
    requires e != [] && i <= n <= |t| && t[n..] == e && NoMatchFrom(t, e, i, n)
    ensures ReplaceAllCI(t[i..], e, h) == t[i..n] + h
    decreases n - i
  {
    if i == n {
      ReplaceSelf(e, h);
      assert t[i..n] + h == h;
    } else {
      var u := t[i..];
      SkipFirst(u, e, h);
      assert u[1..] == t[i + 1..];
      KeepPrefix(t, e, h, n, i + 1);
      assert [u[0]] + (t[i + 1..n] + h) == t[i..n] + h;
    }
  }

  /** No match of `e`, in any case, starts at a position from `i` up to `n`. */
  predicate NoMatchFrom(t: string, e: string, i: nat, n: nat)
    requires n <= |t|
    decreases n - i
  {
    i >= n || (!StartsWithCI(t[i..], e) && NoMatchFrom(t, e, i + 1, n))
  }

  /** The name alone is replaced by the replacement alone. */
  lemma ReplaceSelf(e: string, h: string)
    requires e != []
    ensures ReplaceAllCI(e, e, h) == h
  {
    assert e[..|e|] == e && e[|e|..] == [];
    assert ReplaceAllCI(e, e, h) == h + ReplaceAllCI([], e, h);
  }

  /** Where no match starts, the first letter is kept. */
  lemma SkipFirst(t: string, e: string, h: string)
    requires e != [] && |e| <= |t| && !StartsWithCI(t, e)
    ensures ReplaceAllCI(t, e, h) == [t[0]] + ReplaceAllCI(t[1..], e, h)
  {
  }

  lemma MismatchAt(t: string, p: string, j: nat)
    requires j < |p| <= |t| && LowerChar(t[j]) != LowerChar(p[j])
    ensures !StartsWithCI(t, p)
  {
    assert Lower(t[..|p|])[j] != Lower(p)[j];
  }

  /** The parentheses pass leaves a summary without '(' as it is. */
  lemma {:induction false} ParenSubNeedsParen(s: string, name: string, hebrew: string)
    requires name != [] && '(' !in s
    ensures ParenSub(s, name, hebrew) == s
    decreases |s|
  {
    if s != [] {
      ParenSubNeedsParen(s[1..], name, hebrew);
    }
  }
}
