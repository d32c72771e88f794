/** scripts/convert_to_csv.py: the numbered master list is read line by line; a line starting
    with digits and a '.' opens an entry, the following non-blank, non-numbered lines are joined
    to it with single spaces, and the joined entry is split into number, mitzvah and reference at
    the first dash of the first of three patterns that matches (em dash, then "--", then any dash).
    Entries no pattern matches are skipped; the count returned is the number of rows kept. */
module MasterList {
  import opened Common

  /** A row of the CSV file: `[int(number), mitzvah.strip(), reference.strip()]`. */
  datatype MasterRow = MasterRow(number: nat, mitzvah: string, reference: string)

  /** `re.match(r'^\d+\.', line)` */
  predicate IsNumbered(line: string) {
    var d := DigitEnd(line, 0);
    0 < d < |line| && line[d] == '.'
  }

  // ---------------------------------------------------------------------------
  // The three entry patterns `^(\d+)\.\s*(.+?)SEP(.+)$`

  /** The separator of each pattern: '—', "--", and the class `[-–—]`. */
  datatype Separator = EmDash | DoubleHyphen | AnyDash

  const Patterns: seq<Separator> := [EmDash, DoubleHyphen, AnyDash]

  function SepLen(sep: Separator): nat {
    if sep == DoubleHyphen then 2 else 1
  }

  /** The separator occurs at `m` and at least one character follows it (the `(.+)$` group). */
  predicate SepAt(s: string, m: nat, sep: Separator) {
    && m + SepLen(sep) < |s|
    && match sep
       case EmDash => s[m] == '—'
       case DoubleHyphen => s[m] == '-' && s[m + 1] == '-'
       case AnyDash => s[m] == '-' || s[m] == '–' || s[m] == '—'
  }

  /** The lazy group `(.+?)`: the first separator at or after `m`. */
  function FirstSep(s: string, m: nat, sep: Separator): (r: Option<nat>)
    decreases |s| - m
    ensures r.Some? ==> m <= r.value && SepAt(s, r.value, sep)
    ensures r.Some? ==> forall q :: m <= q < r.value ==> !SepAt(s, q, sep)
    ensures r.None? ==> forall q :: m <= q ==> !SepAt(s, q, sep)
  {
    if |s| <= m then None
    else if SepAt(s, m, sep) then Some(m)
    else FirstSep(s, m + 1, sep)
  }

  /** The greedy `\s*` ends at `t`, tried from the longest run down to none; the mitzvah group
      starts at `t` and takes at least one character. Yields the start of the mitzvah group and
      the position of the separator. */
  function Backtrack(s: string, p: nat, t: nat, sep: Separator): (r: Option<(nat, nat)>)
    requires p <= t
    decreases t - p
    ensures r.Some? ==> p <= r.value.0 < r.value.1 && SepAt(s, r.value.1, sep)
  {
    var m := FirstSep(s, t + 1, sep);
    if m.Some? then Some((t, m.value))
    else if t == p then None
    else Backtrack(s, p, t - 1, sep)
  }

  /** `re.match(pattern, entry)` for one pattern, and the row built from its groups. */
  function MatchPattern(s: string, sep: Separator): (r: Option<MasterRow>)
    ensures r.Some? ==> IsNumbered(s) && r.value.number == ParseNat(s[..DigitEnd(s, 0)])
  {
    var d := DigitEnd(s, 0);
    if d == 0 || d == |s| || s[d] != '.' then None
    else
      match Backtrack(s, d + 1, SpaceEnd(s, d + 1), sep)
      case None => None
      case Some((t, m)) => Some(MasterRow(ParseNat(s[..d]), Strip(s[t..m]), Strip(s[m + SepLen(sep)..])))
  }

  /** The first pattern of `patterns` that matches wins. */
  function FirstMatch(s: string, patterns: seq<Separator>): (r: Option<MasterRow>)
    ensures r.Some? ==> exists q :: 0 <= q < |patterns| && r == MatchPattern(s, patterns[q])
    ensures r.None? ==> forall q :: 0 <= q < |patterns| ==> MatchPattern(s, patterns[q]).None?
  {
    if patterns == [] then None
    else if MatchPattern(s, patterns[0]).Some? then MatchPattern(s, patterns[0])
    else
      var r := FirstMatch(s, patterns[1..]);
      assert forall q :: 1 <= q < |patterns| ==> patterns[q] == patterns[1..][q - 1];
      r
  }

  function ParseEntry(entry: string): Option<MasterRow> {
    FirstMatch(entry, Patterns)
  }

  /** The pattern loop of `parse_mitzvot_file` for one joined entry. */
  method MatchPatterns(currentEntry: string, patterns: seq<Separator>) returns (parsed: Option<MasterRow>)
    ensures parsed == FirstMatch(currentEntry, patterns)
  {
    parsed := None;
    var k := 0;
    while k < |patterns|
      invariant 0 <= k <= |patterns|
      invariant FirstMatch(currentEntry, patterns) == FirstMatch(currentEntry, patterns[k..])
    {
      var m := MatchPattern(currentEntry, patterns[k]);
      if m.Some? {
        parsed := m;
        return;
      }
      k := k + 1;
    }
  }

  // ---------------------------------------------------------------------------
  // Lines and entries

  /** `s.split('\n')` */
  function SplitLines(s: string): (r: seq<string>)
    ensures |r| >= 1
    ensures forall k, c :: 0 <= k < |r| && 0 <= c < |r[k]| ==> r[k][c] != '\n'
  {
    if s == [] then [""]
    else
      var rest := SplitLines(s[1..]);
      if s[0] == '\n' then [""] + rest else [[s[0]] + rest[0]] + rest[1..]
  }

  /** A line that continues the current entry: not blank and not numbered. */
  predicate Continues(line: string) {
    Strip(line) != [] && !IsNumbered(Strip(line))
  }

  /** Where the inner loop stops: the first blank or numbered line at or after `j`. */
  function ContinuationEnd(lines: seq<string>, j: nat): (e: nat)
    requires j <= |lines|
    decreases |lines| - j
    ensures j <= e <= |lines| && (e < |lines| ==> !Continues(lines[e]))
    ensures forall k :: j <= k < e ==> Continues(lines[k])
  {
    if j == |lines| || !Continues(lines[j]) then j else ContinuationEnd(lines, j + 1)
  }

  /** `current_entry` after lines `i + 1 .. j - 1` have been appended. */
  function Joined(lines: seq<string>, i: nat, j: nat): (r: string)
    requires i < j <= |lines|
    decreases j
    ensures StartsWith(r, Strip(lines[i]))
  {
    if j == i + 1 then Strip(lines[i])
    else Joined(lines, i, j - 1) + " " + Strip(lines[j - 1])
  }

  /** The rows the outer loop appends from line `i` on, trying `patterns` on each entry. */
  function ParseFrom(patterns: seq<Separator>, lines: seq<string>, i: nat): (r: seq<MasterRow>)
    requires i <= |lines|
    decreases |lines| - i
  {
    if i == |lines| then []
    else if !IsNumbered(Strip(lines[i])) then ParseFrom(patterns, lines, i + 1)
    else
      var j := ContinuationEnd(lines, i + 1);
      var found := FirstMatch(Joined(lines, i, j), patterns);
      (if found.Some? then [found.value] else []) + ParseFrom(patterns, lines, j)
  }

  function ParseContent(content: string): seq<MasterRow> {
    ParseFrom(Patterns, SplitLines(Strip(content)), 0)
  }

  /** `parse_mitzvot_file` without the file reads and writes: the rows written and their count. */
  method ParseMitzvotFile(content: string) returns (mitzvotData: seq<MasterRow>, count: nat)
    ensures mitzvotData == ParseContent(content) && count == |mitzvotData|
  {
    var lines := SplitLines(Strip(content));
    mitzvotData := ParseLines(Patterns, lines);
    count := |mitzvotData|;
  }

  /** The outer loop over the lines. */
  method ParseLines(patterns: seq<Separator>, lines: seq<string>) returns (mitzvotData: seq<MasterRow>)
    ensures mitzvotData == ParseFrom(patterns, lines, 0)
  {
    mitzvotData := [];
    var i := 0;
    while i < |lines|
      invariant 0 <= i <= |lines|
      invariant mitzvotData + ParseFrom(patterns, lines, i) == ParseFrom(patterns, lines, 0)
      decreases |lines| - i
    {
      var line := Strip(lines[i]);
      if line == [] {
        assert !IsNumbered(line);
        i := i + 1;
      } else if IsNumbered(line) {
        var found, j := NextEntry(patterns, lines, i);
        assert mitzvotData + (found + ParseFrom(patterns, lines, j)) == (mitzvotData + found) + ParseFrom(patterns, lines, j);
        mitzvotData := mitzvotData + found;
        i := j;
      } else {
        i := i + 1;
      }
    }
    assert ParseFrom(patterns, lines, i) == [];
  }

  /** The numbered line `i` with its continuation lines: the row it yields, if any, and the
      line the outer loop resumes at. */
  method NextEntry(patterns: seq<Separator>, lines: seq<string>, i: nat) returns (found: seq<MasterRow>, j: nat)
    requires i < |lines| && IsNumbered(Strip(lines[i]))
    ensures i < j <= |lines| && |found| <= 1
    ensures ParseFrom(patterns, lines, i) == found + ParseFrom(patterns, lines, j)
  {
    var currentEntry;
    currentEntry, j := JoinEntry(lines, i);
    var parsed := MatchPatterns(currentEntry, patterns);
    found := if parsed.Some? then [parsed.value] else [];
  }

  /** The inner loop: `current_entry` and the first line after it. */
  method JoinEntry(lines: seq<string>, i: nat) returns (currentEntry: string, j: nat)
    requires i < |lines|
    ensures j == ContinuationEnd(lines, i + 1) && currentEntry == Joined(lines, i, j)
  {
    currentEntry := Strip(lines[i]);
    j := i + 1;
    while j < |lines|
      invariant i + 1 <= j <= |lines|
      invariant ContinuationEnd(lines, i + 1) == ContinuationEnd(lines, j)
      invariant currentEntry == Joined(lines, i, j)
      decreases |lines| - j
    {
      var nextLine := Strip(lines[j]);
      if IsNumbered(nextLine) || nextLine == [] {
        break;
      }
      currentEntry := currentEntry + " " + nextLine;
      j := j + 1;
    }
  }

  // ---------------------------------------------------------------------------
  // Properties

  /** Continuation lines are joined to the numbered line with single spaces. */
  lemma {:induction false} JoinedIsJoin(lines: seq<string>, i: nat, j: nat)
    requires i < j <= |lines|
    ensures Joined(lines, i, j) == Join(seq(j - i, k requires 0 <= k < j - i => Strip(lines[i + k])), " ")
  {
    var parts := seq(j - i, k requires 0 <= k < j - i => Strip(lines[i + k]));
    if j > i + 1 {
      JoinedIsJoin(lines, i, j - 1);
      var init := seq(j - 1 - i, k requires 0 <= k < j - 1 - i => Strip(lines[i + k]));
      assert parts == init + [Strip(lines[j - 1])];
      JoinSnoc(init, Strip(lines[j - 1]), " ");
    }
  }

  lemma {:induction false} JoinSnoc(parts: seq<string>, x: string, sep: string)
    requires parts != []
    ensures Join(parts + [x], sep) == Join(parts, sep) + sep + x
  {
    if |parts| > 1 {
      assert (parts + [x])[1..] == parts[1..] + [x];
      JoinSnoc(parts[1..], x, sep);
    }
  }

  /** The number of numbered lines from `i` on. */
  function NumberedCount(lines: seq<string>, i: nat): (n: nat)
    requires i <= |lines|
    decreases |lines| - i
    ensures n <= |lines| - i
  {
    if i == |lines| then 0
    else NumberedCount(lines, i + 1) + (if IsNumbered(Strip(lines[i])) then 1 else 0)
  }

  lemma {:induction false} NumberedCountSkips(lines: seq<string>, i: nat, j: nat)
    requires i <= j <= |lines| && forall k :: i <= k < j ==> !IsNumbered(Strip(lines[k]))
    ensures NumberedCount(lines, i) == NumberedCount(lines, j)
    decreases j - i
  {
    if i < j {
      NumberedCountSkips(lines, i + 1, j);
    }
  }

  /** At most one row per numbered line: entries never merge two numbered lines into two rows. */
  lemma {:induction false} RowsAtMostNumbered(lines: seq<string>, i: nat)
    requires i <= |lines|
    ensures |ParseFrom(Patterns, lines, i)| <= NumberedCount(lines, i)
    decreases |lines| - i
  {
    if i < |lines| {
      if !IsNumbered(Strip(lines[i])) {
        RowsAtMostNumbered(lines, i + 1);
      } else {
        var j := ContinuationEnd(lines, i + 1);
        RowsAtMostNumbered(lines, j);
        NumberedCountSkips(lines, i + 1, j);
      }
    }
  }

  /** When every numbered line's entry matches a pattern, there is exactly one row per numbered
      line. */
  lemma {:induction false} RowsExactlyNumbered(lines: seq<string>, i: nat)
    requires i <= |lines|
    requires forall k :: i <= k < |lines| && IsNumbered(Strip(lines[k])) ==>
               ParseEntry(Joined(lines, k, ContinuationEnd(lines, k + 1))).Some?
    ensures |ParseFrom(Patterns, lines, i)| == NumberedCount(lines, i)
    decreases |lines| - i
  {
    if i < |lines| {
      if !IsNumbered(Strip(lines[i])) {
        RowsExactlyNumbered(lines, i + 1);
      } else {
        var j := ContinuationEnd(lines, i + 1);
        RowsExactlyNumbered(lines, j);
        NumberedCountSkips(lines, i + 1, j);
      }
    }
  }

  /** A digit run followed by a non-digit keeps its end when text is appended. */
  lemma {:induction false} DigitEndAppend(s: string, t: string, j: nat)
    requires j <= |s| && DigitEnd(s, j) < |s|
    ensures DigitEnd(s + t, j) == DigitEnd(s, j)
    decreases |s| - j
  {
    assert (s + t)[j] == s[j];
    if IsDigit(s[j]) {
      DigitEndAppend(s, t, j + 1);
    }
  }

  /** Every row's number is the number that opens some numbered line. */
  lemma {:induction false} RowNumbersFromLines(lines: seq<string>, i: nat)
    requires i <= |lines|
    ensures forall r :: r in ParseFrom(Patterns, lines, i) ==>
      exists k :: i <= k < |lines| && IsNumbered(Strip(lines[k]))
        && r.number == ParseNat(Strip(lines[k])[..DigitEnd(Strip(lines[k]), 0)])
    decreases |lines| - i
  {
    if i < |lines| {
      if !IsNumbered(Strip(lines[i])) {
        RowNumbersFromLines(lines, i + 1);
      } else {
        var j := ContinuationEnd(lines, i + 1);
        RowNumbersFromLines(lines, j);
        var found := ParseEntry(Joined(lines, i, j));
        if found.Some? {
          EntryNumberFromLine(Strip(lines[i]), Joined(lines, i, j));
        }
      }
    }
  }

  /** An entry that opens with a numbered line and parses takes that line's number. */
  lemma EntryNumberFromLine(line: string, entry: string)
    requires IsNumbered(line) && StartsWith(entry, line) && ParseEntry(entry).Some?
    ensures ParseEntry(entry).value.number == ParseNat(line[..DigitEnd(line, 0)])
  {
    assert entry == line + entry[|line|..];
    DigitEndAppend(line, entry[|line|..], 0);
    var d := DigitEnd(line, 0);
    assert entry[..d] == line[..d];
  }

  /** No dash of any kind. */
  predicate NoDash(s: string) {
    forall c :: 0 <= c < |s| ==> s[c] != '-' && s[c] != '–' && s[c] != '—'
  }

  /** A line with no dash of any kind is skipped. */
  lemma NoDashNoRow(s: string)
    requires NoDash(s)
    ensures ParseEntry(s) == None
  {
    forall sep | sep in Patterns ensures MatchPattern(s, sep) == None {
      var d := DigitEnd(s, 0);
      if d != 0 && d != |s| && s[d] == '.' {
        NoBacktrack(s, d + 1, SpaceEnd(s, d + 1), sep);
      }
    }
  }

  lemma {:induction false} NoSeparator(s: string, m: nat, sep: Separator)
    requires NoDash(s)
    ensures FirstSep(s, m, sep) == None
    decreases |s| - m
  {
    if m < |s| {
      NoSeparator(s, m + 1, sep);
    }
  }

  lemma {:induction false} NoBacktrack(s: string, p: nat, t: nat, sep: Separator)
    requires p <= t && NoDash(s)
    ensures Backtrack(s, p, t, sep) == None
    decreases t - p
  {
    NoSeparator(s, t + 1, sep);
    if t > p {
      NoBacktrack(s, p, t - 1, sep);
    }
  }

  /** An entry written as "n. mitzvah — reference" parses back to its parts. */
  lemma EmDashRoundTrip(n: nat, mitzvah: string, reference: string)
    requires mitzvah != [] && !IsSpace(mitzvah[0]) && reference != []
    requires forall c :: 0 <= c < |mitzvah| ==> mitzvah[c] != '—'
    ensures ParseEntry(NatToString(n) + ". " + mitzvah + "—" + reference)
      == Some(MasterRow(n, Strip(mitzvah), Strip(reference)))
  {
    NatToStringRoundTrip(n);
    var digits := NatToString(n);
    var s := digits + ". " + mitzvah + "—" + reference;
    var d := |digits|;
    EntryLayout(digits, mitzvah, reference);
    EmDashParts(s, d, mitzvah, reference);
  }

  /** Where the pieces of "digits. mitzvah—reference" sit. */
  lemma EntryLayout(digits: string, mitzvah: string, reference: string)
    ensures var s := digits + ". " + mitzvah + "—" + reference;
      var d := |digits|;
      && |s| == d + 3 + |mitzvah| + |reference|
      && s[..d] == digits && s[d] == '.' && s[d + 1] == ' '
      && s[d + 2..d + 2 + |mitzvah|] == mitzvah && s[d + 2 + |mitzvah|] == '—'
      && s[d + 3 + |mitzvah|..] == reference
  {
  }

  /** The same, for a string already known to be laid out as digits, ". ", mitzvah, '—' and
      reference. */
  lemma EmDashParts(s: string, d: nat, mitzvah: string, reference: string)
    requires mitzvah != [] && !IsSpace(mitzvah[0]) && reference != []
    requires forall c :: 0 <= c < |mitzvah| ==> mitzvah[c] != '—'
    requires d + 3 + |mitzvah| + |reference| == |s|
    requires 0 < d && AllDigits(s[..d]) && s[d] == '.' && s[d + 1] == ' '
    requires s[d + 2..d + 2 + |mitzvah|] == mitzvah && s[d + 2 + |mitzvah|] == '—'
    requires s[d + 3 + |mitzvah|..] == reference
    ensures ParseEntry(s) == Some(MasterRow(ParseNat(s[..d]), Strip(mitzvah), Strip(reference)))
  {
    EmDashMatch(s, d, mitzvah, reference);
    assert Patterns[0] == EmDash;
  }

  /** The em-dash pattern alone matches such a string. */
  lemma EmDashMatch(s: string, d: nat, mitzvah: string, reference: string)
    requires mitzvah != [] && !IsSpace(mitzvah[0]) && reference != []
    requires forall c :: 0 <= c < |mitzvah| ==> mitzvah[c] != '—'
    requires d + 3 + |mitzvah| + |reference| == |s|
    requires 0 < d && AllDigits(s[..d]) && s[d] == '.' && s[d + 1] == ' '
    requires s[d + 2..d + 2 + |mitzvah|] == mitzvah && s[d + 2 + |mitzvah|] == '—'
    requires s[d + 3 + |mitzvah|..] == reference
    ensures MatchPattern(s, EmDash) == Some(MasterRow(ParseNat(s[..d]), Strip(mitzvah), Strip(reference)))
  {
    var m := d + 2 + |mitzvah|;
    DigitsThenDot(s, d);
    assert s[d + 2] == s[d + 2..m][0] == mitzvah[0];
    assert SpaceEnd(s, d + 2) == d + 2;
    assert SpaceEnd(s, d + 1) == d + 2;
    SepAfterMitzvah(s, d, mitzvah);
    MatchFromParts(s, d, d + 2, m, EmDash);
  }

  /** A run of digits closed by a dot. */
  lemma DigitsThenDot(s: string, d: nat)
    requires 0 < d < |s| && AllDigits(s[..d]) && s[d] == '.'
    ensures DigitEnd(s, 0) == d
  {
    assert forall c :: 0 <= c < d ==> IsDigit(s[c]) by {
      forall c | 0 <= c < d ensures IsDigit(s[c]) {
        assert s[c] == s[..d][c];
      }
    }
    DigitEndFrom(s, 0, d);
  }

  /** The first em dash after the mitzvah's first character is the one that closes it. */
  lemma SepAfterMitzvah(s: string, d: nat, mitzvah: string)
    requires forall c :: 0 <= c < |mitzvah| ==> mitzvah[c] != '—'
    requires d + 3 + |mitzvah| < |s| && mitzvah != []
    requires s[d + 2..d + 2 + |mitzvah|] == mitzvah && s[d + 2 + |mitzvah|] == '—'
    ensures FirstSep(s, d + 3, EmDash) == Some(d + 2 + |mitzvah|)
  {
    var m := d + 2 + |mitzvah|;
    assert forall q :: d + 3 <= q < m ==> s[q] == mitzvah[q - d - 2];
    FirstSepIs(s, d + 3, m, EmDash);
  }

  /** The lazy group stops at the first separator. */
  lemma FirstSepIs(s: string, from: nat, m: nat, sep: Separator)
    requires from <= m && SepAt(s, m, sep) && forall q :: from <= q < m ==> !SepAt(s, q, sep)
    ensures FirstSep(s, from, sep) == Some(m)
  {
  }

  /** The row built once the digits, the whitespace run and the separator are located. */
  lemma MatchFromParts(s: string, d: nat, t: nat, m: nat, sep: Separator)
    requires 0 < d < |s| && DigitEnd(s, 0) == d && s[d] == '.'
    requires SpaceEnd(s, d + 1) == t && FirstSep(s, t + 1, sep) == Some(m)
    ensures MatchPattern(s, sep) == Some(MasterRow(ParseNat(s[..d]), Strip(s[t..m]), Strip(s[m + SepLen(sep)..])))
  {
  }

  lemma {:induction false} DigitEndFrom(s: string, j: nat, d: nat)
    requires j <= d < |s| && (forall c :: j <= c < d ==> IsDigit(s[c])) && !IsDigit(s[d])
    ensures DigitEnd(s, j) == d
    decreases d - j
  {
    if j < d {
      DigitEndFrom(s, j + 1, d);
    }
  }
}
