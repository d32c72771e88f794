/** scripts/web_verify_biblical_sources.py, `extract_biblical_references`: five case-insensitive
    patterns "Book chapter:verse" (Hebrew, English and alternative transliterations, and two sets
    of abbreviations that may carry a '.') are searched in turn; each match becomes
    "{book} {chapter}:{verse}" with English and abbreviated names normalised to the Hebrew book
    name, and a reference is kept only the first time it appears. */
module BiblicalRefs {
  import opened Common

  // ---------------------------------------------------------------------------
  // The patterns `(Alt1|Alt2|...)\.?\s+(\d+):(\d+)` under re.IGNORECASE

  /** A pattern: its book alternatives, and whether a '.' may follow the book. */
  datatype BookPattern = BookPattern(alternatives: seq<string>, dot: bool)

  const Patterns: seq<BookPattern> := [
    BookPattern(["Bereishis", "Shemos", "Vayikra", "Bamidbar", "Devarim"], false),
    BookPattern(["Genesis", "Exodus", "Leviticus", "Numbers", "Deuteronomy"], false),
    BookPattern(["Bereshit", "Shemot", "Vayikra", "Bamidbar", "Devarim"], false),
    BookPattern(["Gen", "Ex", "Lev", "Num", "Deut"], true),
    BookPattern(["Ber", "Shem", "Vay", "Bam", "Dev"], true)
  ]

  /** One match: the book text as it stands in the input, the two digit groups, and where the
      match ends. */
  datatype Match = Match(book: string, chapter: string, verse: string, end: nat)

  /** The part after the book: an optional '.', whitespace, digits, ':' and digits. */
  function TailAt(s: string, j: nat, dot: bool): (r: Option<(string, string, nat)>)
    requires j <= |s|
    ensures r.Some? ==> j < r.value.2 <= |s|
    ensures r.Some? ==> r.value.0 != [] && AllDigits(r.value.0) && r.value.1 != [] && AllDigits(r.value.1)
  {
    var j1 := if dot && j < |s| && s[j] == '.' then j + 1 else j;
    var w := SpaceEnd(s, j1);
    var c := DigitEnd(s, w);
    if w == j1 || c == w || c == |s| || s[c] != ':' then None
    else
      var v := DigitEnd(s, c + 1);
      if v == c + 1 then None else Some((s[w..c], s[c + 1..v], v))
  }

  /** The alternatives from `k` on, tried in order at position `i`. */
  function AltMatch(s: string, i: nat, alts: seq<string>, dot: bool, k: nat): (r: Option<Match>)
    requires i <= |s| && k <= |alts|
    decreases |alts| - k
    ensures r.Some? ==> i < r.value.end <= |s|
    ensures r.Some? ==> exists q :: k <= q < |alts| && alts[q] != [] && i + |alts[q]| <= |s|
                                 && r.value.book == s[i..i + |alts[q]|] && Lower(r.value.book) == Lower(alts[q])
    ensures r.Some? ==> r.value.chapter != [] && AllDigits(r.value.chapter) && r.value.verse != [] && AllDigits(r.value.verse)
  {
    if k == |alts| then None
    else
      var a := alts[k];
      if a != [] && StartsWithCI(s[i..], a) && TailAt(s, i + |a|, dot).Some? then
        var t := TailAt(s, i + |a|, dot).value;
        assert s[i..][..|a|] == s[i..i + |a|];
        Some(Match(s[i..i + |a|], t.0, t.1, t.2))
      else AltMatch(s, i, alts, dot, k + 1)
  }

  /** `re.findall(pattern, s, re.IGNORECASE)` from position `i`: leftmost matches, each search
      resuming where the previous match ended. */
  function FindAll(s: string, i: nat, p: BookPattern): (r: seq<Match>)
    requires i <= |s|
    decreases |s| - i
    ensures forall k :: 0 <= k < |r| ==> r[k].chapter != [] && AllDigits(r[k].chapter) && r[k].verse != [] && AllDigits(r[k].verse)
    ensures forall k :: 0 <= k < |r| ==> exists q :: 0 <= q < |p.alternatives| && Lower(r[k].book) == Lower(p.alternatives[q])
  {
    if i == |s| then []
    else
      var m := AltMatch(s, i, p.alternatives, p.dot, 0);
      if m.Some? then [m.value] + FindAll(s, m.value.end, p) else FindAll(s, i + 1, p)
  }

  // ---------------------------------------------------------------------------
  // Normalisation and the reference text

  /** The Hebrew name for an English or abbreviated book name; any other book text is kept as
      matched. */
  function NormalizeBook(book: string): string {
    var b := Lower(book);
    if b in ["genesis", "gen", "ber", "bereshit"] then "Bereishis"
    else if b in ["exodus", "ex", "shem", "shemot"] then "Shemos"
    else if b in ["leviticus", "lev", "vay"] then "Vayikra"
    else if b in ["numbers", "num", "bam"] then "Bamidbar"
    else if b in ["deuteronomy", "deut", "dev"] then "Devarim"
    else book
  }

  function Reference(m: Match): string {
    NormalizeBook(m.book) + " " + m.chapter + ":" + m.verse
  }

  function References(ms: seq<Match>): (r: seq<string>)
    ensures |r| == |ms| && forall k :: 0 <= k < |ms| ==> r[k] == Reference(ms[k])
  {
    seq(|ms|, k requires 0 <= k < |ms| => Reference(ms[k]))
  }

  /** Every reference the patterns produce, pattern by pattern, duplicates included. */
  function AllReferences(html: string, patterns: seq<BookPattern>): seq<string> {
    if patterns == [] then []
    else AllReferences(html, patterns[..|patterns| - 1]) + References(FindAll(html, 0, patterns[|patterns| - 1]))
  }

  /** The list with each value kept at its first occurrence only. */
  function Dedup(xs: seq<string>): (r: seq<string>)
    ensures forall x :: x in r <==> x in xs
    ensures |r| <= |xs|
  {
    if xs == [] then []
    else
      var d := Dedup(xs[..|xs| - 1]);
      var x := xs[|xs| - 1];
      assert xs == xs[..|xs| - 1] + [x];
      if x in d then d else d + [x]
  }

  function Extract(html: string): seq<string> {
    Dedup(AllReferences(html, Patterns))
  }

  /** `extract_biblical_references` */
  method ExtractBiblicalReferences(htmlContent: string) returns (references: seq<string>)
    ensures references == Extract(htmlContent)
  {
    references := CollectReferences(htmlContent, Patterns);
  }

  /** The outer loop, over a given list of patterns. */
  method CollectReferences(htmlContent: string, patterns: seq<BookPattern>) returns (references: seq<string>)
    ensures references == Dedup(AllReferences(htmlContent, patterns))
  {
    references := [];
    for p := 0 to |patterns|
      invariant references == Dedup(AllReferences(htmlContent, patterns[..p]))
    {
      var matches := FindAll(htmlContent, 0, patterns[p]);
      references := AddReferences(references, AllReferences(htmlContent, patterns[..p]), matches);
      AllReferencesSnoc(htmlContent, patterns, p);
    }
    assert patterns[..|patterns|] == patterns;
  }

  /** The inner loop: the references of one pattern's matches, each appended unless present. */
  method AddReferences(references0: seq<string>, ghost before: seq<string>, matches: seq<Match>) returns (references: seq<string>)
    requires references0 == Dedup(before)
    ensures references == Dedup(before + References(matches))
  {
    references := references0;
    assert before + References(matches[..0]) == before;
    for k := 0 to |matches|
      invariant references == Dedup(before + References(matches[..k]))
    {
      var reference := NormalizeBook(matches[k].book) + " " + matches[k].chapter + ":" + matches[k].verse;
      ReferencesSnoc(before, matches, k);
      DedupSnoc(before + References(matches[..k]), reference);
      if reference !in references {
        references := references + [reference];
      }
    }
    assert matches[..|matches|] == matches;
  }

  lemma ReferencesSnoc(before: seq<string>, matches: seq<Match>, k: nat)
    requires k < |matches|
    ensures before + References(matches[..k + 1]) == (before + References(matches[..k])) + [Reference(matches[k])]
  {
    assert References(matches[..k + 1]) == References(matches[..k]) + [Reference(matches[k])];
  }

  lemma DedupSnoc(xs: seq<string>, x: string)
    ensures Dedup(xs + [x]) == if x in Dedup(xs) then Dedup(xs) else Dedup(xs) + [x]
  {
    assert (xs + [x])[..|xs|] == xs;
  }

  lemma AllReferencesSnoc(html: string, patterns: seq<BookPattern>, p: nat)
    requires p < |patterns|
    ensures AllReferences(html, patterns[..p + 1])
         == AllReferences(html, patterns[..p]) + References(FindAll(html, 0, patterns[p]))
  {
    assert patterns[..p + 1][..p] == patterns[..p];
  }

  // ---------------------------------------------------------------------------
  // Properties

  predicate NoDuplicates(xs: seq<string>) {
    forall i, j :: 0 <= i < j < |xs| ==> xs[i] != xs[j]
  }

  /** The index of the first occurrence. */
  function FirstIndex(xs: seq<string>, x: string): (i: nat)
    requires x in xs
    ensures i < |xs| && xs[i] == x && forall j :: 0 <= j < i ==> xs[j] != x
  {
    if xs[0] == x then 0 else FirstIndex(xs[1..], x) + 1
  }

  lemma {:induction false} FirstIndexPrefix(xs: seq<string>, ys: seq<string>, x: string)
    requires x in xs
    ensures x in xs + ys && FirstIndex(xs + ys, x) == FirstIndex(xs, x)
  {
    var i := FirstIndex(xs, x);
    var j := FirstIndex(xs + ys, x);
    assert (xs + ys)[i] == x;
    assert j <= i;
    assert xs[j] == (xs + ys)[j];
  }

  /** The result has no duplicates, and keeps its values in the order of their first
      occurrences. */
  lemma {:induction false} DedupFirstOccurrences(xs: seq<string>)
    ensures NoDuplicates(Dedup(xs))
    ensures forall i, j :: 0 <= i < j < |Dedup(xs)| ==> FirstIndex(xs, Dedup(xs)[i]) < FirstIndex(xs, Dedup(xs)[j])
  {
    if xs != [] {
      var init := xs[..|xs| - 1];
      var x := xs[|xs| - 1];
      assert xs == init + [x];
      DedupFirstOccurrences(init);
      var d := Dedup(init);
      forall y | y in d ensures FirstIndex(xs, y) == FirstIndex(init, y) {
        FirstIndexPrefix(init, [x], y);
      }
      if x !in d {
        var r := d + [x];
        assert FirstIndex(xs, x) == |init|;
        forall i, j | 0 <= i < j < |r| ensures FirstIndex(xs, r[i]) < FirstIndex(xs, r[j]) {
          if j == |d| {
            assert r[i] == d[i] && d[i] in init;
          } else {
            assert r[i] == d[i] && r[j] == d[j];
          }
        }
      }
    }
  }

  const HebrewBooks: set<string> := {"Bereishis", "Shemos", "Vayikra", "Bamidbar", "Devarim"}

  /** Matches of the English and abbreviated patterns are normalised to a Hebrew book name. */
  lemma EnglishAndAbbreviationsNormalized(html: string, p: nat, k: nat)
    requires p in {1, 3, 4} && k < |FindAll(html, 0, Patterns[p])|
    ensures NormalizeBook(FindAll(html, 0, Patterns[p])[k].book) in HebrewBooks
  {
    var m := FindAll(html, 0, Patterns[p])[k];
    if p == 1 {
      EnglishNormalized(m.book);
    } else if p == 3 {
      AbbreviationNormalized(m.book);
    } else {
      HebrewAbbreviationNormalized(m.book);
    }
  }

  /** A spelling the table lists, in lower case, normalises to a Hebrew book name. */
  lemma SpellingNormalized(book: string, b: string)
    requires Lower(book) == b
    requires b in ["genesis", "gen", "ber", "exodus", "ex", "shem", "leviticus", "lev", "vay",
                   "numbers", "num", "bam", "deuteronomy", "deut", "dev"]
    ensures NormalizeBook(book) in HebrewBooks
  {
  }

  lemma EnglishNormalized(book: string)
    requires exists q :: 0 <= q < 5 && Lower(book) == Lower(Patterns[1].alternatives[q])
    ensures NormalizeBook(book) in HebrewBooks
  {
    EnglishLowered();
    var q :| 0 <= q < 5 && Lower(book) == Lower(Patterns[1].alternatives[q]);
    if q == 0 {
      SpellingNormalized(book, "genesis");
    } else if q == 1 {
      SpellingNormalized(book, "exodus");
    } else if q == 2 {
      SpellingNormalized(book, "leviticus");
    } else if q == 3 {
      SpellingNormalized(book, "numbers");
    } else {
      SpellingNormalized(book, "deuteronomy");
    }
  }

  lemma AbbreviationNormalized(book: string)
    requires exists q :: 0 <= q < 5 && Lower(book) == Lower(Patterns[3].alternatives[q])
    ensures NormalizeBook(book) in HebrewBooks
  {
    AbbreviationLowered();
    var q :| 0 <= q < 5 && Lower(book) == Lower(Patterns[3].alternatives[q]);
    if q == 0 {
      SpellingNormalized(book, "gen");
    } else if q == 1 {
      SpellingNormalized(book, "ex");
    } else if q == 2 {
      SpellingNormalized(book, "lev");
    } else if q == 3 {
      SpellingNormalized(book, "num");
    } else {
      SpellingNormalized(book, "deut");
    }
  }

  lemma HebrewAbbreviationNormalized(book: string)
    requires exists q :: 0 <= q < 5 && Lower(book) == Lower(Patterns[4].alternatives[q])
    ensures NormalizeBook(book) in HebrewBooks
  {
    HebrewAbbreviationLowered();
    var q :| 0 <= q < 5 && Lower(book) == Lower(Patterns[4].alternatives[q]);
    if q == 0 {
      SpellingNormalized(book, "ber");
    } else if q == 1 {
      SpellingNormalized(book, "shem");
    } else if q == 2 {
      SpellingNormalized(book, "vay");
    } else if q == 3 {
      SpellingNormalized(book, "bam");
    } else {
      SpellingNormalized(book, "dev");
    }
  }

  lemma EnglishLowered()
    ensures Lower("Genesis") == "genesis" && Lower("Exodus") == "exodus" && Lower("Leviticus") == "leviticus" && Lower("Numbers") == "numbers" && Lower("Deuteronomy") == "deuteronomy"
  {
  }

  lemma AbbreviationLowered()
    ensures Lower("Gen") == "gen" && Lower("Ex") == "ex" && Lower("Lev") == "lev" && Lower("Num") == "num" && Lower("Deut") == "deut"
  {
  }

  lemma HebrewAbbreviationLowered()
    ensures Lower("Ber") == "ber" && Lower("Shem") == "shem" && Lower("Vay") == "vay" && Lower("Bam") == "bam" && Lower("Dev") == "dev"
  {
  }

  /** Every reference is "{book} {chapter}:{verse}" for some match of some pattern, with a
      non-empty book and digit strings for chapter and verse. */
  lemma ReferencesFromMatches(html: string, r: string)
    requires r in Extract(html)
    ensures exists p, k ::
      0 <= p < |Patterns| && 0 <= k < |FindAll(html, 0, Patterns[p])| && r == Reference(FindAll(html, 0, Patterns[p])[k])
  {
    AllReferencesFrom(html, Patterns, r);
  }

  lemma {:induction false} AllReferencesFrom(html: string, patterns: seq<BookPattern>, r: string)
    requires r in AllReferences(html, patterns)
    ensures exists p, k ::
      0 <= p < |patterns| && 0 <= k < |FindAll(html, 0, patterns[p])| && r == Reference(FindAll(html, 0, patterns[p])[k])
  {
    var init := patterns[..|patterns| - 1];
    var last := |patterns| - 1;
    if r in AllReferences(html, init) {
      AllReferencesFrom(html, init, r);
      var p, k :| 0 <= p < |init| && 0 <= k < |FindAll(html, 0, init[p])| && r == Reference(FindAll(html, 0, init[p])[k]);
      assert init[p] == patterns[p];
    } else {
      var refs := References(FindAll(html, 0, patterns[last]));
      assert r in refs;
      var k :| 0 <= k < |refs| && refs[k] == r;
    }
  }

  /** A text without ':' holds no reference. */
  lemma NoColonNoReferences(html: string)
    requires forall i :: 0 <= i < |html| ==> html[i] != ':'
    ensures Extract(html) == []
  {
    forall p | 0 <= p < |Patterns| ensures FindAll(html, 0, Patterns[p]) == [] {
      NoColonNoMatches(html, 0, Patterns[p]);
    }
    NoMatchesNoReferences(html, Patterns);
  }

  lemma {:induction false} NoMatchesNoReferences(html: string, patterns: seq<BookPattern>)
    requires forall p :: 0 <= p < |patterns| ==> FindAll(html, 0, patterns[p]) == []
    ensures AllReferences(html, patterns) == []
  {
    if patterns != [] {
      NoMatchesNoReferences(html, patterns[..|patterns| - 1]);
    }
  }

  lemma {:induction false} NoColonNoMatches(html: string, i: nat, p: BookPattern)
    requires i <= |html| && forall j :: 0 <= j < |html| ==> html[j] != ':'
    ensures FindAll(html, i, p) == []
    decreases |html| - i
  {
    if i < |html| {
      NoColonNoAlt(html, i, p.alternatives, p.dot, 0);
      NoColonNoMatches(html, i + 1, p);
    }
  }

  lemma {:induction false} NoColonNoAlt(html: string, i: nat, alts: seq<string>, dot: bool, k: nat)
    requires i <= |html| && k <= |alts| && forall j :: 0 <= j < |html| ==> html[j] != ':'
    ensures AltMatch(html, i, alts, dot, k) == None
    decreases |alts| - k
  {
    if k < |alts| {
      NoColonNoAlt(html, i, alts, dot, k + 1);
    }
  }

  /** "Shemos 12:2" is found by the first pattern and kept as written. */
  lemma FindsShemos()
    ensures FindAll("Shemos 12:2", 0, Patterns[0]) == [Match("Shemos", "12", "2", 11)]
    ensures Reference(Match("Shemos", "12", "2", 11)) == "Shemos 12:2"
  {
    var s := "Shemos 12:2";
    ShemosAlternative();
    assert FindAll(s, 11, Patterns[0]) == [];
    ShemosKept();
  }

  lemma ShemosKept()
    ensures NormalizeBook("Shemos") == "Shemos"
  {
    var b := Lower("Shemos");
    assert b == "shemos";
    assert b[5] == 's';
    assert b !in ["genesis", "gen", "ber", "bereshit"];
    assert b !in ["exodus", "ex", "shem", "shemot"];
    assert b !in ["leviticus", "lev", "vay"];
    assert b !in ["numbers", "num", "bam"];
    assert b !in ["deuteronomy", "deut", "dev"];
  }

  lemma ShemosTail()
    ensures TailAt("Shemos 12:2", 6, false) == Some(("12", "2", 11))
  {
    var s := "Shemos 12:2";
    assert SpaceEnd(s, 7) == 7;
    assert SpaceEnd(s, 6) == 7;
    assert DigitEnd(s, 9) == 9;
    assert DigitEnd(s, 8) == 9;
    assert DigitEnd(s, 7) == 9;
    assert DigitEnd(s, 11) == 11;
    assert DigitEnd(s, 10) == 11;
    assert s[7..9] == "12" && s[10..11] == "2";
  }

  lemma ShemosAlternative()
    ensures AltMatch("Shemos 12:2", 0, Patterns[0].alternatives, false, 0) == Some(Match("Shemos", "12", "2", 11))
  {
    var s := "Shemos 12:2";
    ShemosTail();
    assert s[0..] == s && s[0..6] == "Shemos";
    assert StartsWithCI(s[0..], "Shemos");
    assert AltMatch(s, 0, Patterns[0].alternatives, false, 1) == Some(Match("Shemos", "12", "2", 11));
    assert Lower(s[..9])[0] == 's' && Lower("Bereishis")[0] == 'b';
    assert !StartsWithCI(s[0..], "Bereishis");
  }
}
