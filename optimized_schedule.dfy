/** create_optimized_schedule.py: the two summary extractors (ordered rule cascades that
    always end in a default sentence) and the allocator that lays out the introductions one
    a day, then all positive and all negative mitzvot two a day for 278 days and one a day
    after that, then the conclusion. */
module OptimizedSchedule {
  import opened Common
  import opened ScheduleRows

  // ---------------------------------------------------------------------------
  // Pattern capture: `re.findall(P + r"(.+?)(?:\.|$)", text, re.IGNORECASE | re.DOTALL)[0]`

  /** The leftmost index at or after `i` where `pat` starts (ignoring case) with at least one
      character after it, which the lazy group needs. */
  function MatchStart(text: string, pat: string, i: nat): (r: Option<nat>)
    decreases |text| - i
    ensures r.Some? ==> i <= r.value && r.value + |pat| < |text| && StartsWithCI(text[r.value..], pat)
    ensures r.Some? ==> forall j :: i <= j < r.value ==> !StartsWithCI(text[j..], pat)
    ensures r.None? ==> forall j :: i <= j && j + |pat| < |text| ==> !StartsWithCI(text[j..], pat)
  {
    if i + |pat| >= |text| then None
    else if StartsWithCI(text[i..], pat) then Some(i)
    else MatchStart(text, pat, i + 1)
  }

  /** Where the lazy group stops: the first '.' at or after `j`, or the end of the text.
      (`$` may also stop just before a final newline; the captured text is stripped of
      whitespace afterwards, so the summary is the same either way.) */
  function CaptureEnd(text: string, j: nat): (e: nat)
    requires j <= |text|
    decreases |text| - j
    ensures j <= e <= |text| && (e == |text| || text[e] == '.')
    ensures forall m :: j <= m < e ==> text[m] != '.'
  {
    if j == |text| || text[j] == '.' then j else CaptureEnd(text, j + 1)
  }

  /** The first capture of the pattern `pat(.+?)(?:\.|$)`, if the pattern occurs. */
  function Capture(text: string, pat: string): (r: Option<string>)
    ensures r.Some? ==> r.value != []
  {
    match MatchStart(text, pat, 0)
    case None => None
    case Some(i) =>
      var s := i + |pat|;
      Some(text[s..CaptureEnd(text, s + 1)])
  }

  /** `re.sub(r'\s+', ' ', s)` */
  function CollapseWhitespace(s: string): (r: string)
    decreases |s|
    ensures forall i :: 0 <= i < |r| && IsSpace(r[i]) ==> r[i] == ' '
    ensures forall i :: 0 <= i < |r| - 1 ==> !(IsSpace(r[i]) && IsSpace(r[i + 1]))
    ensures s != [] && !IsSpace(s[0]) ==> r != [] && r[0] == s[0]
  {
    if s == [] then []
    else if IsSpace(s[0]) then [' '] + CollapseWhitespace(LStrip(s[1..]))
    else [s[0]] + CollapseWhitespace(s[1..])
  }

  const TrailingPunctuation: set<char> := {'.', ',', ';', ':'}

  /** The clean-up of a capture: strip, collapse whitespace, drop " - ", strip trailing ".,;:". */
  function Cleanup(capture: string): (r: string)
    ensures r != [] ==> r[|r| - 1] !in TrailingPunctuation
  {
    RStripChars(ReplaceAll(CollapseWhitespace(Strip(capture)), " - ", " "), TrailingPunctuation)
  }

  // ---------------------------------------------------------------------------
  // extract_positive_summary

  const PositivePatterns: seq<string> := [
    "That is that He commanded us ",
    "And that is that He commanded us ",
    "That is that we were commanded ",
    "And that is that we were commanded "
  ]

  const PositivePlaceholder: string := "We are commanded in this positive mitzvah."

  /** The pattern loop: the first pattern whose cleaned capture is non-empty decides. */
  function PositiveFromPatterns(text: string, pats: seq<string>): (r: Option<string>)
    ensures r.Some? ==> StartsWith(r.value, "We are commanded ") && EndsWith(r.value, ".")
  {
    if pats == [] then None
    else match Capture(text, pats[0])
      case Some(c) =>
        var s := Cleanup(c);
        PositiveCapitalizeUnreachable(c);
        if s != [] && !EndsWith(s, ".") then Some("We are commanded " + s + ".")
        else if s != [] then Some(Capitalize(s))
        else PositiveFromPatterns(text, pats[1..])
      case None => PositiveFromPatterns(text, pats[1..])
  }

  /** A summary sentence: `prefix`, the phrase, and a closing '.'. */
  function Sentence(prefix: string, phrase: string): (r: string)
    ensures StartsWith(r, prefix) && EndsWith(r, ".")
  {
    assert (prefix + phrase + ".")[..|prefix|] == prefix;
    prefix + phrase + "."
  }

  /** The keyword fallback on the lower-cased text: the phrase after "We are commanded ". The
      last branch gives the generic placeholder's phrase. */
  function PositiveKeywordPhrase(t: string): string {
    if Contains(t, "belief") || Contains(t, "believe") then
      (if Contains(t, "unity") then "to believe in God's unity" else "to believe in God")
    else if Contains(t, "love") then "to love God"
    else if Contains(t, "fear") || Contains(t, "awe") then "to fear God"
    else if Contains(t, "serve") then "to serve God"
    else if Contains(t, "tefillin") then
      (if Contains(t, "head") then "to put on head tefillin"
       else if Contains(t, "hand") then "to put on hand tefillin"
       else "regarding tefillin")
    else if Contains(t, "tzitzit") then "to make tzitzit"
    else if Contains(t, "mezuzah") then "to make a mezuzah"
    else if Contains(t, "temple") then "regarding the Temple"
    else if Contains(t, "priest") then "regarding priestly service"
    else if Contains(t, "sacrifice") || Contains(t, "offering") then "regarding sacrificial offerings"
    else "in this positive mitzvah"
  }

  /** The keyword fallback: always a "We are commanded … ." sentence. */
  function PositiveKeywordSummary(text: string): (r: string)
    ensures StartsWith(r, "We are commanded ") && EndsWith(r, ".")
  {
    Sentence("We are commanded ", PositiveKeywordPhrase(Lower(text)))
  }

  function ExtractPositiveSummary(t: RawText): (r: string)
    ensures IsFalsy(t) ==> r == PositivePlaceholder
    ensures StartsWith(r, "We are commanded ") && EndsWith(r, ".")
  {
    if IsFalsy(t) then PositivePlaceholder
    else
      var text := FirstVariant(t);
      match PositiveFromPatterns(text, PositivePatterns)
      case Some(s) => s
      case None => PositiveKeywordSummary(text)
  }

  // ---------------------------------------------------------------------------
  // extract_negative_summary

  const NegativePatterns: seq<string> := [
    "That He prohibited us from ",
    "That He prohibited us ",
    "prohibited us from ",
    "prohibited us "
  ]

  const NegativePlaceholder: string := "We are prohibited in this negative mitzvah."

  function NegativeFromPatterns(text: string, pats: seq<string>): (r: Option<string>)
    ensures r.Some? ==> StartsWith(r.value, "We are")
  {
    if pats == [] then None
    else match Capture(text, pats[0])
      case Some(c) =>
        var s := Cleanup(c);
        if s != [] then
          (if !StartsWith(s, "We are") then Some("We are prohibited from " + s + ".")
           else CapitalizeKeepsWeAre(s); Some(Capitalize(s)))
        else NegativeFromPatterns(text, pats[1..])
      case None => NegativeFromPatterns(text, pats[1..])
  }

  lemma CapitalizeKeepsWeAre(s: string)
    requires StartsWith(s, "We are")
    ensures StartsWith(Capitalize(s), "We are")
  {
    var c := Capitalize(s);
    assert c[0] == 'W';
    forall i | 1 <= i < 6 ensures c[i] == s[i] {
      assert c[i] == LowerChar(s[i]);
    }
  }

  /** The negative keyword fallback: the phrase after "We are prohibited ". */
  function NegativeKeywordPhrase(t: string): string {
    if Contains(t, "idol") then "from idolatry"
    else if Contains(t, "swear") then "from false oaths"
    else if Contains(t, "eat") then "from eating forbidden foods"
    else if Contains(t, "work") && Contains(t, "sabbath") then "from Sabbath work"
    else "in this negative mitzvah"
  }

  lemma ProhibitedStartsWeAre(r: string)
    requires StartsWith(r, "We are prohibited ")
    ensures StartsWith(r, "We are")
  {
    assert "We are prohibited " == "We are" + " prohibited ";
    StartsWithPrefix(r, "We are", " prohibited ");
  }

  /** The negative keyword fallback: always a "We are prohibited … ." sentence. */
  function NegativeKeywordSummary(text: string): (r: string)
    ensures StartsWith(r, "We are") && StartsWith(r, "We are prohibited ") && EndsWith(r, ".")
  {
    var r := Sentence("We are prohibited ", NegativeKeywordPhrase(Lower(text)));
    ProhibitedStartsWeAre(r);
    r
  }

  function ExtractNegativeSummary(t: RawText): (r: string)
    ensures IsFalsy(t) ==> r == NegativePlaceholder
    ensures StartsWith(r, "We are")
  {
    if IsFalsy(t) then
      assert NegativePlaceholder[..18] == "We are prohibited ";
      ProhibitedStartsWeAre(NegativePlaceholder);
      NegativePlaceholder
    else
      var text := FirstVariant(t);
      match NegativeFromPatterns(text, NegativePatterns)
      case Some(s) => s
      case None => NegativeKeywordSummary(text)
  }

  // ---------------------------------------------------------------------------
  // Properties of the extractors

  /** The `summary.capitalize()` branch of the positive extractor never runs: the clean-up has
      already removed every trailing '.', so the first branch takes every non-empty capture. */
  lemma PositiveCapitalizeUnreachable(c: string)
    ensures Cleanup(c) != [] ==> !EndsWith(Cleanup(c), ".")
  {
  }

  /** A list entry is summarised by its first element. */
  lemma {:induction false} ListUsesFirstElement(items: seq<string>)
    requires items != [] && items[0] != []
    ensures ExtractPositiveSummary(Variants(items)) == ExtractPositiveSummary(Text(items[0]))
    ensures ExtractNegativeSummary(Variants(items)) == ExtractNegativeSummary(Text(items[0]))
  {
  }

  /** The first pattern (in order) that captures a non-empty summary decides the positive
      summary: "We are commanded {capture}." */
  lemma {:induction false} PositivePatternHit(text: string, pats: seq<string>, k: nat, c: string)
    requires k < |pats|
    requires forall j :: 0 <= j < k ==> Capture(text, pats[j]).None? || Cleanup(Capture(text, pats[j]).value) == []
    requires Capture(text, pats[k]) == Some(c) && Cleanup(c) != []
    ensures PositiveFromPatterns(text, pats) == Some("We are commanded " + Cleanup(c) + ".")
  {
    if k > 0 {
      PositivePatternHit(text, pats[1..], k - 1, c);
    }
  }

  /** The first pattern that captures a non-empty summary decides the negative summary:
      "We are prohibited from {capture}." unless the capture already starts with "We are". */
  lemma {:induction false} NegativePatternHit(text: string, pats: seq<string>, k: nat, c: string)
    requires k < |pats|
    requires forall j :: 0 <= j < k ==> Capture(text, pats[j]).None? || Cleanup(Capture(text, pats[j]).value) == []
    requires Capture(text, pats[k]) == Some(c) && Cleanup(c) != []
    ensures var s := Cleanup(c);
      NegativeFromPatterns(text, pats)
        == Some(if StartsWith(s, "We are") then Capitalize(s) else "We are prohibited from " + s + ".")
  {
    if k > 0 {
      NegativePatternHit(text, pats[1..], k - 1, c);
    }
  }

  /** No pattern yields a summary: the keyword cascade decides. */
  lemma {:induction false} PositiveFallsBackToKeywords(text: string, pats: seq<string>)
    requires forall j :: 0 <= j < |pats| ==> Capture(text, pats[j]).None? || Cleanup(Capture(text, pats[j]).value) == []
    ensures PositiveFromPatterns(text, pats) == None
  {
    if pats != [] {
      PositiveFallsBackToKeywords(text, pats[1..]);
    }
  }

  /** A text made of a pattern, a body with no '.', and a closing '.' captures exactly the body
      (as "That is that He commanded us " + "to believe in God" + "." captures
      "to believe in God"). */
  lemma CaptureSentence(pat: string, body: string)
    requires body != [] && forall m :: 0 <= m < |body| ==> body[m] != '.'
    ensures Capture(pat + body + ".", pat) == Some(body)
  {
    var text := pat + body + ".";
    assert text[0..][..|pat|] == pat;
    assert MatchStart(text, pat, 0) == Some(0);
    var s := |pat|;
    assert forall m :: s <= m < |text| - 1 ==> text[m] == body[m - s];
    assert text[|text| - 1] == '.';
    assert CaptureEnd(text, s + 1) == |text| - 1;
    assert text[s..|text| - 1] == body;
  }

  // ---------------------------------------------------------------------------
  // create_optimally_distributed_schedule

  const TotalDays: int := 350
  const DaysWithTwo: int := 278

  const IntroSummaries: seq<string> := [
    "Introduction to Counting the Mitzvot.",
    "Principle 1: Not rabbinic commandments.",
    "Principle 2: Not derived through hermeneutics.",
    "Principle 3: Only perpetual commandments.",
    "Principle 4: Not general Torah commands.",
    "Principle 5: Not reasons as separate mitzvot.",
    "Principle 6: Separate positive and negative.",
    "Principle 7: Not details of commandments.",
    "Principle 8: Not negation of positive commands.",
    "Principle 9: Count substance, not statements.",
    "Principle 10: Not preliminaries to commandments.",
    "Principle 11: Not parts of unified commandments.",
    "Principle 12: Not work process components.",
    "Principle 13: Not repetition-based counting."
  ]

  const ConclusionLink: string :=
    "https://www.sefaria.org/Sefer_HaMitzvot%2C_Conclusion_for_Positive_Commandments?lang=bi"

  /** One element of `all_mitzvot`. */
  datatype Mitzvah = Mitzvah(kind: string, number: nat, summary: string, link: string)

  function IntroSummary(i: nat): string {
    if i < |IntroSummaries| then IntroSummaries[i] else "Introduction principle " + NatToString(i + 1) + "."
  }

  function IntroRow(i: nat): ScheduleRow {
    ScheduleRow(StartDay + i, i + 1, IntroLabel(i + 1), IntroSummary(i), IntroLink(i + 1))
  }

  /** The summary the loop records for positive entry `i`. The loop takes the first element of
      a list itself, so an empty list fails there and the `except` records the numbered
      fallback instead of the extractor's placeholder. */
  function PositiveEntrySummary(i: nat, t: RawText): (r: string)
    ensures t.Variants? && t.items == [] ==> r == Sentence("We are commanded ", "in positive mitzvah " + NatToString(i + 1))
    ensures t.Variants? && t.items != [] ==> r == ExtractPositiveSummary(Text(t.items[0]))
    ensures StartsWith(r, "We are commanded ") && EndsWith(r, ".")
  {
    match t
    case Variants(items) =>
      if items == [] then
        Sentence("We are commanded ", "in positive mitzvah " + NatToString(i + 1))
      else ExtractPositiveSummary(Text(items[0]))
    case _ => ExtractPositiveSummary(t)
  }

  /** The summary the loop records for negative entry `i`, with the same empty-list fallback. */
  function NegativeEntrySummary(i: nat, t: RawText): (r: string)
    ensures t.Variants? && t.items == [] ==> r == Sentence("We are prohibited ", "in negative mitzvah " + NatToString(i + 1))
    ensures t.Variants? && t.items != [] ==> r == ExtractNegativeSummary(Text(t.items[0]))
    ensures StartsWith(r, "We are")
  {
    match t
    case Variants(items) =>
      if items == [] then
        var r := Sentence("We are prohibited ", "in negative mitzvah " + NatToString(i + 1));
        ProhibitedStartsWeAre(r);
        r
      else ExtractNegativeSummary(Text(items[0]))
    case _ => ExtractNegativeSummary(t)
  }

  function PositiveMitzvah(i: nat, t: RawText): Mitzvah {
    Mitzvah("Positive", i + 1, PositiveEntrySummary(i, t), PositiveLink(i + 1))
  }

  function NegativeMitzvah(i: nat, t: RawText): Mitzvah {
    Mitzvah("Negative", i + 1, NegativeEntrySummary(i, t), NegativeLink(i + 1))
  }

  /** `all_mitzvot`: every positive in order, then every negative in order. */
  function AllMitzvot(positives: seq<RawText>, negatives: seq<RawText>): (r: seq<Mitzvah>)
    ensures |r| == |positives| + |negatives|
    ensures forall i :: 0 <= i < |positives| ==> r[i] == PositiveMitzvah(i, positives[i])
    ensures forall i :: 0 <= i < |negatives| ==> r[|positives| + i] == NegativeMitzvah(i, negatives[i])
  {
    seq(|positives|, i requires 0 <= i < |positives| => PositiveMitzvah(i, positives[i]))
      + seq(|negatives|, i requires 0 <= i < |negatives| => NegativeMitzvah(i, negatives[i]))
  }

  /** Days between the introductions and the conclusion (may be negative: then none). */
  function MitzvotDays(introCount: nat): int {
    TotalDays - introCount - 1
  }

  /** Slots offered by the first `day` mitzvah days: two a day for 278 days, then one. */
  function SlotsBefore(day: nat): nat {
    if day <= DaysWithTwo then 2 * day else DaysWithTwo + day
  }

  /** The mitzvah day (0-based) on which the m-th mitzvah falls. */
  function MitzvahDay(m: nat): nat {
    if m < 2 * DaysWithTwo then m / 2 else m - DaysWithTwo
  }

  /** How many mitzvot the loop places. */
  function PlacedCount(introCount: nat, total: nat): nat {
    var days := if MitzvotDays(introCount) < 0 then 0 else MitzvotDays(introCount);
    if total <= SlotsBefore(days) then total else SlotsBefore(days)
  }

  function MitzvahRow(mz: Mitzvah, introCount: nat, m: nat): ScheduleRow {
    ScheduleRow(StartDay + introCount + MitzvahDay(m), introCount + m + 1,
                mz.kind + " " + NatToString(mz.number), mz.summary, mz.link)
  }

  function ConclusionRow(introCount: nat, seqNum: nat): ScheduleRow {
    var days := if MitzvotDays(introCount) < 0 then 0 else MitzvotDays(introCount);
    ScheduleRow(StartDay + introCount + days, seqNum, "Conclusion",
                "Conclusion for Positive Commandments.", ConclusionLink)
  }

  /** The whole schedule the script returns. */
  function Schedule(introCount: nat, all: seq<Mitzvah>): (r: seq<ScheduleRow>)
    ensures |r| == introCount + PlacedCount(introCount, |all|) + 1
  {
    var placed := PlacedCount(introCount, |all|);
    seq(introCount, i requires 0 <= i < introCount => IntroRow(i))
      + seq(placed, m requires 0 <= m < placed => MitzvahRow(all[m], introCount, m))
      + [ConclusionRow(introCount, introCount + placed + 1)]
  }

  method CreateOptimallyDistributedSchedule(intros: seq<RawText>, positives: seq<RawText>, negatives: seq<RawText>)
    returns (schedule: seq<ScheduleRow>)
    ensures schedule == Schedule(|intros|, AllMitzvot(positives, negatives))
  {
    var ni := |intros|;
    var currentDate := StartDay;
    schedule := [];
    var entryNumber := 1;

    // Phase 1: one introduction a day
    for i := 0 to ni
      invariant |schedule| == i && entryNumber == i + 1 && currentDate == StartDay + i
      invariant forall j :: 0 <= j < i ==> schedule[j] == IntroRow(j)
    {
      schedule := schedule + [ScheduleRow(currentDate, entryNumber, IntroLabel(i + 1), IntroSummary(i), IntroLink(i + 1))];
      entryNumber := entryNumber + 1;
      currentDate := currentDate + 1;
    }

    var all := CollectMitzvot(positives, negatives);
    schedule := Distribute(schedule, all);
  }

  /** Phases 2 and 3 of the script, after the introductions: the mitzvot two a day for the first
      278 mitzvah days and one a day after that, then the conclusion. */
  method Distribute(intro: seq<ScheduleRow>, all: seq<Mitzvah>) returns (schedule: seq<ScheduleRow>)
    requires forall j :: 0 <= j < |intro| ==> intro[j] == IntroRow(j)
    ensures schedule == Schedule(|intro|, all)
  {
    var ni := |intro|;
    schedule := intro;
    var entryNumber := ni + 1;
    var currentDate := StartDay + ni;

    // Phase 2: two a day for the first 278 mitzvah days, then one a day
    var mitzvotDays := if MitzvotDays(ni) < 0 then 0 else MitzvotDays(ni);
    var mitzvahIndex := 0;
    for day := 0 to mitzvotDays
      invariant mitzvahIndex == (if |all| <= SlotsBefore(day) then |all| else SlotsBefore(day))
      invariant |schedule| == ni + mitzvahIndex && entryNumber == |schedule| + 1
      invariant currentDate == StartDay + ni + day
      invariant forall j :: 0 <= j < ni ==> schedule[j] == IntroRow(j)
      invariant forall m :: 0 <= m < mitzvahIndex ==> schedule[ni + m] == MitzvahRow(all[m], ni, m)
    {
      schedule, mitzvahIndex := FillDay(schedule, all, ni, day, mitzvahIndex);
      entryNumber := |schedule| + 1;
      currentDate := currentDate + 1;
    }

    // Phase 3: the conclusion, the day after the last mitzvah day
    schedule := schedule + [ScheduleRow(currentDate, entryNumber, "Conclusion", "Conclusion for Positive Commandments.", ConclusionLink)];
    ghost var target := Schedule(ni, all);
    assert mitzvahIndex == PlacedCount(ni, |all|);
    forall k | 0 <= k < |target| ensures schedule[k] == target[k] {
      if k < ni {
        assert schedule[k] == IntroRow(k);
      } else if k < ni + mitzvahIndex {
        assert schedule[k] == MitzvahRow(all[k - ni], ni, k - ni);
      } else {
        assert k == |schedule| - 1;
      }
    }
  }

  /** The loops that build `all_mitzvot`. */
  method CollectMitzvot(positives: seq<RawText>, negatives: seq<RawText>) returns (all: seq<Mitzvah>)
    ensures all == AllMitzvot(positives, negatives)
  {
    all := CollectWith(PositiveEntrySummary, NegativeEntrySummary, positives, negatives);
    assert forall i :: 0 <= i < |positives| ==> all[i] == PositiveMitzvah(i, positives[i]);
    assert forall i :: 0 <= i < |negatives| ==> all[|positives| + i] == NegativeMitzvah(i, negatives[i]);
  }

  /** The two loops, with the per-entry summariser as a parameter. */
  method CollectWith(ps: (nat, RawText) -> string, ns: (nat, RawText) -> string,
                     positives: seq<RawText>, negatives: seq<RawText>) returns (all: seq<Mitzvah>)
    ensures |all| == |positives| + |negatives|
    ensures forall i :: 0 <= i < |positives| ==>
      all[i] == Mitzvah("Positive", i + 1, ps(i, positives[i]), PositiveLink(i + 1))
    ensures forall i :: 0 <= i < |negatives| ==>
      all[|positives| + i] == Mitzvah("Negative", i + 1, ns(i, negatives[i]), NegativeLink(i + 1))
  {
    all := [];
    for i := 0 to |positives|
      invariant |all| == i
      invariant forall j :: 0 <= j < i ==> all[j] == Mitzvah("Positive", j + 1, ps(j, positives[j]), PositiveLink(j + 1))
    {
      all := all + [Mitzvah("Positive", i + 1, ps(i, positives[i]), PositiveLink(i + 1))];
    }
    for i := 0 to |negatives|
      invariant |all| == |positives| + i
      invariant forall j :: 0 <= j < |positives| ==> all[j] == Mitzvah("Positive", j + 1, ps(j, positives[j]), PositiveLink(j + 1))
      invariant forall j :: 0 <= j < i ==> all[|positives| + j] == Mitzvah("Negative", j + 1, ns(j, negatives[j]), NegativeLink(j + 1))
    {
      all := all + [Mitzvah("Negative", i + 1, ns(i, negatives[i]), NegativeLink(i + 1))];
    }
  }

  /** One pass of the inner loop: the entries of mitzvah day `day` (two before day 278, one
      after), each taken while any mitzvot remain. */
  method FillDay(schedule: seq<ScheduleRow>, all: seq<Mitzvah>, ni: nat, day: nat, index: nat)
    returns (schedule': seq<ScheduleRow>, index': nat)
    requires index == (if |all| <= SlotsBefore(day) then |all| else SlotsBefore(day))
    requires |schedule| == ni + index
    ensures index' == (if |all| <= SlotsBefore(day + 1) then |all| else SlotsBefore(day + 1))
    ensures |schedule'| == ni + index' && schedule'[..|schedule|] == schedule
    ensures forall m :: index <= m < index' ==> schedule'[ni + m] == MitzvahRow(all[m], ni, m)
  {
    var entriesToday := if day < DaysWithTwo then 2 else 1;
    schedule', index' := schedule, index;
    for entryInDay := 0 to entriesToday
      invariant index' == (if |all| <= SlotsBefore(day) + entryInDay then |all| else SlotsBefore(day) + entryInDay)
      invariant |schedule'| == ni + index' && schedule'[..|schedule|] == schedule
      invariant forall m :: index <= m < index' ==> schedule'[ni + m] == MitzvahRow(all[m], ni, m)
    {
      if index' < |all| {
        var mz := all[index'];
        assert MitzvahDay(index') == day;
        schedule' := schedule' + [ScheduleRow(StartDay + ni + day, |schedule'| + 1, mz.kind + " " + NatToString(mz.number), mz.summary, mz.link)];
        index' := index' + 1;
      }
    }
  }

  // ---------------------------------------------------------------------------
  // Properties of the schedule

  /** Sequential numbers rise by one per row, starting at 1. */
  lemma ScheduleNumbered(introCount: nat, all: seq<Mitzvah>)
    ensures NumberedInOrder(Schedule(introCount, all))
  {
  }

  /** Dates never decrease along the schedule, and the conclusion comes last. */
  lemma ScheduleDatesNonDecreasing(introCount: nat, all: seq<Mitzvah>)
    ensures DatesNonDecreasing(Schedule(introCount, all))
  {
    var s := Schedule(introCount, all);
    var placed := PlacedCount(introCount, |all|);
    forall i, j | 0 <= i < j < |s| ensures s[i].date <= s[j].date {
      if introCount <= i && j < introCount + placed {
        assert MitzvahDay(i - introCount) <= MitzvahDay(j - introCount);
      }
      if introCount <= i < introCount + placed {
        assert MitzvahDay(i - introCount) < (if MitzvotDays(introCount) < 0 then 0 else MitzvotDays(introCount)) by {
          MitzvahDayBound(i - introCount, if MitzvotDays(introCount) < 0 then 0 else MitzvotDays(introCount));
        }
      }
    }
  }

  lemma MitzvahDayBound(m: nat, days: nat)
    requires m < SlotsBefore(days)
    ensures MitzvahDay(m) < days
  {
  }

  /** Mitzvah day `d` holds two mitzvot while d < 278 and one after that (when enough remain). */
  lemma {:induction false} DayHolds(m1: nat, m2: nat)
    requires m1 < m2 && MitzvahDay(m1) == MitzvahDay(m2)
    ensures m2 == m1 + 1 && MitzvahDay(m1) < DaysWithTwo
  {
  }

  /** With the corpus sizes (14 introductions, 248 positive and 365 negative mitzvot) every
      mitzvah is placed, in corpus order, and the conclusion falls on 2026-10-04. */
  lemma FullCorpusFits(positives: seq<RawText>, negatives: seq<RawText>)
    requires |positives| == 248 && |negatives| == 365
    ensures var s := Schedule(14, AllMitzvot(positives, negatives));
      && |s| == 14 + 613 + 1
      && s[|s| - 1].date == EndDay
      && s[14].entry == "Positive 1" && s[14 + 248].entry == "Negative 1"
  {
    assert NatToString(1) == "1";
  }
}
