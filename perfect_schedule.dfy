/** create_perfect_schedule.py: `clean_text` (strip tags, keyword summaries, first-sentence
    fallback) and the allocator: 14 introductions one a day, the positives two a day for at
    most 125 days, the negatives with a catch-up rule that takes a second one on a day only
    when more remain than days, and the conclusion on the last day of the cycle. */
module PerfectSchedule {
  import opened Common
  import opened ScheduleRows

  // ---------------------------------------------------------------------------
  // clean_text

  /** The first index at or after `i` holding `c`, or `|s|`. */
  function IndexFrom(s: string, c: char, i: nat): (j: nat)
    requires i <= |s|
    decreases |s| - i
    ensures i <= j <= |s| && (j < |s| ==> s[j] == c)
    ensures forall m :: i <= m < j ==> s[m] != c
  {
    if i == |s| || s[i] == c then i else IndexFrom(s, c, i + 1)
  }

  /** No '<' is followed, after at least one other character, by a '>': the text holds no
      match of `<[^>]+>`. */
  predicate NoTags(r: string) {
    forall i, j :: 0 <= i < j < |r| && r[i] == '<' && r[j] == '>' ==> r[i + 1] == '>'
  }

  /** `re.sub(r'<[^>]+>', '', s)`: a '<', one or more characters other than '>', then '>' is
      removed, scanning from the left. */
  function StripTags(s: string): (r: string)
    decreases |s|
    ensures |r| <= |s|
  {
    if s == [] then []
    else if s[0] == '<' && IndexFrom(s, '>', 1) < |s| && IndexFrom(s, '>', 1) >= 2 then
      StripTags(s[IndexFrom(s, '>', 1) + 1..])
    else
      [s[0]] + StripTags(s[1..])
  }

  /** Tag removal keeps only characters of the input and leaves no tag behind. */
  lemma {:induction false} StripTagsRemovesTags(s: string)
    ensures forall i :: 0 <= i < |StripTags(s)| ==> StripTags(s)[i] in s
    ensures s != [] && s[0] != '<' ==> StripTags(s) != [] && StripTags(s)[0] == s[0]
    ensures NoTags(StripTags(s))
  {
    if s != [] {
      var j := IndexFrom(s, '>', 1);
      if s[0] == '<' && j < |s| && j >= 2 {
        StripTagsRemovesTags(s[j + 1..]);
        var r := StripTags(s[j + 1..]);
        assert forall i :: 0 <= i < |r| ==> r[i] in s[j + 1..];
      } else {
        StripTagsRemovesTags(s[1..]);
        var rest := StripTags(s[1..]);
        assert forall i :: 0 <= i < |rest| ==> rest[i] in s[1..];
      }
    }
  }

  /** `s.split(c)` */
  function Split(s: string, c: char): (r: seq<string>)
    decreases |s|
    ensures |r| >= 1
    ensures forall k :: 0 <= k < |r| ==> c !in r[k]
  {
    var i := IndexFrom(s, c, 0);
    if i == |s| then [s] else [s[..i]] + Split(s[i + 1..], c)
  }

  /** The text of an entry as `clean_text` sees it before removing tags. */
  function EntryText(t: RawText): string {
    match t
    case Missing => "None"
    case Text(s) => s
    case Variants(items) => if items == [] then "" else items[0]
  }

  const DefaultSummary: string := "Commandment from Sefer HaMitzvot"

  /** The text with tags removed and whitespace stripped. */
  function Cleaned(t: RawText): (r: string)
    ensures |r| <= |EntryText(t)|
  {
    Strip(StripTags(EntryText(t)))
  }

  /** The positive keyword cascade; `None` when no keyword matches (the `if` has no `else`). */
  function PositiveKeywords(text: string): (r: Option<string>)
    ensures r.Some? ==> 0 < |r.value| <= 73
  {
    if Contains(text, "believe in God") then Some("To believe in God")
    else if Contains(text, "belief in [God's] unity") || Contains(text, "unity") then Some("To believe in God's unity")
    else if Contains(text, "loving Him") then Some("To love God")
    else if Contains(text, "believe in His awe") || Contains(text, "fear") then Some("To fear God")
    else if Contains(text, "serve Him") || Contains(text, "prayer") then Some("To serve God (prayer)")
    else if Contains(text, "associate with the sages") then Some("To cling to Torah scholars")
    else if Contains(text, "swear by His name") then Some("To swear by God's name when necessary")
    else if Contains(text, "imitate Him") then Some("To emulate God's ways")
    else if Contains(text, "sanctify His name") then Some("To sanctify God's name")
    else if Contains(text, "Shema") then Some("To recite Shema morning and evening")
    else if Contains(text, "study Torah") || Contains(text, "learn") then Some("To study and teach Torah")
    else if Contains(text, "tefillin") && Contains(text, "head") then Some("To wear tefillin on the head")
    else if Contains(text, "tefillin") && Contains(text, "arm") then Some("To bind tefillin on the arm")
    else None
  }

  function NegativeKeywords(text: string): (r: Option<string>)
    ensures r.Some? ==> 0 < |r.value| <= 73
  {
    if Contains(text, "believing in a god besides") || Contains(text, "other god") then Some("Not to believe in other gods")
    else if Contains(text, "making an idol") && Contains(text, "serve") then Some("Not to make idols for yourself")
    else if Contains(text, "making an idol") && Contains(text, "others") then Some("Not to make idols for others")
    else if Contains(text, "making images") || Contains(text, "decorative") then Some("Not to make decorative images")
    else if Contains(text, "bowing to an idol") then Some("Not to bow down to idols")
    else if Contains(text, "worshipping an idol") then Some("Not to worship idols")
    else None
  }

  /** A sentence the fallback accepts. */
  predicate Meaningful(sentence: string) {
    |sentence| > 10 && !StartsWith(sentence, "That is")
  }

  /** `sentence[:70] + ("..." if len(sentence) > 70 else "")` */
  function Shorten(sentence: string): (r: string)
    ensures |r| <= 73
    ensures |sentence| <= 70 ==> r == sentence
    ensures |sentence| > 70 ==> r == sentence[..70] + "..."
  {
    if |sentence| > 70 then sentence[..70] + "..." else sentence
  }

  /** The fallback loop over the sentences. */
  function FirstSentence(sentences: seq<string>): (r: Option<string>)
    ensures r.Some? ==> 10 <= |r.value| <= 73
    ensures r.Some? ==> exists k :: 0 <= k < |sentences| && Meaningful(Strip(sentences[k])) && r.value == Shorten(Strip(sentences[k]))
  {
    if sentences == [] then None
    else if Meaningful(Strip(sentences[0])) then Some(Shorten(Strip(sentences[0])))
    else
      var r := FirstSentence(sentences[1..]);
      assert forall k :: 1 <= k < |sentences| ==> sentences[k] == sentences[1..][k - 1];
      r
  }

  /** The keyword summary: the positive cascade for a text with the positive formula, else the
      negative cascade for a text with the prohibition formula. */
  function KeywordSummary(text: string): (r: Option<string>)
    ensures r.Some? ==> 0 < |r.value| <= 73
  {
    if Contains(text, "That is the command that He commanded us") then PositiveKeywords(text)
    else if Contains(text, "prohibited us") || Contains(text, "That He prohibited us") then NegativeKeywords(text)
    else None
  }

  function CleanText(t: RawText): (r: string)
    ensures r != [] && |r| <= 73
  {
    var text := Cleaned(t);
    var keyword := KeywordSummary(text);
    if keyword.Some? then keyword.value
    else match FirstSentence(Split(text, '.'))
      case Some(s) => s
      case None => DefaultSummary
  }

  // ---------------------------------------------------------------------------
  // Properties of clean_text

  /** Splitting on a character and joining with it again gives back the text. */
  lemma {:induction false} SplitJoin(s: string, c: char)
    ensures Join(Split(s, c), [c]) == s
  {
    var i := IndexFrom(s, c, 0);
    if i < |s| {
      SplitJoin(s[i + 1..], c);
      assert s == s[..i] + [c] + s[i + 1..];
    }
  }

  /** The longer prohibition formula contains the shorter one. */
  lemma ProhibitionFormula(text: string)
    requires !Contains(text, "prohibited us")
    ensures !Contains(text, "That He prohibited us")
  {
    if Contains(text, "That He prohibited us") {
      assert "That He prohibited us" == "That He " + "prohibited us";
      ContainsSuffix(text, "That He ", "prohibited us");
    }
  }

  /** When no keyword applies (neither formula is there, or the cascade of the one that is finds
      no keyword), the summary is the first sentence longer than ten characters not starting
      with "That is", cut to 70 characters plus "...". */
  lemma FallbackSummary(t: RawText, k: nat)
    requires KeywordSummary(Cleaned(t)).None?
    requires k < |Split(Cleaned(t), '.')|
    requires Meaningful(Strip(Split(Cleaned(t), '.')[k]))
    requires forall j :: 0 <= j < k ==> !Meaningful(Strip(Split(Cleaned(t), '.')[j]))
    ensures CleanText(t) == Shorten(Strip(Split(Cleaned(t), '.')[k]))
  {
    FirstSentenceIsFirst(Split(Cleaned(t), '.'), k);
  }

  /** The fallback finds nothing exactly when no sentence is meaningful. */
  lemma {:induction false} FirstSentenceNone(sentences: seq<string>)
    ensures FirstSentence(sentences).None? <==> forall k :: 0 <= k < |sentences| ==> !Meaningful(Strip(sentences[k]))
  {
    if sentences != [] && !Meaningful(Strip(sentences[0])) {
      FirstSentenceNone(sentences[1..]);
      assert forall k :: 1 <= k < |sentences| ==> sentences[k] == sentences[1..][k - 1];
    }
  }

  lemma {:induction false} FirstSentenceIsFirst(sentences: seq<string>, k: nat)
    requires k < |sentences| && Meaningful(Strip(sentences[k]))
    requires forall j :: 0 <= j < k ==> !Meaningful(Strip(sentences[j]))
    ensures FirstSentence(sentences) == Some(Shorten(Strip(sentences[k])))
  {
    if k > 0 {
      FirstSentenceIsFirst(sentences[1..], k - 1);
    }
  }

  // ---------------------------------------------------------------------------
  // The allocation

  const IntroTitles: seq<string> := [
    "Introduction to Counting the Mitzvot",
    "Principle 1: Not rabbinic commandments",
    "Principle 2: Not derived through hermeneutics",
    "Principle 3: Only perpetual commandments",
    "Principle 4: Not general Torah commands",
    "Principle 5: Not reasons as separate mitzvot",
    "Principle 6: Separate positive and negative",
    "Principle 7: Not details of commandments",
    "Principle 8: Not negation of positive commands",
    "Principle 9: Count substance, not statements",
    "Principle 10: Not preliminaries to commandments",
    "Principle 11: Not parts of unified commandments",
    "Principle 12: Not work process components",
    "Principle 13: Not repetition-based counting"
  ]

  const IntroCount: nat := 14

  const DaysForPositives: nat := 125

  const ConclusionSummary: string := "Completion of Sefer HaMitzvot study cycle"
  const ConclusionLink: string := "https://www.sefaria.org/Sefer_HaMitzvot?lang=bi"

  function Min(a: int, b: int): int { if a <= b then a else b }

  /** One row a day from the start date, one per introduction title. */
  function IntroRowsFrom(titles: seq<string>): (r: seq<ScheduleRow>)
    ensures |r| == |titles|
  {
    seq(|titles|, i requires 0 <= i < |titles| =>
      ScheduleRow(StartDay + i, i + 1, IntroLabel(i + 1), titles[i], IntroLink(i + 1)))
  }

  function IntroRows(): (r: seq<ScheduleRow>)
    ensures |r| == IntroCount
  {
    IntroRowsFrom(IntroTitles)
  }

  /** Positives placed: two a day for at most 125 days. */
  function PositivePlaced(p: nat): nat {
    Min(p, 2 * DaysForPositives)
  }

  /** Days the positive loop advances the date: it stops at the first day with nothing left. */
  function PositiveDays(p: nat): nat {
    Min(DaysForPositives, (p + 1) / 2)
  }

  /** The row of the k-th positive; `summarize` is the summariser (`CleanText` in the script). */
  function PositiveRow(summarize: RawText -> string, t: RawText, k: nat, start: Day): ScheduleRow {
    ScheduleRow(start + k / 2, IntroCount + k + 1, PositiveLabel(k + 1), summarize(t), PositiveLink(k + 1))
  }

  function PositiveRows(summarize: RawText -> string, positives: seq<RawText>, start: Day): (r: seq<ScheduleRow>)
    ensures |r| == PositivePlaced(|positives|)
  {
    seq(PositivePlaced(|positives|), k requires 0 <= k < PositivePlaced(|positives|) =>
      PositiveRow(summarize, positives[k], k, start))
  }

  /** Days of the negative loop that take two entries under the catch-up rule: as many as
      there are more mitzvot than days, but never the last day. */
  function NegativeDoubles(n: nat, days: int): nat {
    if days <= 0 || n <= days then 0 else Min(n - days, days - 1)
  }

  function NegativePlaced(n: nat, days: int): nat {
    if days <= 0 then 0 else Min(n, days + NegativeDoubles(n, days))
  }

  /** The day (0-based within the phase) of the k-th entry when the first `w` days take two. */
  function DayOf(k: nat, w: nat): nat {
    if k < 2 * w then k / 2 else k - w
  }

  function NegativeRow(summarize: RawText -> string, t: RawText, k: nat, first: nat, start: Day, w: nat): ScheduleRow {
    ScheduleRow(start + DayOf(k, w), first + k + 1, NegativeLabel(k + 1), summarize(t), NegativeLink(k + 1))
  }

  function NegativeRows(summarize: RawText -> string, negatives: seq<RawText>, first: nat, start: Day, days: int)
    : (r: seq<ScheduleRow>)
    ensures |r| == NegativePlaced(|negatives|, days)
  {
    var w := NegativeDoubles(|negatives|, days);
    seq(NegativePlaced(|negatives|, days), k requires 0 <= k < NegativePlaced(|negatives|, days) =>
      NegativeRow(summarize, negatives[k], k, first, start, w))
  }

  /** The schedule, when the negative phase has `(end_date - current_date).days - reserve` days:
      the script reserves one day (`reserve == 1`). */
  function BuildSchedule(positives: seq<RawText>, negatives: seq<RawText>, reserve: nat): seq<ScheduleRow> {
    BuildWith(CleanText, positives, negatives, reserve)
  }

  /** The allocation with the summariser left as a parameter. */
  function BuildWith(summarize: RawText -> string, positives: seq<RawText>, negatives: seq<RawText>, reserve: nat)
    : seq<ScheduleRow>
  {
    var negStart := StartDay + IntroCount + PositiveDays(|positives|);
    var rows := IntroRows() + PositiveRows(summarize, positives, StartDay + IntroCount)
      + NegativeRows(summarize, negatives, IntroCount + PositivePlaced(|positives|), negStart, EndDay - negStart - reserve);
    rows + [ScheduleRow(EndDay, |rows| + 1, "Conclusion", ConclusionSummary, ConclusionLink)]
  }

  /** The schedule as the script builds it. */
  function PerfectScheduleAsWritten(positives: seq<RawText>, negatives: seq<RawText>): seq<ScheduleRow> {
    BuildSchedule(positives, negatives, 1)
  }

  /** The schedule with the negatives given every day up to the conclusion. */
  function PerfectScheduleCorrected(positives: seq<RawText>, negatives: seq<RawText>): seq<ScheduleRow> {
    BuildSchedule(positives, negatives, 0)
  }

  method CreatePerfectSchedule(positives: seq<RawText>, negatives: seq<RawText>) returns (schedule: seq<ScheduleRow>)
    ensures schedule == PerfectScheduleAsWritten(positives, negatives)
  {
    schedule := ScheduleWith(CleanText, positives, negatives);
  }

  /** The four phases of the script, with the summariser passed in. */
  method ScheduleWith(summarize: RawText -> string, positives: seq<RawText>, negatives: seq<RawText>)
    returns (schedule: seq<ScheduleRow>)
    ensures schedule == BuildWith(summarize, positives, negatives, 1)
  {
    // Phase 1: the introductions, one a day
    var currentDate;
    schedule, currentDate := IntroPhase(IntroTitles);
    assert schedule == IntroRows();

    // Phase 2: the positives
    var rows;
    rows, currentDate := PositivePhase(summarize, positives, currentDate);
    schedule := schedule + rows;

    // Phase 3: the negatives
    var daysUntilEnd := EndDay - currentDate;
    var daysForNegatives := daysUntilEnd - 1;
    rows := NegativePhase(summarize, negatives, |schedule|, currentDate, daysForNegatives);
    schedule := schedule + rows;

    // Phase 4: the conclusion on the last day
    schedule := schedule + [ScheduleRow(EndDay, |schedule| + 1, "Conclusion", ConclusionSummary, ConclusionLink)];
  }

  /** The introduction loop: one title a day from the start date. */
  method IntroPhase(titles: seq<string>) returns (rows: seq<ScheduleRow>, currentDate: Day)
    ensures rows == IntroRowsFrom(titles)
    ensures currentDate == StartDay + |titles|
  {
    currentDate := StartDay;
    rows := [];
    for i := 0 to |titles|
      invariant rows == IntroRowsFrom(titles)[..i] && currentDate == StartDay + i
    {
      rows := rows + [ScheduleRow(currentDate, |rows| + 1, IntroLabel(i + 1), titles[i], IntroLink(i + 1))];
      currentDate := currentDate + 1;
    }
  }

  /** The positive loop: each day one entry, and a second while any remain; it stops at the
      first day with none left. */
  method PositivePhase(summarize: RawText -> string, positives: seq<RawText>, start: Day)
    returns (rows: seq<ScheduleRow>, currentDate: Day)
    ensures rows == PositiveRows(summarize, positives, start)
    ensures currentDate == start + PositiveDays(|positives|)
  {
    var p := |positives|;
    rows := [];
    currentDate := start;
    var posIndex := 0;
    for day := 0 to DaysForPositives
      invariant posIndex == Min(p, 2 * day) && |rows| == posIndex
      invariant currentDate == start + Min(day, (p + 1) / 2)
      invariant forall k :: 0 <= k < posIndex ==> rows[k] == PositiveRow(summarize, positives[k], k, start)
    {
      if posIndex >= p {
        break;
      }
      assert posIndex == 2 * day && currentDate == start + day;
      assert (2 * day) / 2 == day && (2 * day + 1) / 2 == day;
      rows := rows + [ScheduleRow(currentDate, IntroCount + |rows| + 1, PositiveLabel(posIndex + 1),
                                  summarize(positives[posIndex]), PositiveLink(posIndex + 1))];
      assert rows[posIndex] == PositiveRow(summarize, positives[posIndex], posIndex, start);
      posIndex := posIndex + 1;
      if posIndex < p {
        rows := rows + [ScheduleRow(currentDate, IntroCount + |rows| + 1, PositiveLabel(posIndex + 1),
                                    summarize(positives[posIndex]), PositiveLink(posIndex + 1))];
        assert rows[posIndex] == PositiveRow(summarize, positives[posIndex], posIndex, start);
        posIndex := posIndex + 1;
      }
      currentDate := currentDate + 1;
    }
  }

  /** The negative loop: each day one entry, and a second only when more mitzvot remain than
      days after this one. */
  method NegativePhase(summarize: RawText -> string, negatives: seq<RawText>, first: nat, start: Day,
                       daysForNegatives: int)
    returns (rows: seq<ScheduleRow>)
    ensures rows == NegativeRows(summarize, negatives, first, start, daysForNegatives)
  {
    var n := |negatives|;
    var w := NegativeDoubles(n, daysForNegatives);
    rows := [];
    var currentDate := start;
    var negIndex := 0;
    var days := if daysForNegatives < 0 then 0 else daysForNegatives;
    for day := 0 to days
      invariant negIndex == Min(n, if day <= w then 2 * day else w + day) && |rows| == negIndex
      invariant currentDate == start + day
      invariant forall k :: 0 <= k < negIndex ==> rows[k] == NegativeRow(summarize, negatives[k], k, first, start, w)
    {
      if negIndex >= n {
        break;
      }
      rows := rows + [ScheduleRow(currentDate, first + |rows| + 1, NegativeLabel(negIndex + 1),
                                  summarize(negatives[negIndex]), NegativeLink(negIndex + 1))];
      negIndex := negIndex + 1;

      var remainingDays := daysForNegatives - day - 1;
      var remainingMitzvot := n - negIndex;
      if remainingDays > 0 && remainingMitzvot > remainingDays && negIndex < n {
        assert day < w;
        rows := rows + [ScheduleRow(currentDate, first + |rows| + 1, NegativeLabel(negIndex + 1),
                                    summarize(negatives[negIndex]), NegativeLink(negIndex + 1))];
        negIndex := negIndex + 1;
      } else {
        assert day >= w || negIndex == n;
      }
      currentDate := currentDate + 1;
    }
  }

  // ---------------------------------------------------------------------------
  // Properties of the allocation

  /** Sequential numbers equal position + 1. */
  lemma ScheduleNumbered(positives: seq<RawText>, negatives: seq<RawText>, reserve: nat)
    ensures NumberedInOrder(BuildSchedule(positives, negatives, reserve))
  {
  }

  /** Two negatives share a day only when they are adjacent and the day is one of the first
      `w` (catch-up) days. */
  lemma NegativeDayLoad(k1: nat, k2: nat, w: nat)
    requires k1 < k2 && DayOf(k1, w) == DayOf(k2, w)
    ensures k2 == k1 + 1 && DayOf(k1, w) < w
  {
  }

  /** The catch-up rule places every negative exactly when there are at most `2 * days - 1`
      of them (the last day never takes a second one). */
  lemma NegativesAllPlaced(n: nat, days: int)
    requires days >= 1
    ensures NegativePlaced(n, days) == n <==> n <= 2 * days - 1
  {
  }

  /** Rows placed by the negative loop fall within its days. */
  lemma NegativeWithinDays(k: nat, n: nat, days: int)
    requires k < NegativePlaced(n, days)
    ensures DayOf(k, NegativeDoubles(n, days)) < days
  {
  }

  /** With the corpus (248 positives, 365 negatives) the script's schedule places every
      mitzvah but leaves 2026-10-03, the day before the conclusion, without any row. */
  lemma AsWrittenSkipsDayBeforeEnd(positives: seq<RawText>, negatives: seq<RawText>)
    requires |positives| == 248 && |negatives| == 365
    ensures var s := PerfectScheduleAsWritten(positives, negatives);
      |s| == 14 + 248 + 365 + 1
      && forall i :: 0 <= i < |s| ==> s[i].date != EndDay - 1
  {
    var s := PerfectScheduleAsWritten(positives, negatives);
    assert PositiveDays(248) == 124 && NegativeDoubles(365, 210) == 155;
    forall i | 0 <= i < |s| ensures s[i].date != EndDay - 1 {
      if 262 <= i < 627 {
        assert s[i].date == StartDay + 138 + DayOf(i - 262, 155);
      }
    }
  }

  /** With the negatives given every day up to the conclusion, every mitzvah is placed and
      every day of the cycle, 2025-10-20 to 2026-10-04, has at least one row. */
  lemma CorrectedCoversEveryDay(positives: seq<RawText>, negatives: seq<RawText>, day: Day)
    requires |positives| == 248 && |negatives| == 365
    requires StartDay <= day <= EndDay
    ensures var s := PerfectScheduleCorrected(positives, negatives);
      |s| == 14 + 248 + 365 + 1
      && exists i :: 0 <= i < |s| && s[i].date == day
  {
    CoversEveryDayWith(CleanText, positives, negatives, day);
  }

  lemma CoversEveryDayWith(summarize: RawText -> string, positives: seq<RawText>, negatives: seq<RawText>, day: Day)
    requires |positives| == 248 && |negatives| == 365
    requires StartDay <= day <= EndDay
    ensures var s := BuildWith(summarize, positives, negatives, 0);
      |s| == 14 + 248 + 365 + 1
      && exists i :: 0 <= i < |s| && s[i].date == day
  {
    var s := BuildWith(summarize, positives, negatives, 0);
    assert PositiveDays(248) == 124 && NegativeDoubles(365, 211) == 154;
    var o := day - StartDay;
    var i: nat;
    if o < 14 {
      i := o;
    } else if o < 138 {
      i := 14 + 2 * (o - 14);
      assert s[i].date == StartDay + 14 + (i - 14) / 2;
    } else if o < 349 {
      var d := o - 138;
      var k: nat := if d < 154 then 2 * d else d + 154;
      i := 262 + k;
      assert s[i].date == StartDay + 138 + DayOf(k, 154);
    } else {
      i := |s| - 1;
    }
    assert s[i].date == day;
  }
}
