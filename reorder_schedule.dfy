/** reorder_schedule_with_conclusion.py: split the schedule rows into introduction, positive,
    negative and conclusion buckets, put the conclusion between the positives and the
    negatives, then lay the rows out again over the 350 days of the cycle (two a day for the
    first `total - 350` days, one a day after that), renumbering them 1, 2, ... */
module ReorderSchedule {
  import opened Common
  import opened ScheduleRows

  /** The Date column: still the text read from the file, or a day written by the loop
      (`strftime('%Y-%m-%d')` of that day). */
  datatype DateText = AsRead(text: string) | Dated(day: Day)

  /** One CSV row (the columns of the schedule file). */
  datatype Entry = Entry(date: DateText, seqNum: string, typeNumber: string, summary: string, link: string)

  datatype Bucket = IntroBucket | PositiveBucket | NegativeBucket | ConclusionBucket | NoBucket

  /** The `if/elif` chain over `Mitzvah_Type_Number`; rows matching none are dropped. */
  function Classify(typeNumber: string): (b: Bucket)
    ensures b == IntroBucket <==> Contains(typeNumber, "Intro")
    ensures b == PositiveBucket <==> !Contains(typeNumber, "Intro") && Contains(typeNumber, "Positive")
    ensures b == NegativeBucket <==>
      !Contains(typeNumber, "Intro") && !Contains(typeNumber, "Positive") && Contains(typeNumber, "Negative")
    ensures b == ConclusionBucket <==>
      !Contains(typeNumber, "Intro") && !Contains(typeNumber, "Positive")
      && !Contains(typeNumber, "Negative") && Contains(typeNumber, "Conclusion")
    ensures b == NoBucket <==>
      !Contains(typeNumber, "Intro") && !Contains(typeNumber, "Positive")
      && !Contains(typeNumber, "Negative") && !Contains(typeNumber, "Conclusion")
  {
    if Contains(typeNumber, "Intro") then IntroBucket
    else if Contains(typeNumber, "Positive") then PositiveBucket
    else if Contains(typeNumber, "Negative") then NegativeBucket
    else if Contains(typeNumber, "Conclusion") then ConclusionBucket
    else NoBucket
  }

  /** The rows of one bucket, in input order. */
  function Select(entries: seq<Entry>, b: Bucket): (r: seq<Entry>)
    ensures |r| <= |entries|
  {
    if entries == [] then []
    else
      var last := entries[|entries| - 1];
      Select(entries[..|entries| - 1], b) + (if Classify(last.typeNumber) == b then [last] else [])
  }

  /** `conclusion_entry`: the last conclusion row, since each one overwrites the previous. */
  function LastConclusion(entries: seq<Entry>): (r: Option<Entry>)
    ensures r.Some? ==> r.value in entries && Classify(r.value.typeNumber) == ConclusionBucket
    ensures r.None? <==> Select(entries, ConclusionBucket) == []
  {
    if entries == [] then None
    else
      var last := entries[|entries| - 1];
      if Classify(last.typeNumber) == ConclusionBucket then Some(last)
      else LastConclusion(entries[..|entries| - 1])
  }

  /** `all_entries` before redistribution: intros, positives, the conclusion (with the better
      summary) if there is one, negatives. */
  function Reordered(entries: seq<Entry>, betterSummary: string): seq<Entry> {
    var conclusion := LastConclusion(entries);
    Select(entries, IntroBucket) + Select(entries, PositiveBucket)
      + (if conclusion.Some? then [conclusion.value.(summary := betterSummary)] else [])
      + Select(entries, NegativeBucket)
  }

  const TotalDays: nat := 350

  /** How many of the 350 days take two rows: `total - 350`, as far as the loop can honour it
      (none when it is negative, all 350 when it exceeds 350). */
  function DoubleDays(total: nat): (w: nat)
    ensures w <= TotalDays
    ensures total <= TotalDays ==> w == 0
    ensures TotalDays <= total <= 2 * TotalDays ==> w == total - TotalDays
  {
    if total <= TotalDays then 0 else if total - TotalDays > TotalDays then TotalDays else total - TotalDays
  }

  /** Rows placed on the first `day` days. */
  function Slots(day: nat, w: nat): nat {
    if day <= w then 2 * day else w + day
  }

  /** The day (0-based) the k-th row of the new order falls on. */
  function DayOf(k: nat, w: nat): nat {
    if k < 2 * w then k / 2 else k - w
  }

  /** What the redistribution loop leaves in `all_entries`: each placed row gets its day and
      its position + 1; rows beyond the 350 days keep their old Date and number. */
  function Redistributed(all: seq<Entry>): (r: seq<Entry>)
    ensures |r| == |all|
  {
    var w := DoubleDays(|all|);
    seq(|all|, k requires 0 <= k < |all| =>
      if k < Slots(TotalDays, w) then all[k].(date := Dated(StartDay + DayOf(k, w)), seqNum := NatToString(k + 1))
      else all[k])
  }

  method ReorderSchedule(entries: seq<Entry>, betterSummary: string) returns (result: seq<Entry>)
    ensures result == Redistributed(Reordered(entries, betterSummary))
  {
    var introductionEntries, positiveEntries, negativeEntries, conclusionEntry := Partition(entries);

    if conclusionEntry.Some? {
      conclusionEntry := Some(conclusionEntry.value.(summary := betterSummary));
    }

    var allEntries := introductionEntries + positiveEntries;
    if conclusionEntry.Some? {
      allEntries := allEntries + [conclusionEntry.value];
    }
    allEntries := allEntries + negativeEntries;

    assert allEntries == Reordered(entries, betterSummary);
    var rows := new Entry[|allEntries|](k requires 0 <= k < |allEntries| => allEntries[k]);
    assert rows[..] == allEntries;
    Redistribute(rows);
    result := rows[..];
  }

  /** The bucket loop over the rows read. */
  method Partition(entries: seq<Entry>)
    returns (introductionEntries: seq<Entry>, positiveEntries: seq<Entry>, negativeEntries: seq<Entry>,
             conclusionEntry: Option<Entry>)
    ensures introductionEntries == Select(entries, IntroBucket)
    ensures positiveEntries == Select(entries, PositiveBucket)
    ensures negativeEntries == Select(entries, NegativeBucket)
    ensures conclusionEntry == LastConclusion(entries)
  {
    introductionEntries, positiveEntries, negativeEntries, conclusionEntry := [], [], [], None;
    for i := 0 to |entries|
      invariant introductionEntries == Select(entries[..i], IntroBucket)
      invariant positiveEntries == Select(entries[..i], PositiveBucket)
      invariant negativeEntries == Select(entries[..i], NegativeBucket)
      invariant conclusionEntry == LastConclusion(entries[..i])
    {
      var entry := entries[i];
      assert entries[..i + 1] == entries[..i] + [entry];
      SelectSnoc(entries[..i], entry);
      match Classify(entry.typeNumber) {
        case IntroBucket => introductionEntries := introductionEntries + [entry];
        case PositiveBucket => positiveEntries := positiveEntries + [entry];
        case NegativeBucket => negativeEntries := negativeEntries + [entry];
        case ConclusionBucket => conclusionEntry := Some(entry);
        case NoBucket =>
      }
    }
    assert entries[..|entries|] == entries;
  }

  /** The day loop: `entries_today` rows on each of the 350 days while rows remain. */
  method Redistribute(rows: array<Entry>)
    modifies rows
    ensures rows[..] == Redistributed(old(rows[..]))
  {
    ghost var all := rows[..];
    var w := DoubleDays(rows.Length);
    var daysWithTwo: int := rows.Length - TotalDays;
    var entryIndex := 0;
    for day := 0 to TotalDays
      invariant entryIndex == (if rows.Length <= Slots(day, w) then rows.Length else Slots(day, w))
      invariant forall k :: 0 <= k < entryIndex ==>
        rows[k] == all[k].(date := Dated(StartDay + DayOf(k, w)), seqNum := NatToString(k + 1))
      invariant forall k :: entryIndex <= k < rows.Length ==> rows[k] == all[k]
    {
      var entriesToday := if day < daysWithTwo then 2 else 1;
      assert entriesToday == Slots(day + 1, w) - Slots(day, w);
      entryIndex := FillDay(rows, day, entriesToday, entryIndex, w, all);
    }
    assert rows[..] == Redistributed(all) by {
      forall k | 0 <= k < rows.Length ensures rows[..][k] == Redistributed(all)[k] {
      }
    }
  }

  /** The inner loop for one day. */
  method FillDay(rows: array<Entry>, day: nat, entriesToday: nat, entryIndex: nat, w: nat, ghost all: seq<Entry>)
    returns (next: nat)
    requires |all| == rows.Length && w == DoubleDays(rows.Length) && day < TotalDays
    requires entriesToday == Slots(day + 1, w) - Slots(day, w)
    requires entryIndex == (if rows.Length <= Slots(day, w) then rows.Length else Slots(day, w))
    requires forall k :: 0 <= k < entryIndex ==>
      rows[k] == all[k].(date := Dated(StartDay + DayOf(k, w)), seqNum := NatToString(k + 1))
    requires forall k :: entryIndex <= k < rows.Length ==> rows[k] == all[k]
    modifies rows
    ensures next == (if rows.Length <= Slots(day + 1, w) then rows.Length else Slots(day + 1, w))
    ensures forall k :: 0 <= k < next ==>
      rows[k] == all[k].(date := Dated(StartDay + DayOf(k, w)), seqNum := NatToString(k + 1))
    ensures forall k :: next <= k < rows.Length ==> rows[k] == all[k]
  {
    next := entryIndex;
    var currentEntryNumber := entryIndex + 1;
    for i := 0 to entriesToday
      invariant next == (if rows.Length <= Slots(day, w) + i then rows.Length else Slots(day, w) + i)
      invariant currentEntryNumber == next + 1
      invariant forall k :: 0 <= k < next ==>
        rows[k] == all[k].(date := Dated(StartDay + DayOf(k, w)), seqNum := NatToString(k + 1))
      invariant forall k :: next <= k < rows.Length ==> rows[k] == all[k]
    {
      if next < rows.Length {
        assert DayOf(next, w) == day;
        rows[next] := rows[next].(date := Dated(StartDay + day), seqNum := NatToString(currentEntryNumber));
        next := next + 1;
        currentEntryNumber := currentEntryNumber + 1;
      }
    }
  }

  // ---------------------------------------------------------------------------
  // Properties

  /** A bucket holds only input rows of its class. */
  lemma {:induction false} SelectMembers(entries: seq<Entry>, b: Bucket)
    ensures forall e :: e in Select(entries, b) ==> e in entries && Classify(e.typeNumber) == b
  {
    if entries != [] {
      var init := entries[..|entries| - 1];
      SelectMembers(init, b);
      assert forall e :: e in init ==> e in entries;
    }
  }

  /** Appending a row extends its own bucket and no other. */
  lemma SelectSnoc(s: seq<Entry>, x: Entry)
    ensures forall b :: Select(s + [x], b) == Select(s, b) + (if Classify(x.typeNumber) == b then [x] else [])
    ensures LastConclusion(s + [x]) ==
      (if Classify(x.typeNumber) == ConclusionBucket then Some(x) else LastConclusion(s))
  {
    assert (s + [x])[..|s|] == s;
  }

  /** The last row adds itself to its own bucket's multiset only. */
  lemma SelectLastMultiset(entries: seq<Entry>, c: Bucket)
    requires entries != []
    ensures var x := entries[|entries| - 1];
      multiset(Select(entries, c))
        == multiset(Select(entries[..|entries| - 1], c)) + (if Classify(x.typeNumber) == c then multiset{x} else multiset{})
  {
  }

  lemma MultisetLast(entries: seq<Entry>)
    requires entries != []
    ensures multiset(entries) == multiset(entries[..|entries| - 1]) + multiset{entries[|entries| - 1]}
  {
    assert entries == entries[..|entries| - 1] + [entries[|entries| - 1]];
  }

  /** Every row lands in exactly one bucket: the bucket sizes add up to the input size. */
  lemma {:induction false} BucketsPartition(entries: seq<Entry>)
    ensures |Select(entries, IntroBucket)| + |Select(entries, PositiveBucket)| + |Select(entries, NegativeBucket)|
      + |Select(entries, ConclusionBucket)| + |Select(entries, NoBucket)| == |entries|
  {
    if entries != [] {
      BucketsPartition(entries[..|entries| - 1]);
    }
  }

  /** The buckets together hold exactly the input rows, each as often as it occurs. */
  lemma {:induction false} BucketsPermutation(entries: seq<Entry>)
    ensures multiset(Select(entries, IntroBucket)) + multiset(Select(entries, PositiveBucket))
      + multiset(Select(entries, NegativeBucket)) + multiset(Select(entries, ConclusionBucket))
      + multiset(Select(entries, NoBucket)) == multiset(entries)
  {
    if entries != [] {
      BucketsPermutation(entries[..|entries| - 1]);
      MultisetLast(entries);
      SelectLastMultiset(entries, IntroBucket);
      SelectLastMultiset(entries, PositiveBucket);
      SelectLastMultiset(entries, NegativeBucket);
      SelectLastMultiset(entries, ConclusionBucket);
      SelectLastMultiset(entries, NoBucket);
    }
  }

  /** The new order holds every intro, positive and negative row once and at most one
      conclusion; nothing else. */
  lemma ReorderedSize(entries: seq<Entry>, betterSummary: string)
    ensures |Reordered(entries, betterSummary)| ==
      |entries| - |Select(entries, NoBucket)| - |Select(entries, ConclusionBucket)|
      + (if LastConclusion(entries).Some? then 1 else 0)
  {
    BucketsPartition(entries);
  }

  /** Redistribution renumbers the placed rows 1, 2, ... and changes only Date and
      Sequential_Number. */
  lemma RedistributedFields(all: seq<Entry>, k: nat)
    requires k < |all|
    ensures var r := Redistributed(all)[k];
      r.typeNumber == all[k].typeNumber && r.summary == all[k].summary && r.link == all[k].link
    ensures k < TotalDays + DoubleDays(|all|) ==>
      AllDigits(Redistributed(all)[k].seqNum) && ParseNat(Redistributed(all)[k].seqNum) == k + 1
  {
    NatToStringRoundTrip(k + 1);
  }

  /** The first `total - 350` days hold two rows and the later days one: two rows share a day
      only when they are adjacent and the day is one of the double days. */
  lemma DayLoad(k1: nat, k2: nat, w: nat)
    requires k1 < k2 && DayOf(k1, w) == DayOf(k2, w)
    ensures k2 == k1 + 1 && DayOf(k1, w) < w
  {
  }

  /** Dates of the placed rows never go backwards, and every placed row falls in the cycle. */
  lemma RedistributedDates(all: seq<Entry>, i: nat, j: nat)
    requires i <= j < |all| && j < TotalDays + DoubleDays(|all|)
    ensures var r := Redistributed(all);
      r[i].date.Dated? && r[j].date.Dated? && r[i].date.day <= r[j].date.day
      && StartDay <= r[j].date.day <= EndDay
  {
  }

  /** With the corpus (14 intros, 248 positives, one conclusion, 365 negatives = 628 rows)
      every row is placed, 278 days take two rows, and the last row falls on 2026-10-04. */
  lemma FullCorpusPlaced(all: seq<Entry>)
    requires |all| == 628
    ensures DoubleDays(|all|) == 278
    ensures forall k :: 0 <= k < |all| ==> Redistributed(all)[k].date.Dated?
    ensures Redistributed(all)[627].date == Dated(EndDay)
  {
  }
}
