# Sefer HaMitzvos schedule pipeline in Dafny

This project models the batch pipeline behind the Sefer HaMitzvos daily-study schedule.
It covers the 14 introductions, the 248 positive and 365 negative commandments, and the
conclusion, laid out over a cycle of calendar days. It also proves properties of that model.
Each core script is one module:

- `reflow.dfy`: re-dating a schedule CSV so that it ends on a target day. Each day first takes
  one row, then two rows per day (`scripts/reflow_schedule_for_target.py`).
- `optimized_schedule.dfy`: the positive and negative summary extractors, and the
  two-then-one allocator (`create_optimized_schedule.py`).
- `reorder_schedule.dfy`: partition into intros, positives, conclusion and negatives, then
  redistribution over 350 days and renumbering (`reorder_schedule_with_conclusion.py`).
- `perfect_schedule.dfy`: `clean_text` and the catch-up allocator
  (`create_perfect_schedule.py`).
- `source_corrections.dfy`: guarded citation patches keyed by sequence number, kept as a
  class with its log lists (`scripts/apply_source_corrections.py`).
- `final_corrections.dfy`: guarded citation patches keyed by type label
  (`scripts/apply_final_corrections.py`).
- `verify_sources.dfy`: positive/negative to global numbering (negative n is 248 + n) and the
  match / mismatch / missing / extra classification (`scripts/verify_all_sources.py`).
- `master_list.dfy`: the numbered master-list parser, which joins continuation lines and
  tries three dash patterns (`scripts/convert_to_csv.py`).
- `lambda_convert.dfy`: grouping schedule rows by date into one embedded entry per day
  (`archive/convert_schedule_for_lambda.py`).
- `consent.dfy`: the consent keyword state machine over a subscriber map, with prefix
  stripping and XML escaping (`bots/consent_handler.py`).
- `biblical_refs.dfy`: extraction of "Book chapter:verse" references with book-name
  normalisation (`scripts/web_verify_biblical_sources.py`).
- `normalize.dfy`: the row-rewrite loop that puts Hebrew book names in the schedule CSV
  (`normalize_to_hebrew_sources.py`).
- `common.dfy` and `schedule_rows.dfy`: shared string helpers (ASCII case folding, strip,
  `in`, `str.replace`, decimal rendering) and the schedule row type.

Dates are proleptic Gregorian day ordinals, as from Python's `date.toordinal()`.
File reading and writing, printing and the command line are not modelled. Each script's core
takes its input as parameters and returns its result. Where a script mutates rows, lists or a
table in place, the model is an array or a class whose methods state the new state.

## Model

| member | source | states |
|---|---|---|
| Common.Strip | scripts/verify_all_sources.py:39 | `str.strip()`: no longer than its input, and not ending in whitespace |
| Common.StripEnds | scripts/verify_all_sources.py:39 | a stripped text has whitespace at neither end |
| Common.StripKeeps | scripts/verify_all_sources.py:39 | a text with no whitespace at either end is its own strip |
| Common.ReplaceAll | normalize_to_hebrew_sources.py:59 | reference definition of `str.replace`: every non-overlapping occurrence, from the left, replaced |
| Common.ReplaceAllCI | normalize_to_hebrew_sources.py:65-66 | reference definition of `re.sub` of an escaped literal under IGNORECASE: every non-overlapping occurrence in any case, from the left, replaced |
| Reflow.DateRange | scripts/reflow_schedule_for_target.py:45-50 | every day from start to end inclusive, in ascending order: end − start + 1 days (none when end < start), the i-th being start + i |
| Reflow.ComputeSwitchDays | scripts/reflow_schedule_for_target.py:53-77 | an error exactly when D = target − start + 1 ≤ 0; infeasible exactly when 2D < N, with max capacity 2D; when feasible 0 ≤ single ≤ D, single + double = D, single + 2·double ≥ N, and no longer one-a-day stretch would still hold N rows |
| Reflow.StableSort | scripts/reflow_schedule_for_target.py:107-115 | reference definition of `sorted` by the parsed date: insertion of each row after the rows of equal or smaller key; keeps the number of rows |
| Reflow.StableSortCorrect | scripts/reflow_schedule_for_target.py:107-115 | the sort by parsed old date (unparsable dates as `date.min`) is ordered by that key, keeps rows of equal key in their input order, and is a permutation |
| Reflow.AssignDates | scripts/reflow_schedule_for_target.py:130-148 | row k gets the date start + (k while k < x, else x + (k − x) / 2); nothing but its Date cell changes |
| Reflow.ReflowSchedule | scripts/reflow_schedule_for_target.py:103-151 | no rows, a bad date order, an infeasible plan or a reflow, each exactly in its case; on a reflow the rows are the stable sort of the input with the dates above, and the not-enough-days exit cannot occur |
| Reflow.DayIndexMonotone | scripts/reflow_schedule_for_target.py:133-147 | assigned dates never decrease along the row order |
| Reflow.DayLoad | scripts/reflow_schedule_for_target.py:137-147 | two rows share a day only after the first x days, and then as consecutive pairs, so no day holds more than two |
| Reflow.AssignmentWithinRange | scripts/reflow_schedule_for_target.py:127-151 | with a feasible plan every row's new date lies between start and target |
| Reflow.EveryDayCovered | scripts/reflow_schedule_for_target.py:130-147 | when there are at least as many rows as days, every day from start to target gets a row |
| OptimizedSchedule.MatchStart | create_optimized_schedule.py:40 | the leftmost case-insensitive occurrence of the pattern prefix that leaves a character to capture, and None exactly when there is none |
| OptimizedSchedule.CaptureEnd | create_optimized_schedule.py:33-36 | the lazy group ends at the first '.' after it starts, or at the end of the text |
| OptimizedSchedule.Capture | create_optimized_schedule.py:39-42 | the first `findall` capture is non-empty |
| OptimizedSchedule.CollapseWhitespace | create_optimized_schedule.py:44 | every whitespace run becomes one space: no whitespace other than ' ', no two adjacent |
| OptimizedSchedule.Cleanup | create_optimized_schedule.py:42-46 | a cleaned capture never ends in '.', ',', ';' or ':' |
| OptimizedSchedule.PositiveFromPatterns | create_optimized_schedule.py:39-52 | a pattern hit always reads "We are commanded … ." |
| OptimizedSchedule.PositiveKeywordSummary | create_optimized_schedule.py:54-83 | the keyword cascade always ends in a "We are commanded … ." sentence |
| OptimizedSchedule.ExtractPositiveSummary | create_optimized_schedule.py:19-83 | empty input gives the positive placeholder; every result is a non-empty "We are commanded … ." sentence |
| OptimizedSchedule.NegativeFromPatterns | create_optimized_schedule.py:105-119 | a pattern hit always starts with "We are" |
| OptimizedSchedule.NegativeKeywordSummary | create_optimized_schedule.py:121-132 | the keyword cascade always ends in a "We are prohibited … ." sentence |
| OptimizedSchedule.ExtractNegativeSummary | create_optimized_schedule.py:85-132 | empty input gives the negative placeholder; every result starts with "We are" |
| OptimizedSchedule.CapitalizeKeepsWeAre | create_optimized_schedule.py:116-119 | `capitalize` keeps a leading "We are" |
| OptimizedSchedule.PositiveCapitalizeUnreachable | create_optimized_schedule.py:46-52 | after the clean-up a non-empty summary never ends in '.', so the `capitalize` branch never runs |
| OptimizedSchedule.ListUsesFirstElement | create_optimized_schedule.py:25-26 | a list input is summarised exactly as its first element, for both extractors |
| OptimizedSchedule.PositivePatternHit | create_optimized_schedule.py:39-50 | the first pattern, in order, whose cleaned capture is non-empty decides: "We are commanded {capture}." |
| OptimizedSchedule.NegativePatternHit | create_optimized_schedule.py:105-119 | the first pattern whose cleaned capture is non-empty decides: "We are prohibited from {capture}." unless the capture starts with "We are" |
| OptimizedSchedule.PositiveFallsBackToKeywords | create_optimized_schedule.py:39-55 | when no pattern yields a summary, the keyword cascade decides |
| OptimizedSchedule.CaptureSentence | create_optimized_schedule.py:33-42 | a text made of a pattern, a body without '.', and a closing '.' captures exactly the body (as "That is that He commanded us to believe in God." captures "to believe in God") |
| OptimizedSchedule.AllMitzvot | create_optimized_schedule.py:209-240 | all positives in order, then all negatives in order, each numbered from 1 within its kind |
| OptimizedSchedule.Schedule | create_optimized_schedule.py:194-279 | the schedule holds the introductions, every placed mitzvah and exactly one conclusion row |
| OptimizedSchedule.CreateOptimallyDistributedSchedule | create_optimized_schedule.py:134-285 | the loops build exactly the specified schedule |
| OptimizedSchedule.Distribute | create_optimized_schedule.py:242-279 | after the introductions, the mitzvot two a day for 278 days and one a day after, then the conclusion |
| OptimizedSchedule.CollectMitzvot | create_optimized_schedule.py:209-240 | the two loops build exactly `all_mitzvot`: the positives numbered 1.. in order, then the negatives numbered 1.. in order |
| OptimizedSchedule.CollectWith | create_optimized_schedule.py:209-240 | for any summarisers, the list holds one record per positive then one per negative, each with its type, its number within its kind, its summary and its Sefaria link |
| OptimizedSchedule.PositiveEntrySummary | create_optimized_schedule.py:212-217 | a variant list is summarised by its first element, and an empty one takes the numbered fallback "We are commanded in positive mitzvah n."; every summary is a "We are commanded … ." sentence |
| OptimizedSchedule.NegativeEntrySummary | create_optimized_schedule.py:227-232 | a variant list is summarised by its first element, and an empty one takes the numbered fallback "We are prohibited in negative mitzvah n."; every summary starts with "We are" |
| OptimizedSchedule.FillDay | create_optimized_schedule.py:256-267 | one day takes its two (before day 278) or one entries while mitzvot remain, numbered on from the rows before |
| OptimizedSchedule.ScheduleNumbered | create_optimized_schedule.py:198-203 | entry numbers rise by exactly one per row, starting at 1 |
| OptimizedSchedule.ScheduleDatesNonDecreasing | create_optimized_schedule.py:204-279 | dates never decrease along the schedule, the conclusion included |
| OptimizedSchedule.MitzvahDayBound | create_optimized_schedule.py:248-267 | a mitzvah within the first days' slots falls on one of those days |
| OptimizedSchedule.DayHolds | create_optimized_schedule.py:248-267 | two mitzvot share a day only before day 278, and then as consecutive entries |
| OptimizedSchedule.FullCorpusFits | create_optimized_schedule.py:149-279 | with 14 introductions, 248 positives and 365 negatives the schedule has 14 + 613 + 1 rows, the conclusion falls on 2026-10-04, the first mitzvah row is Positive 1 and the 249th is Negative 1 |
| ReorderSchedule.Classify | reorder_schedule_with_conclusion.py:40-49 | the checks run in the order Intro, Positive, Negative, Conclusion: Intro exactly when "Intro" occurs, Positive exactly when "Positive" occurs without "Intro", Negative exactly when "Negative" occurs without either, Conclusion exactly when "Conclusion" occurs without the other three, no bucket exactly when none of the four words occurs |
| ReorderSchedule.SelectMembers | reorder_schedule_with_conclusion.py:40-47 | a bucket holds only input rows, and only rows of that class |
| ReorderSchedule.LastConclusion | reorder_schedule_with_conclusion.py:48-49 | the kept conclusion is an input conclusion row, and there is none exactly when no row is a conclusion |
| ReorderSchedule.DoubleDays | reorder_schedule_with_conclusion.py:84-86 | the number of double days is total − 350 when 350 ≤ total ≤ 700, none when total ≤ 350, and never more than the 350 days |
| ReorderSchedule.Redistributed | reorder_schedule_with_conclusion.py:93-112 | the redistribution keeps the number of rows |
| ReorderSchedule.ReorderSchedule | reorder_schedule_with_conclusion.py:34-112 | the result is the buckets in the order intros, positives, conclusion (with the better summary) if found, negatives, then redistributed |
| ReorderSchedule.Partition | reorder_schedule_with_conclusion.py:35-49 | the bucket loop yields exactly the three buckets and the last conclusion row |
| ReorderSchedule.Redistribute | reorder_schedule_with_conclusion.py:90-112 | the day loop rewrites the rows in place into exactly the redistributed rows |
| ReorderSchedule.FillDay | reorder_schedule_with_conclusion.py:103-109 | one day's rows get that day and their position + 1 as Sequential_Number; later rows are untouched |
| ReorderSchedule.SelectSnoc | reorder_schedule_with_conclusion.py:40-49 | a further row extends its own bucket and no other, and becomes the conclusion when it is one |
| ReorderSchedule.BucketsPartition | reorder_schedule_with_conclusion.py:40-49 | every row lands in exactly one bucket: the bucket sizes add up to the number of rows |
| ReorderSchedule.BucketsPermutation | reorder_schedule_with_conclusion.py:40-49 | the buckets together hold exactly the input rows, each as often as it occurs |
| ReorderSchedule.ReorderedSize | reorder_schedule_with_conclusion.py:62-71 | the new order holds every intro, positive and negative row once and at most one conclusion, and nothing else |
| ReorderSchedule.RedistributedFields | reorder_schedule_with_conclusion.py:103-109 | only Date and Sequential_Number change, and each placed row is numbered with its position + 1 |
| ReorderSchedule.DayLoad | reorder_schedule_with_conclusion.py:96-104 | two rows share a day only when they are adjacent and the day is one of the first total − 350 days |
| ReorderSchedule.RedistributedDates | reorder_schedule_with_conclusion.py:93-111 | dates of placed rows never decrease along the new order and fall between 2025-10-20 and 2026-10-04 |
| ReorderSchedule.FullCorpusPlaced | reorder_schedule_with_conclusion.py:81-112 | with the 628 rows of the corpus, 278 days take two rows, every row gets a date, and the last one is 2026-10-04 |
| PerfectSchedule.StripTags | create_perfect_schedule.py:20 | removing tags never lengthens the text |
| PerfectSchedule.StripTagsRemovesTags | create_perfect_schedule.py:20 | tag removal keeps only characters of the input, keeps a first character that is not '<', and leaves no `<[^>]+>` match behind |
| PerfectSchedule.Split | create_perfect_schedule.py:69 | `split('.')` gives at least one piece and no piece holds a '.' |
| PerfectSchedule.SplitJoin | create_perfect_schedule.py:69 | joining the pieces of `split(c)` with `c` gives back the text |
| PerfectSchedule.Cleaned | create_perfect_schedule.py:15-21 | the text after tag removal and `strip` is no longer than the entry's text (a list's first element, or "" for an empty list) |
| PerfectSchedule.PositiveKeywords | create_perfect_schedule.py:26-51 | a keyword hit is a non-empty summary of at most 73 characters |
| PerfectSchedule.NegativeKeywords | create_perfect_schedule.py:55-66 | a keyword hit is a non-empty summary of at most 73 characters |
| PerfectSchedule.KeywordSummary | create_perfect_schedule.py:24-66 | a keyword summary, when there is one, is non-empty and at most 73 characters |
| PerfectSchedule.ProhibitionFormula | create_perfect_schedule.py:53 | a text without "prohibited us" also lacks "That He prohibited us", so the second test of the `or` never decides |
| PerfectSchedule.Shorten | create_perfect_schedule.py:73 | a sentence of at most 70 characters is kept as is; a longer one becomes its first 70 characters plus "..." |
| PerfectSchedule.FirstSentence | create_perfect_schedule.py:69-73 | a fallback result is the shortened strip of some sentence longer than ten characters not starting with "That is", and is 10 to 73 characters long |
| PerfectSchedule.FirstSentenceNone | create_perfect_schedule.py:70-75 | the fallback finds nothing exactly when no sentence qualifies |
| PerfectSchedule.FirstSentenceIsFirst | create_perfect_schedule.py:70-73 | the fallback takes the first qualifying sentence |
| PerfectSchedule.CleanText | create_perfect_schedule.py:13-75 | every summary is non-empty and at most 73 characters |
| PerfectSchedule.FallbackSummary | create_perfect_schedule.py:24-75 | whenever the keyword step gives nothing (neither formula occurs, or the cascade of the one that does finds no keyword), the summary is the first qualifying sentence, shortened |
| PerfectSchedule.IntroRows | create_perfect_schedule.py:116-124 | one row per introduction title: 14 rows |
| PerfectSchedule.PositiveRows | create_perfect_schedule.py:134-161 | the positive phase places min(p, 250) rows |
| PerfectSchedule.NegativeRows | create_perfect_schedule.py:174-204 | the negative phase places as many rows as the catch-up rule allows |
| PerfectSchedule.PositivePhase | create_perfect_schedule.py:131-161 | the loop builds exactly the positive rows, and the date advances by the days it used |
| PerfectSchedule.NegativePhase | create_perfect_schedule.py:173-204 | the loop with the catch-up test builds exactly the negative rows |
| PerfectSchedule.IntroPhase | create_perfect_schedule.py:116-124 | the introduction loop gives one row per title on consecutive days from the start date, numbered from 1, and leaves the date the day after the last |
| PerfectSchedule.ScheduleWith | create_perfect_schedule.py:77-217 | for any summariser, the four phases build exactly the allocation with one day held back before the conclusion |
| PerfectSchedule.PerfectScheduleAsWritten | create_perfect_schedule.py:77-217 | reference definition of the schedule as written: the negatives get `days_until_end - 1` days |
| PerfectSchedule.PerfectScheduleCorrected | create_perfect_schedule.py:77-217 | reference definition of the corrected schedule: the negatives get every day up to the conclusion |
| PerfectSchedule.CreatePerfectSchedule | create_perfect_schedule.py:77-217 | the four phases build exactly the schedule as the script defines it, with the negative phase given `(end_date - current_date).days - 1` days |
| PerfectSchedule.ScheduleNumbered | create_perfect_schedule.py:119 | every row's Sequential_Number is its position + 1 |
| PerfectSchedule.NegativeDayLoad | create_perfect_schedule.py:190-202 | two negatives share a day only when they are adjacent and the day is one of the catch-up days |
| PerfectSchedule.NegativesAllPlaced | create_perfect_schedule.py:174-202 | the catch-up rule places every negative exactly when there are at most 2 · days − 1 of them |
| PerfectSchedule.NegativeWithinDays | create_perfect_schedule.py:174-204 | every placed negative falls within the days of its phase |
| PerfectSchedule.AsWrittenSkipsDayBeforeEnd | create_perfect_schedule.py:168-169 | with 248 positives and 365 negatives the script's schedule has 628 rows, but no row on 2026-10-03, the day before the conclusion |
| PerfectSchedule.CorrectedCoversEveryDay | create_perfect_schedule.py:168-169 | with the negatives given every day up to the conclusion, the schedule has 628 rows and every day from 2025-10-20 to 2026-10-04 has a row |
| SourceCorrections.FirstIndex | scripts/apply_source_corrections.py:61-66 | the index of the first entry with the number, and none exactly when no entry has it |
| SourceCorrections.SourceCorrector.constructor | scripts/apply_source_corrections.py:29-33 | both logs start empty |
| SourceCorrections.SourceCorrector.FindEntryBySequentialNumber | scripts/apply_source_corrections.py:61-66 | the scan returns the first entry with the number |
| SourceCorrections.SourceCorrector.ApplyCorrection | scripts/apply_source_corrections.py:77-116 | one correction: a missing entry or a source mismatch adds a skip message, otherwise the entry is patched and an applied record added; it reports applied exactly when the applied log grew |
| SourceCorrections.SourceCorrector.ApplyEach | scripts/apply_source_corrections.py:76-116 | the loop over a correction table changes the rows and the two logs exactly as applying the corrections in order does, and returns the number of new applied records |
| SourceCorrections.SourceCorrector.ApplySourceCorrections | scripts/apply_source_corrections.py:68-119 | the loop applies the table's corrections in order to the rows in place, and counts exactly the new applied records |
| SourceCorrections.FirstIndexPrefix | scripts/apply_source_corrections.py:63-65 | a scan that reaches a match with none before it returns that match |
| SourceCorrections.FirstIndexUnique | scripts/apply_source_corrections.py:63-65 | the first entry with the number is the one found |
| SourceCorrections.FirstIndexSameNumbers | scripts/apply_source_corrections.py:61-66 | the lookup depends only on the entries' numbers |
| SourceCorrections.Step | scripts/apply_source_corrections.py:77-116 | reference definition of one correction: find the first entry with the number, patch it when its stripped source is the expected one, log the outcome |
| SourceCorrections.ApplyAll | scripts/apply_source_corrections.py:76-116 | reference definition of the pass: the corrections applied in table order |
| SourceCorrections.StepEffect | scripts/apply_source_corrections.py:77-116 | one correction is logged exactly once; only the first entry with its number can change, and only when its stripped source is the expected old one; numbers and type labels never change; it is applied exactly when that entry exists and its source matches |
| SourceCorrections.ApplyAllLogs | scripts/apply_source_corrections.py:76-116 | each correction of the table is logged once, as applied or skipped, and the logs only grow |
| SourceCorrections.ApplyAllUntouched | scripts/apply_source_corrections.py:76-116 | an entry whose number is in no correction keeps every field, and no entry's number or type label changes |
| SourceCorrections.StepKeepsSettled | scripts/apply_source_corrections.py:77-90 | patching one number leaves a correction for another number as settled as it was |
| SourceCorrections.ApplyAllSettles | scripts/apply_source_corrections.py:76-116 | after a pass over a table with distinct keys and changed sources, no correction would fire again |
| SourceCorrections.ApplySettledChangesNothing | scripts/apply_source_corrections.py:76-116 | a pass over settled corrections changes no entry |
| SourceCorrections.CorrectionsWellFormed | scripts/apply_source_corrections.py:14-26 | the table's keys are distinct and each correct source differs from the expected old one |
| SourceCorrections.CorrectionKeysDistinct | scripts/apply_source_corrections.py:14-26 | no two corrections share a sequential number |
| SourceCorrections.SecondRunChangesNothing | scripts/apply_source_corrections.py:76-116 | running the corrections a second time changes no entry |
| SourceCorrections.OutputRow | scripts/apply_source_corrections.py:139 | the written row keeps exactly the fields whose names do not start with '_', with their values |
| SourceCorrections.OutputRowDropsTracking | scripts/apply_source_corrections.py:139 | the `_row_number` field never reaches the file, and filtering twice is filtering once |
| FinalCorrections.FinalRow | scripts/apply_final_corrections.py:110-128 | only the source can change; a row whose label is in the table with the wrong source gets the correct one; with a well-formed table a row changes exactly when the guard holds, and the guard fails afterwards |
| FinalCorrections.CountCorrected | scripts/apply_final_corrections.py:124 | no more corrections than rows |
| FinalCorrections.CorrectRow | scripts/apply_final_corrections.py:110-128 | the loop body gives the corrected row and reports a correction exactly when the guard holds |
| FinalCorrections.CorrectRows | scripts/apply_final_corrections.py:102-128 | the loop keeps every row in order, corrects each, and counts the corrections |
| FinalCorrections.ApplyFinalCorrections | scripts/apply_final_corrections.py:102-145 | the table's loop as above, and success exactly when the count equals the size of the table |
| FinalCorrections.CorrectSourcesDiffer | scripts/apply_final_corrections.py:12-83 | every correct source differs from the wrong one it replaces, even after `strip` |
| FinalCorrections.CountZero | scripts/apply_final_corrections.py:113-124 | rows that no guard matches give a count of zero |
| FinalCorrections.SecondRunIsNoOp | scripts/apply_final_corrections.py:102-145 | running the script again changes no row and applies nothing, so it reports failure |
| VerifySources.LabelAt | scripts/verify_all_sources.py:40 | a match of `(Positive\|Negative)\s+(\d+)` can only start at a 'P' or an 'N' |
| VerifySources.LabelRoundTrip | scripts/verify_all_sources.py:40-49 | the labels the schedule writes, "Positive n" and "Negative n", are found again with their kind and number |
| VerifySources.NoInitialNoLabel | scripts/verify_all_sources.py:40-41 | a text with no 'P' or 'N' holds no type label |
| VerifySources.IntroLabelIgnored | scripts/verify_all_sources.py:40-41 | introduction and conclusion rows carry no type label, so they are not loaded |
| VerifySources.FromMasterNumber | scripts/verify_all_sources.py:45-49 | every master number from 1 to 613 is the translation of a corpus label |
| VerifySources.MasterNumberBijective | scripts/verify_all_sources.py:45-49 | Positive 1-248 and Negative 1-365 translate one-to-one onto 1-613, and the inverse recovers the label |
| VerifySources.Insert | scripts/verify_all_sources.py:51-56 | a dictionary store maps the key to the new value and keeps the key order valid; a new key goes last and an existing key keeps its place, as in a Python dict |
| VerifySources.LoadSchedule | scripts/verify_all_sources.py:30-59 | the loaded dictionary's key order lists each key once |
| VerifySources.LoadScheduleSources | scripts/verify_all_sources.py:30-59 | the row loop builds exactly the specified dictionary |
| VerifySources.LoadScheduleKeys | scripts/verify_all_sources.py:37-56 | a master number is a key exactly when some row's label translates to it |
| VerifySources.LoadScheduleLastWins | scripts/verify_all_sources.py:51-56 | the value under a master number comes from the last row keyed under it |
| VerifySources.InsertSorted | scripts/verify_all_sources.py:75 | placing a new number into an ascending list keeps it ascending and adds exactly that number |
| VerifySources.SortedKeys | scripts/verify_all_sources.py:75 | `sorted(keys())` is ascending and holds exactly the dictionary's keys |
| VerifySources.Classify | scripts/verify_all_sources.py:75-96 | every master number visited lands in exactly one of the three lists |
| VerifySources.ClassifyMatch | scripts/verify_all_sources.py:79-82 | a number with equal references extends the matches and keeps the classification |
| VerifySources.ClassifyMismatch | scripts/verify_all_sources.py:83-90 | a number with differing references extends the mismatches with its record and keeps the classification |
| VerifySources.ClassifyMissing | scripts/verify_all_sources.py:91-96 | a number absent from the schedule extends the missing list with its record and keeps the classification |
| VerifySources.ClassifySorted | scripts/verify_all_sources.py:75-96 | taking the numbers in ascending order classifies each exactly once, each list ascending |
| VerifySources.ClassifyKeys | scripts/verify_all_sources.py:75-96 | the loop over the sorted master numbers builds exactly the match, mismatch and missing lists |
| VerifySources.CollectExtra | scripts/verify_all_sources.py:99-105 | the loop over the schedule's numbers builds exactly the extras: the numbers absent from the master list, in schedule order |
| VerifySources.CompareSources | scripts/verify_all_sources.py:61-156 | the lists hold exactly the master numbers of their kind with their records, the extras are exactly the specified ones, and the result is true exactly when there are no mismatches, no missing and no extra numbers |
| VerifySources.ExtraOfExactly | scripts/verify_all_sources.py:99-105 | the extras are exactly the schedule's numbers absent from the master list, each with its schedule record |
| VerifySources.ClassifiedPartition | scripts/verify_all_sources.py:75-96 | a number is in one of the three lists exactly when it is a master number, and in no more than one |
| VerifySources.PassesIffAgree | scripts/verify_all_sources.py:151-156 | the verification passes exactly when the schedule has the same numbers as the master list and every reference agrees |
| MasterList.FirstSep | scripts/convert_to_csv.py:39-41 | the lazy `(.+?)` stops at the first separator with at least one character after it, and none exactly when there is no such separator |
| MasterList.Backtrack | scripts/convert_to_csv.py:39-41 | when the greedy `\s*` gives back characters, the mitzvah group still starts before the separator it ends at |
| MasterList.MatchPattern | scripts/convert_to_csv.py:46-50 | a match needs a line that opens with digits and '.', and its number is the value of those digits |
| MasterList.FirstMatch | scripts/convert_to_csv.py:45-54 | the first pattern that matches decides, and nothing is found exactly when none matches |
| MasterList.MatchPatterns | scripts/convert_to_csv.py:44-54 | the pattern loop with its `break` finds exactly the first match |
| MasterList.SplitLines | scripts/convert_to_csv.py:13 | `split('\n')` gives at least one line and no line holds a newline |
| MasterList.ContinuationEnd | scripts/convert_to_csv.py:27-35 | the inner loop stops at the first blank or numbered line, and every line before it continues the entry |
| MasterList.Joined | scripts/convert_to_csv.py:24-34 | the joined entry starts with the numbered line |
| MasterList.JoinedIsJoin | scripts/convert_to_csv.py:24-34 | continuation lines are joined to the numbered line with single spaces: the entry is `" ".join` of the stripped lines |
| MasterList.JoinEntry | scripts/convert_to_csv.py:24-35 | the inner loop builds exactly the joined entry and stops where the next entry or blank line begins |
| MasterList.NextEntry | scripts/convert_to_csv.py:23-60 | one numbered line yields at most one row and the loop resumes after its continuation lines |
| MasterList.ParseLines | scripts/convert_to_csv.py:15-62 | the outer loop builds exactly the specified rows |
| MasterList.ParseMitzvotFile | scripts/convert_to_csv.py:4-75 | the rows written are the parsed content and the count returned is their number |
| MasterList.NumberedCount | scripts/convert_to_csv.py:23 | there are no more numbered lines than lines |
| MasterList.NumberedCountSkips | scripts/convert_to_csv.py:31-35 | continuation lines add no numbered line |
| MasterList.RowsAtMostNumbered | scripts/convert_to_csv.py:15-62 | there are never more rows than numbered lines |
| MasterList.RowsExactlyNumbered | scripts/convert_to_csv.py:15-62 | when every entry matches some pattern there is exactly one row per numbered line |
| MasterList.DigitEndAppend | scripts/convert_to_csv.py:24-34 | appending continuation text does not change where the leading number ends |
| MasterList.RowNumbersFromLines | scripts/convert_to_csv.py:23-52 | every row's number is the number that opens some numbered line |
| MasterList.NoDashNoRow | scripts/convert_to_csv.py:56-57 | an entry with no dash of any kind is skipped |
| MasterList.NoSeparator | scripts/convert_to_csv.py:39-41 | without a dash no separator is found |
| MasterList.NoBacktrack | scripts/convert_to_csv.py:39-41 | without a dash no way of matching `\s*` helps |
| MasterList.EmDashRoundTrip | scripts/convert_to_csv.py:39-52 | an entry written "n. mitzvah—reference", with no em dash inside the mitzvah, parses back to n, the stripped mitzvah and the stripped reference |
| MasterList.EntryLayout | scripts/convert_to_csv.py:39 | where the number, the mitzvah, the em dash and the reference sit in such an entry |
| MasterList.EmDashParts | scripts/convert_to_csv.py:39-52 | an entry laid out as digits, ". ", mitzvah, '—' and reference parses to those parts |
| MasterList.FirstSepIs | scripts/convert_to_csv.py:39-41 | the lazy group stops at a separator with none before it |
| MasterList.MatchFromParts | scripts/convert_to_csv.py:46-50 | the row is built from the digits, the stripped mitzvah group and the stripped reference group |
| MasterList.DigitEndFrom | scripts/convert_to_csv.py:39 | the `(\d+)` group ends at the first non-digit |
| LambdaConvert.StrLessIrreflexive | archive/convert_schedule_for_lambda.py:33 | no date string sorts before itself |
| LambdaConvert.StrLessTransitive | archive/convert_schedule_for_lambda.py:33 | the string order used by `sorted` is transitive |
| LambdaConvert.StrLessTotal | archive/convert_schedule_for_lambda.py:33 | any two different strings are ordered one way or the other |
| LambdaConvert.InsertSorted | archive/convert_schedule_for_lambda.py:33 | placing a new date into a strictly sorted list keeps it strictly sorted and adds exactly that date |
| LambdaConvert.SortedOf | archive/convert_schedule_for_lambda.py:33 | `sorted` of distinct dates is strictly ascending and holds exactly those dates |
| LambdaConvert.Append | archive/convert_schedule_for_lambda.py:21-26 | appending under a date keeps the grouping well formed |
| LambdaConvert.GroupRows | archive/convert_schedule_for_lambda.py:18-26 | the grouping lists each date once and has a list for each |
| LambdaConvert.GroupByDate | archive/convert_schedule_for_lambda.py:18-26 | the row loop builds exactly the specified grouping |
| LambdaConvert.EntriesOn | archive/convert_schedule_for_lambda.py:21-26 | a date has no more entries than there are rows |
| LambdaConvert.GroupingKeepsOrder | archive/convert_schedule_for_lambda.py:18-26 | the grouping has exactly the dates that occur, and under each date the entries of its rows in file order |
| LambdaConvert.TotalUpdate | archive/convert_schedule_for_lambda.py:21 | replacing one date's list changes the total by the difference in length |
| LambdaConvert.TotalUnchanged | archive/convert_schedule_for_lambda.py:21 | a list under a date not yet listed does not count in the total |
| LambdaConvert.GroupingConservesRows | archive/convert_schedule_for_lambda.py:18-26 | every row lands in exactly one group: the groups hold as many entries as there are rows |
| LambdaConvert.SourceLabel | archive/convert_schedule_for_lambda.py:46-55 | every link gets one of the five source labels |
| LambdaConvert.IntroLinkLabel | archive/convert_schedule_for_lambda.py:46-47 | an introduction link is labelled "Sefer HaMitzvos Introduction" |
| LambdaConvert.DayOf | archive/convert_schedule_for_lambda.py:58-64 | the day keeps its date; its mitzvos are its entries' type numbers joined with ", " and its titles their summaries joined with " & ", in row order; its sources are exactly the labels of its entries' links; the link is a single string exactly when the day has one row, and otherwise the list of links in order; a one-row day carries that row's label, title, source and link |
| LambdaConvert.ConsolidateDay | archive/convert_schedule_for_lambda.py:35-64 | the inner loop builds exactly the day's entry |
| LambdaConvert.ConsolidateDays | archive/convert_schedule_for_lambda.py:33-66 | one day entry per date, in the order given |
| LambdaConvert.ConvertCsvToEmbeddedFormat | archive/convert_schedule_for_lambda.py:9-68 | the converter returns exactly the specified entries: grouped, then one per date in ascending order |
| LambdaConvert.EmbeddedDates | archive/convert_schedule_for_lambda.py:33-66 | the daily entries are in strictly ascending date order, one for each date that occurs in the rows |
| LambdaConvert.DaysKeepDates | archive/convert_schedule_for_lambda.py:33-66 | the day entries carry the dates in the order they are visited |
| LambdaConvert.GroupDates | archive/convert_schedule_for_lambda.py:21 | the grouping's keys are exactly the rows' dates |
| LambdaConvert.EmbeddedDay | archive/convert_schedule_for_lambda.py:33-64 | each daily entry is built from its date's rows in file order |
| LambdaConvert.TruncateTitle | archive/convert_schedule_for_lambda.py:88-90 | a title of at most 200 characters is kept; a longer one becomes its first 200 characters and "..." |
| Consent.StripChannelPrefix | bots/consent_handler.py:25-31 | an empty number is returned as is; otherwise the result is the number or the number with one of "whatsapp:", "tel:" or "sms:" removed from its front |
| Consent.StripChannelPrefixRemoves | bots/consent_handler.py:28-30 | each channel prefix is removed from a number that carries it |
| Consent.StripChannelPrefixOnce | bots/consent_handler.py:28-30 | only the first matching prefix is removed: "whatsapp:tel:1" becomes "tel:1" |
| Consent.EscapeText | bots/consent_handler.py:57 | the escaped text holds no '<' and no '>' |
| Consent.Twiml | bots/consent_handler.py:55-58 | the reply is the escaped message inside `<Response><Message>` and `</Message></Response>` |
| Consent.ReplaceCharCons | bots/consent_handler.py:57 | replacing one character works character by character from the front |
| Consent.ReplaceCharAppend | bots/consent_handler.py:57 | replacing one character distributes over concatenation |
| Consent.EscapeIsPerChar | bots/consent_handler.py:57 | the three chained replacements escape each character on its own: an '&' an earlier replacement introduced is never escaped again |
| Consent.EscapeAppend | bots/consent_handler.py:57 | escaping distributes over concatenation |
| Consent.EscapeOneChar | bots/consent_handler.py:57 | a one-character message escapes to that character's entity or to itself |
| Consent.CharAbsent | bots/consent_handler.py:57 | replacing a character that does not occur changes nothing |
| Consent.UnescapeEscape | bots/consent_handler.py:57 | escaping loses nothing: reading the entities back gives the message |
| Consent.UnescapeOne | bots/consent_handler.py:57 | one escaped character in front of any text is read back as that character |
| Consent.UnescapeAmp | bots/consent_handler.py:57 | "&amp;" in front of any text is read back as '&' |
| Consent.UnescapeAngle | bots/consent_handler.py:57 | "&lt;" and "&gt;" in front of any text are read back as '<' and '>' |
| Consent.TwimlSafe | bots/consent_handler.py:55-58 | the reply carries the message as one text node: no '<' or '>' of the message survives and the text reads back as the message |
| Consent.HasWordIff | bots/consent_handler.py:152-155 | `_has_word` holds exactly when the word stands between breaks (space or newline) or the ends of the text; the `startswith` and `endswith` tests add nothing |
| Consent.ReplaceNewlines | bots/consent_handler.py:153 | replacing newlines by spaces keeps the length and every other character in place |
| Consent.WindowIff | bots/consent_handler.py:153-155 | the padded text shows " word " at a position exactly when the word stands there between breaks |
| Consent.ParseMessage | bots/consent_handler.py:119-122 | the sender is the "From" field without its channel prefix and the text is the stripped "Body" field |
| Consent.Decide | bots/consent_handler.py:124-175 | whatever the branch, a write goes to the sender's number with source "whatsapp_keyword" |
| Consent.TwilioOutcome | bots/consent_handler.py:118-175 | a write is always to the sender's number, without its channel prefix, from source "whatsapp_keyword" |
| Consent.StatusNeverWrites | bots/consent_handler.py:130-138 | a status inquiry never writes |
| Consent.StopWordNotStatus | bots/consent_handler.py:130-140 | STOP, UNSUBSCRIBE and CANCEL are not status inquiries, so they reach the opt-out branch |
| Consent.StopOptsOut | bots/consent_handler.py:140-149 | an opt-out word leaves the sender opted out, with a write exactly when they were not already opted out |
| Consent.JoinOptsIn | bots/consent_handler.py:157-172 | a join message leaves the sender opted in, with a write exactly when they were not already opted in |
| Consent.OtherTextGuidance | bots/consent_handler.py:174-175 | any other text gets the guidance reply and writes nothing |
| Consent.TwilioTouchesOnlySender | bots/consent_handler.py:118-175 | no record other than the sender's changes |
| Consent.TwilioIdempotent | bots/consent_handler.py:125-172 | delivering the same message again writes nothing: the repeat only confirms |
| Consent.WebOutcome | bots/consent_handler.py:178-194 | a write is always to a non-empty phone number, without its channel prefix |
| Consent.WebMissingPhone | bots/consent_handler.py:183-184 | a web opt-in without a phone number gets 400 "Missing phone" and writes nothing |
| Consent.WebStatus | bots/consent_handler.py:186-193 | with a phone number the form always writes; an opt-out action gives opted_out, and otherwise the status is opted_in exactly when the consent is truthy or the action is "optin" |
| Consent.SubscriberStore.constructor | bots/consent_handler.py:34-41 | the store starts with the given table |
| Consent.SubscriberStore.Upsert | bots/consent_handler.py:92-105 | the record under the phone number is replaced by one with the new status, source and evidence; no other record changes |
| Consent.SubscriberStore.Respond | bots/consent_handler.py:124-175 | for a parsed message and its branch, the reply and the table change are exactly the handler's decision |
| Consent.SubscriberStore.HandleTwilioInbound | bots/consent_handler.py:118-175 | the response is a 200 TwiML reply, and the table changes by exactly the write the message calls for |
| Consent.SubscriberStore.HandleWebOptin | bots/consent_handler.py:178-194 | the JSON response and the table change are exactly those the web form calls for |
| Consent.SubscriberStore.HandlePost | bots/consent_handler.py:210-214 | a form with a sender and a body goes to the Twilio handler, anything else to the web opt-in |
| BiblicalRefs.TailAt | scripts/web_verify_biblical_sources.py:80-85 | after the book, `\.?\s+(\d+):(\d+)` yields two non-empty digit groups and ends past where it started |
| BiblicalRefs.AltMatch | scripts/web_verify_biblical_sources.py:80-85 | a match at a position keeps the book as written in the text, equal to one of the alternatives up to case, with two digit groups |
| BiblicalRefs.FindAll | scripts/web_verify_biblical_sources.py:89 | every `findall` match has a book equal to one of the pattern's alternatives up to case, and digit groups for chapter and verse |
| BiblicalRefs.References | scripts/web_verify_biblical_sources.py:91-109 | one reference per match, in match order |
| BiblicalRefs.Dedup | scripts/web_verify_biblical_sources.py:110-111 | the kept list holds exactly the values of the input, and is no longer |
| BiblicalRefs.DedupSnoc | scripts/web_verify_biblical_sources.py:110-111 | a further reference is appended exactly when it is not already kept |
| BiblicalRefs.FirstIndex | scripts/web_verify_biblical_sources.py:110 | the index of a value's first occurrence |
| BiblicalRefs.FirstIndexPrefix | scripts/web_verify_biblical_sources.py:110 | appending values does not move a first occurrence |
| BiblicalRefs.DedupFirstOccurrences | scripts/web_verify_biblical_sources.py:110-111 | the result has no duplicates and keeps its values in the order of their first occurrences |
| BiblicalRefs.ReferencesSnoc | scripts/web_verify_biblical_sources.py:91-109 | one more match adds its reference at the end |
| BiblicalRefs.AllReferencesSnoc | scripts/web_verify_biblical_sources.py:88-91 | one more pattern adds its matches' references at the end |
| BiblicalRefs.AddReferences | scripts/web_verify_biblical_sources.py:91-111 | the inner loop keeps the deduplicated list of everything seen so far |
| BiblicalRefs.CollectReferences | scripts/web_verify_biblical_sources.py:88-111 | the two loops give the references of all patterns' matches, each at its first occurrence |
| BiblicalRefs.Extract | scripts/web_verify_biblical_sources.py:72-113 | reference definition: the references of all five patterns' matches, in pattern order, each kept at its first occurrence |
| BiblicalRefs.ExtractBiblicalReferences | scripts/web_verify_biblical_sources.py:72-113 | the method returns exactly the deduplicated references of the five patterns |
| BiblicalRefs.NormalizeBook | scripts/web_verify_biblical_sources.py:95-105 | reference definition of the book-name map: the lower-cased name looked up in the five spelling lists, any other name kept as matched |
| BiblicalRefs.EnglishNormalized | scripts/web_verify_biblical_sources.py:95-105 | an English book name, in any case, is normalised to a Hebrew book name |
| BiblicalRefs.AbbreviationNormalized | scripts/web_verify_biblical_sources.py:95-105 | an English abbreviation, in any case, is normalised to a Hebrew book name |
| BiblicalRefs.HebrewAbbreviationNormalized | scripts/web_verify_biblical_sources.py:95-105 | a Hebrew abbreviation, in any case, is normalised to a Hebrew book name |
| BiblicalRefs.EnglishAndAbbreviationsNormalized | scripts/web_verify_biblical_sources.py:81-105 | every match of the English and the two abbreviation patterns is normalised to a Hebrew book name |
| BiblicalRefs.AllReferencesFrom | scripts/web_verify_biblical_sources.py:88-109 | every reference produced is the reference of some match of some pattern |
| BiblicalRefs.ReferencesFromMatches | scripts/web_verify_biblical_sources.py:88-111 | every extracted reference is "{book} {chapter}:{verse}" for some match of some pattern |
| BiblicalRefs.NoColonNoAlt | scripts/web_verify_biblical_sources.py:80-85 | without a ':' no alternative matches |
| BiblicalRefs.NoColonNoMatches | scripts/web_verify_biblical_sources.py:89 | without a ':' `findall` finds nothing |
| BiblicalRefs.NoMatchesNoReferences | scripts/web_verify_biblical_sources.py:88-111 | when no pattern matches there is no reference |
| BiblicalRefs.NoColonNoReferences | scripts/web_verify_biblical_sources.py:72-113 | a text without ':' yields no reference |
| BiblicalRefs.ShemosTail | scripts/web_verify_biblical_sources.py:80 | in "Shemos 12:2" the tail after the book gives chapter 12 and verse 2 |
| BiblicalRefs.ShemosAlternative | scripts/web_verify_biblical_sources.py:80 | the first pattern matches "Shemos 12:2" as book "Shemos", chapter 12, verse 2 |
| BiblicalRefs.ShemosKept | scripts/web_verify_biblical_sources.py:106-107 | a Hebrew name is kept as matched |
| BiblicalRefs.FindsShemos | scripts/web_verify_biblical_sources.py:88-109 | "Shemos 12:2" is found by the first pattern and becomes the reference "Shemos 12:2" |
| Normalize.SourceAsWritten | normalize_to_hebrew_sources.py:56-59 | reference definition of the source column as the loop is written: the last name found in the original column decides, and only that name is replaced in the original |
| Normalize.RewriteSource | normalize_to_hebrew_sources.py:56-59 | the source loop as written, each found name replacing the column by the original with that name replaced, gives exactly SourceAsWritten |
| Normalize.AsWrittenOneName | normalize_to_hebrew_sources.py:56-59 | as written, the column is the original, or the original with one name that occurs in it replaced; with no name in it, it is the original |
| Normalize.SourceChained | normalize_to_hebrew_sources.py:56-59 | reference definition of the corrected column: each replacement applied to the result of the previous ones |
| Normalize.RewriteSourceChained | normalize_to_hebrew_sources.py:56-59 | the corrected source loop, each replacement applied to the column as it now stands, gives exactly SourceChained |
| Normalize.AsWrittenLastFound | normalize_to_hebrew_sources.py:56-59 | as written, the column becomes the original with only the last table name found in it replaced |
| Normalize.AsWrittenKeepsGenesis | normalize_to_hebrew_sources.py:56-59 | as written, "Genesis 1:28; Exodus 12:2" still contains "Genesis" afterwards |
| Normalize.RowKeepsGenesis | normalize_to_hebrew_sources.py:46-59 | in the rewritten rows, a data row citing "Genesis 1:28; Exodus 12:2" still has "Genesis" in its source column |
| Normalize.KeepsGenesis | normalize_to_hebrew_sources.py:56-59 | the same, for the example and the table passed as parameters |
| Normalize.ExampleNames | normalize_to_hebrew_sources.py:57-58 | of the table's names the example contains "Exodus" and none of the three after it |
| Normalize.AbsentFromExample | normalize_to_hebrew_sources.py:58 | "Leviticus", "Numbers" and "Deuteronomy" do not occur in the example |
| Normalize.ExodusInExample | normalize_to_hebrew_sources.py:58 | "Exodus" occurs in the example |
| Normalize.GenesisKept | normalize_to_hebrew_sources.py:59 | replacing "Exodus" in the example leaves "Genesis" in place |
| Normalize.EnglishToHebrewWellFormed | normalize_to_hebrew_sources.py:18-24 | the table's names are capitalised words, and no English name is a prefix of a Hebrew one or the reverse |
| Normalize.TableWellFormed | normalize_to_hebrew_sources.py:18-24 | the same, for the table passed as a parameter |
| Normalize.LowerRunKept | normalize_to_hebrew_sources.py:59 | a run of lower-case letters at the start of a replaced text was there before, since each inserted name starts with a capital |
| Normalize.ContainsAfterWord | normalize_to_hebrew_sources.py:59 | an English name found in an inserted Hebrew name and the text after it lies in that text |
| Normalize.ReplaceCreatesNone | normalize_to_hebrew_sources.py:59 | replacing a name by a Hebrew name creates no occurrence of an English name, and leaves none of the replaced name |
| Normalize.ChainedRemovesAll | normalize_to_hebrew_sources.py:57-59 | with the replacements chained over a well-formed table, no English name of the table is left |
| Normalize.SourceHasNoEnglishName | normalize_to_hebrew_sources.py:57-59 | the corrected source column holds none of the five English names |
| Normalize.ChainedKeepsOtherText | normalize_to_hebrew_sources.py:57-59 | a source column holding no English name is kept as it is |
| Normalize.ReplaceCIIgnoresCase | normalize_to_hebrew_sources.py:65-66 | texts equal up to case are rewritten to texts equal up to case by the IGNORECASE substitution |
| Normalize.SummaryIgnoresCase | normalize_to_hebrew_sources.py:62-66 | the whole case-insensitive summary pass, likewise |
| Normalize.UpperCaseNameReplaced | normalize_to_hebrew_sources.py:65-66 | a name in any case is replaced: "GENESIS" becomes "Bereishis" |
| Normalize.SummaryCI | normalize_to_hebrew_sources.py:62-66 | reference definition of the first summary loop: the IGNORECASE substitution of each name in table order, each applied to the previous result |
| Normalize.PrefixCompatible | normalize_to_hebrew_sources.py:65-66 | a text at the start of `x + y` is a prefix of `x` or has `x` as a prefix |
| Normalize.LowerPrefixKept | normalize_to_hebrew_sources.py:65-66 | lower-cased text at the start of a pass's output, none of whose suffixes is compatible with the replacement, was at the start of the input |
| Normalize.ContainsAfterApart | normalize_to_hebrew_sources.py:65-66 | an occurrence of a name after an inserted replacement with which it is nowhere compatible lies in the text after it |
| Normalize.MatchFromTail | normalize_to_hebrew_sources.py:65-66 | a name at the start of a pass's output whose first letter was kept was a match at the start of the input |
| Normalize.PassRemovesName | normalize_to_hebrew_sources.py:65-66 | one IGNORECASE substitution leaves no occurrence of its name in any case, for every input, when the lower-cased name and replacement do not overlap |
| Normalize.PassKRemovesName | normalize_to_hebrew_sources.py:62-66 | pass k of the summary loop leaves no occurrence of its own name in any case, when that pair does not overlap |
| Normalize.TableNoOverlap | normalize_to_hebrew_sources.py:18-24 | every table pair except "Exodus"/"Shemos" is free of overlap, so its pass removes its name |
| Normalize.PairNoOverlap | normalize_to_hebrew_sources.py:18-24 | the same, for the four pairs given by value |
| Normalize.GenesisNoOverlap | normalize_to_hebrew_sources.py:19 | "genesis" and "bereishis" do not overlap |
| Normalize.LeviticusNoOverlap | normalize_to_hebrew_sources.py:21 | "leviticus" and "vayikra" do not overlap |
| Normalize.NumbersNoOverlap | normalize_to_hebrew_sources.py:22 | "numbers" and "bamidbar" do not overlap |
| Normalize.DeuteronomyNoOverlap | normalize_to_hebrew_sources.py:23 | "deuteronomy" and "devarim" do not overlap |
| Normalize.WordsNoOverlap | normalize_to_hebrew_sources.py:18-24 | two words told apart at the first or a given letter of every suffix do not overlap |
| Normalize.ExodusOverlapKept | normalize_to_hebrew_sources.py:20 | "Exodus" and "Shemos" overlap in "s": one pass turns "ExoduExodus" into "ExoduShemos", which still reads "exodus" up to case |
| Normalize.KeepPrefix | normalize_to_hebrew_sources.py:65-66 | a text followed by the name, with no match starting in the text, keeps the text and gets the replacement |
| Normalize.ReplaceSelf | normalize_to_hebrew_sources.py:65-66 | the name alone becomes the replacement alone |
| Normalize.SkipFirst | normalize_to_hebrew_sources.py:65-66 | where no match starts, the first letter is kept |
| Normalize.MismatchAt | normalize_to_hebrew_sources.py:65 | a text differing from the name up to case at one letter does not start with it |
| Normalize.ParenSub | normalize_to_hebrew_sources.py:69-71 | reference definition of one parentheses substitution: each match of `\(name\s+\d+` has the lower-cased name in it replaced, scanning left to right |
| Normalize.NormalizeSummary | normalize_to_hebrew_sources.py:62-73 | reference definition of the summary column: the IGNORECASE loop, then the parentheses loop |
| Normalize.ParenMatchEnd | normalize_to_hebrew_sources.py:70 | a match of `\(name\s+\d+` starts with '(' and runs past the name |
| Normalize.ParenSubNeedsParen | normalize_to_hebrew_sources.py:69-71 | the parentheses pass leaves a summary without '(' as it is |
| Normalize.RewriteSummary | normalize_to_hebrew_sources.py:62-73 | the two summary loops give exactly the case-insensitive pass followed by the parentheses pass |
| Normalize.NormalizeRow | normalize_to_hebrew_sources.py:53-73 | a rewritten row (source column as the loop is written) keeps its length and every column other than the summary and the source |
| Normalize.NormalizedRows | normalize_to_hebrew_sources.py:46-51 | the rewrite keeps the number of rows |
| Normalize.NormalizedAt | normalize_to_hebrew_sources.py:46-73 | reference definition of row i after the loop: the header and rows of fewer than five columns as they were, any other row rewritten |
| Normalize.OnlySummaryAndSourceChange | normalize_to_hebrew_sources.py:46-73 | the header row and rows of fewer than five columns never change, and in the other rows only the summary and the source column can |
| Normalize.ChangedRowsZero | normalize_to_hebrew_sources.py:76-77 | the count of changed rows is zero exactly when nothing changed, and never counts an unchanged header |
| Normalize.NormalizeAt | normalize_to_hebrew_sources.py:46-77 | one turn of the row loop writes row i's rewrite in place, changes no other row, and reports a change exactly when the row differs from its copy |
| Normalize.RewriteRow | normalize_to_hebrew_sources.py:53-71 | one data row rewritten: the source column, then the summary, give exactly the normalised row |
| Normalize.NormalizeRows | normalize_to_hebrew_sources.py:46-77 | the row loop rewrites the rows in place into exactly the normalised rows and counts the rows that changed |
| Normalize.NormalizeBiblicalSources | normalize_to_hebrew_sources.py:14-91 | the same, with the five-name table |

## Left out

- File reading and writing, CSV and JSON decoding, backups with timestamps, `argparse` and console output are not modelled. Each script's core takes its rows or text as parameters and returns its result.
- Reflow: `date.today()`, which gives the default start date, is not modelled; the start date is a parameter. Date cells arrive already parsed (a day, or unparsable and so sorted as `date.min`), so the ISO date parser and `strftime` are not modelled.
- ReorderSchedule: `extract_conclusion_summary` reads another file, so the conclusion's better summary is a parameter.
- OptimizedSchedule, PerfectSchedule, ReorderSchedule: the Sefer HaMitzvos JSON and the summaries' source texts are parameters. The summariser is passed to the allocation loops as a function, and the scripts pass their own `clean_text` or extractor.
- Case folding, `\s`, `\d` and `str.isspace` cover ASCII only. Unicode case folding, Unicode whitespace and non-ASCII digits are not modelled.
- Regular expressions are modelled as the functions that match the script's fixed patterns (leftmost match, lazy and greedy groups, alternatives in order). There is no general regex engine.
- Python's `int()` on a field that is not a decimal number raises an exception. That error path is not modelled, so sequential numbers are integers from the start.
- OptimizedSchedule.PositiveEntrySummary, OptimizedSchedule.NegativeEntrySummary: the bare `except` is modelled for the one failure an entry of the corpus's shape can raise, indexing an empty variant list. Exceptions from malformed JSON values are not modelled.
- VerifySources: `load_master_sources` only reads a file, so the master table is a parameter.
- Consent: several parts are not modelled:
  - the GET health endpoint (its reply holds the current time);
  - `_parse_event` (base64, `parse_qs` and the HTTP envelope);
  - the 500 reply on an exception;
  - the record fields that never vary or hold the clock (channel, purpose, `updated_by`, timestamp);
  - DynamoDB failures (a failed read counts as no record).
  The table is a map held by `SubscriberStore`, and form values are strings.
- Consent.WebOutcome: a JSON `consent` value of `true` (a boolean rather than a string) is not modelled, since every field is a string.
- LambdaConvert.DayOf: the Source field is `" & ".join(set(sources))`, and the join order depends on Python's hashing. The model keeps the set of labels, not the joined string.
- LambdaConvert: `generate_embedded_code` is modelled only for its title cut (TruncateTitle); the other generated code lines are fixed text.
- BiblicalRefs: the verifier class's network search, its similarity scoring and its report are not modelled. Only `extract_biblical_references` is.
- Normalize.NormalizeRow, Normalize.RewriteRow, Normalize.NormalizeRows, Normalize.NormalizeBiblicalSources: model the script as written, with the source column given by SourceAsWritten, so a row citing several books can keep an English name. The corrected column is SourceChained, computed by RewriteSourceChained; see Findings.
- Normalize.RewriteSummary: its contract ties the loops to NormalizeSummary. Removal of a name is proved only pass by pass (PassKRemovesName), and only for the pairs whose lower-cased name and replacement do not overlap. "Exodus"/"Shemos" overlap: "ExoduExodus" becomes "ExoduShemos" (ExodusOverlapKept). Across passes, a later replacement can also create an earlier name ("GenesiExodus" becomes "GenesiShemos"). So no contract says that the finished summary holds no English name.
- PerfectSchedule.CreatePerfectSchedule: models the script as written, with `days_until_end - 1` days for the negatives. The corrected schedule is PerfectScheduleCorrected; see Findings.
- The repository's other, near-duplicate schedule generators and source reconcilers are not part of this model.

## Findings

| source | as written | input that shows it | evidently intended | confidence | as-written member | corrected member |
|---|---|---|---|---|---|---|
| create_perfect_schedule.py:168-169 | `days_for_negatives = days_until_end - 1`, though `days_until_end = (end_date - current_date).days` already excludes the conclusion day | the corpus: 248 positives and 365 negatives; the negatives start on 2026-03-07 and get 210 days, ending 2026-10-02, so 2026-10-03 gets no row | the negatives use every day up to the conclusion (211 days), so that every day of the cycle has a row | not executed | PerfectSchedule.AsWrittenSkipsDayBeforeEnd | PerfectSchedule.CorrectedCoversEveryDay |
| normalize_to_hebrew_sources.py:56-59 | `row[4] = biblical_source.replace(english, hebrew)` starts again from the original column for each name | the source "Genesis 1:28; Exodus 12:2" becomes "Genesis 1:28; Shemos 12:2" | each replacement applies to the column as already rewritten, leaving no English name | not executed | Normalize.AsWrittenKeepsGenesis | Normalize.SourceHasNoEnglishName |
