/** The date reflow of scripts/reflow_schedule_for_target.py: the rows, kept in their order
    (stable-sorted by their old date), are given new dates from a start date to a target date,
    one per day for as long as possible and then two per day.
    Dates are proleptic Gregorian ordinals (`date.toordinal()`); `date.min` is day 1. */
module Reflow {
  import opened Common

  type Day = int

  /** `date.min.toordinal()`: the sort key of a Date cell that does not parse. */
  const MinDay: Day := 1

  /** The Date cell of a row: an ISO date (after `strip()`) or text that does not parse. */
  datatype DateCell = Iso(day: Day) | Unparsable(text: string)

  /** A CSV row: its Date cell and every other column, which the reflow never touches. */
  datatype Row = Row(date: DateCell, others: map<string, string>)

  /** The plan of `compute_switch_days`. */
  datatype Plan =
    | Infeasible(daysAvailable: int, maxCapacity: int, entries: int)
    | Feasible(daysAvailable: int, entries: int, singleDays: int, doubleDays: int)

  /** How `main` ends. */
  datatype Outcome =
    | NoRows                 // exit 1: the CSV has no data rows
    | BadDateOrder           // ValueError: target before start
    | NotFeasible(plan: Plan) // exit 2: even two per day cannot hold the rows
    | Reflowed(plan: Plan)    // every row has its new date

  // ---------------------------------------------------------------------------
  // daterange and compute_switch_days

  /** `list(daterange(start, end))`: every day from start to end inclusive, ascending. */
  function DateRange(start: Day, end: Day): (r: seq<Day>)
    decreases end - start
    ensures |r| == if end < start then 0 else end - start + 1
    ensures forall i :: 0 <= i < |r| ==> r[i] == start + i
  {
    if start > end then [] else [start] + DateRange(start + 1, end)
  }

  /** Days from start to target inclusive. */
  function DaysAvailable(start: Day, target: Day): int {
    target - start + 1
  }

  /** Capacity of a plan that gives `x` of `days` days one entry and the rest two. */
  function Capacity(days: int, x: int): int {
    x + 2 * (days - x)
  }

  function ComputeSwitchDays(total: nat, start: Day, target: Day): (r: Result<Plan>)
    ensures var d := DaysAvailable(start, target);
      && (r.Err? <==> d <= 0)
      && (r.Ok? ==> r.value.daysAvailable == d && r.value.entries == total)
      && (r.Ok? ==> (r.value.Infeasible? <==> 2 * d < total))
      && (r.Ok? && r.value.Infeasible? ==> r.value.maxCapacity == 2 * d)
    ensures r.Ok? && r.value.Feasible? ==>
      var p := r.value;
      && 0 <= p.singleDays <= p.daysAvailable
      && p.singleDays + p.doubleDays == p.daysAvailable
      && Capacity(p.daysAvailable, p.singleDays) >= total
      // the one-per-day stretch is as long as it can be
      && forall x :: p.singleDays < x <= p.daysAvailable ==> Capacity(p.daysAvailable, x) < total
  {
    var d := DaysAvailable(start, target);
    if d <= 0 then Err("Target date must be on or after start date")
    else if 2 * d < total then Ok(Infeasible(d, 2 * d, total))
    else
      var x := Min(d, Max(0, 2 * d - total));
      Ok(Feasible(d, total, x, Max(0, d - x)))
  }

  function Min(a: int, b: int): int { if a <= b then a else b }
  function Max(a: int, b: int): int { if a >= b then a else b }

  // ---------------------------------------------------------------------------
  // The stable sort by old date (`rows.sort(key=parse_date_safe)`)

  function Key(r: Row): Day {
    match r.date
    case Iso(d) => d
    case Unparsable(_) => MinDay
  }

  predicate SortedByKey(s: seq<Row>) {
    forall i, j :: 0 <= i < j < |s| ==> Key(s[i]) <= Key(s[j])
  }

  /** The rows whose key is `k`, in their order. */
  function WithKey(s: seq<Row>, k: Day): seq<Row> {
    if s == [] then [] else (if Key(s[0]) == k then [s[0]] else []) + WithKey(s[1..], k)
  }

  /** A stable sort: ordered by key, and the rows of each key keep their relative order. */
  ghost predicate IsStableSortOf(out: seq<Row>, input: seq<Row>) {
    SortedByKey(out) && forall k :: WithKey(out, k) == WithKey(input, k)
  }

  /** Puts `r` after every row whose key is not larger. */
  function Insert(r: Row, s: seq<Row>): (t: seq<Row>)
    ensures |t| == |s| + 1
  {
    if s == [] then [r]
    else if Key(r) < Key(s[0]) then [r] + s
    else [s[0]] + Insert(r, s[1..])
  }

  /** An insertion sort that appends each row behind its equals: a stable sort. */
  function StableSort(s: seq<Row>): (t: seq<Row>)
    ensures |t| == |s|
  {
    if s == [] then [] else Insert(s[|s| - 1], StableSort(s[..|s| - 1]))
  }

  predicate AllKeysAtLeast(s: seq<Row>, v: Day) {
    forall i :: 0 <= i < |s| ==> v <= Key(s[i])
  }

  lemma {:induction false} WithKeyAppend(a: seq<Row>, b: seq<Row>, k: Day)
    ensures WithKey(a + b, k) == WithKey(a, k) + WithKey(b, k)
  {
    if a == [] {
      assert a + b == b;
    } else {
      var c := a + b;
      assert c[0] == a[0] && c[1..] == a[1..] + b;
      WithKeyAppend(a[1..], b, k);
      assert WithKey(c, k) == (if Key(a[0]) == k then [a[0]] else []) + WithKey(c[1..], k);
    }
  }

  lemma {:induction false} InsertPermutes(r: Row, s: seq<Row>)
    ensures multiset(Insert(r, s)) == multiset(s) + multiset{r}
  {
    if s != [] && Key(r) >= Key(s[0]) {
      InsertPermutes(r, s[1..]);
      assert s == [s[0]] + s[1..];
    }
  }

  lemma {:induction false} InsertKeepsLowerBound(r: Row, s: seq<Row>, v: Day)
    requires AllKeysAtLeast(s, v) && v <= Key(r)
    ensures AllKeysAtLeast(Insert(r, s), v)
  {
    if s != [] && Key(r) >= Key(s[0]) {
      InsertKeepsLowerBound(r, s[1..], v);
      var t := Insert(r, s[1..]);
      assert forall i :: 1 <= i < |t| + 1 == |Insert(r, s)| ==> Insert(r, s)[i] == t[i - 1];
    }
  }

  lemma {:induction false} InsertSorted(r: Row, s: seq<Row>)
    requires SortedByKey(s)
    ensures SortedByKey(Insert(r, s))
  {
    if s != [] && Key(r) >= Key(s[0]) {
      InsertSorted(r, s[1..]);
      InsertKeepsLowerBound(r, s[1..], Key(s[0]));
      var t := Insert(r, s[1..]);
      assert Insert(r, s) == [s[0]] + t;
    }
  }

  lemma {:induction false} NoneWithSmallerKey(s: seq<Row>, k: Day)
    requires SortedByKey(s) && s != [] && k < Key(s[0])
    ensures WithKey(s, k) == []
  {
    if |s| > 1 {
      NoneWithSmallerKey(s[1..], k);
    }
  }

  lemma {:induction false} InsertWithKey(r: Row, s: seq<Row>, k: Day)
    requires SortedByKey(s)
    ensures WithKey(Insert(r, s), k) == WithKey(s, k) + WithKey([r], k)
  {
    if s == [] {
    } else if Key(r) < Key(s[0]) {
      if Key(r) == k {
        NoneWithSmallerKey(s, k);
      }
      assert Insert(r, s)[1..] == s;
    } else {
      InsertWithKey(r, s[1..], k);
      assert Insert(r, s)[1..] == Insert(r, s[1..]);
    }
  }

  /** The model of `list.sort` is a stable sort and a permutation. */
  lemma {:induction false} StableSortCorrect(s: seq<Row>)
    ensures IsStableSortOf(StableSort(s), s)
    ensures multiset(StableSort(s)) == multiset(s)
  {
    if s != [] {
      var init, last := s[..|s| - 1], s[|s| - 1];
      StableSortCorrect(init);
      InsertSorted(last, StableSort(init));
      InsertPermutes(last, StableSort(init));
      assert s == init + [last];
      forall k ensures WithKey(StableSort(s), k) == WithKey(s, k) {
        InsertWithKey(last, StableSort(init), k);
        WithKeyAppend(init, [last], k);
      }
    }
  }

  // ---------------------------------------------------------------------------
  // The date assignment

  /** The day index (0 = start) that the k-th row receives when the first x days take one row. */
  function DayIndex(k: nat, x: nat): nat {
    if k < x then k else x + (k - x) / 2
  }

  /** Rows placed after the first `days` days of the loop. */
  function Placed(days: nat, x: nat, n: nat): nat {
    if days <= x then Min(days, n) else Min(n, x + 2 * (days - x))
  }

  /** The loop of `main` that writes the new Date cells: day by day from `start`, one row a
      day for the first `x` days and two a day after that, until every row has a date. */
  method AssignDates(rows: array<Row>, start: Day, target: Day, x: nat)
    requires Capacity(DaysAvailable(start, target), x) >= rows.Length
    requires x <= DaysAvailable(start, target)
    modifies rows
    ensures forall k :: 0 <= k < rows.Length ==>
      rows[k] == old(rows[k]).(date := Iso(start + DayIndex(k, x)))
  {
    var total := rows.Length;
    var dates := DateRange(start, target);
    var numAssigned := 0;
    for dayIndex := 0 to |dates|
      invariant numAssigned == Placed(dayIndex, x, total)
      invariant forall k :: 0 <= k < numAssigned ==> rows[k] == old(rows[k]).(date := Iso(start + DayIndex(k, x)))
      invariant forall k :: numAssigned <= k < total ==> rows[k] == old(rows[k])
    {
      if numAssigned >= total {
        break;
      }
      var newDate := Iso(dates[dayIndex]);
      if dayIndex < x {
        rows[numAssigned] := rows[numAssigned].(date := newDate);
        numAssigned := numAssigned + 1;
      } else {
        rows[numAssigned] := rows[numAssigned].(date := newDate);
        numAssigned := numAssigned + 1;
        if numAssigned < total {
          rows[numAssigned] := rows[numAssigned].(date := newDate);
          numAssigned := numAssigned + 1;
        }
      }
    }
    // The script's exit 3 ("not enough days") cannot happen: the capacity covers every row.
    assert numAssigned == total;
  }

  /** `main` after reading the CSV: sort the rows by old date, plan, then reassign the dates. */
  method ReflowSchedule(rows: array<Row>, start: Day, target: Day) returns (outcome: Outcome)
    modifies rows
    ensures outcome == NoRows <==> rows.Length == 0
    ensures outcome.BadDateOrder? <==> rows.Length > 0 && DaysAvailable(start, target) <= 0
    ensures outcome.BadDateOrder? || outcome.NotFeasible? ==> IsStableSortOf(rows[..], old(rows[..]))
    ensures outcome.NotFeasible? ==> Ok(outcome.plan) == ComputeSwitchDays(rows.Length, start, target)
    ensures outcome.NotFeasible? ==> outcome.plan.Infeasible?
    ensures outcome.Reflowed? ==>
      var p, sorted := outcome.plan, StableSort(old(rows[..]));
      && p.Feasible? && ComputeSwitchDays(rows.Length, start, target) == Ok(p)
      && forall k :: 0 <= k < rows.Length ==>
           rows[k] == sorted[k].(date := Iso(start + DayIndex(k, p.singleDays)))
  {
    if rows.Length == 0 {
      return NoRows;
    }
    var sorted := StableSort(rows[..]);
    StableSortCorrect(rows[..]);
    forall i | 0 <= i < rows.Length {
      rows[i] := sorted[i];
    }
    assert rows[..] == sorted;
    var plan := ComputeSwitchDays(rows.Length, start, target);
    if plan.Err? {
      return BadDateOrder;
    }
    if plan.value.Infeasible? {
      return NotFeasible(plan.value);
    }
    AssignDates(rows, start, target, plan.value.singleDays);
    return Reflowed(plan.value);
  }

  // ---------------------------------------------------------------------------
  // Properties of the assignment

  /** Dates never decrease along the row order. */
  lemma DayIndexMonotone(j: nat, k: nat, x: nat)
    requires j <= k
    ensures DayIndex(j, x) <= DayIndex(k, x)
  {
  }

  /** Within the one-per-day stretch each day holds one row; after it each day at most two. */
  lemma DayLoad(j: nat, k: nat, x: nat)
    requires j < k && DayIndex(j, x) == DayIndex(k, x)
    ensures j >= x && k == j + 1 && (j - x) % 2 == 0
  {
  }

  /** With a feasible plan the last row's date is on or before the target date. */
  lemma {:induction false} AssignmentWithinRange(total: nat, start: Day, target: Day, k: nat)
    requires ComputeSwitchDays(total, start, target).Ok?
    requires ComputeSwitchDays(total, start, target).value.Feasible?
    requires k < total
    ensures var x := ComputeSwitchDays(total, start, target).value.singleDays;
      start <= start + DayIndex(k, x) <= target
  {
    var p := ComputeSwitchDays(total, start, target).value;
    var x := p.singleDays;
    assert Capacity(p.daysAvailable, x) >= total;
    if k >= x {
      assert x + (k - x) / 2 <= p.daysAvailable - 1;
    }
  }

  /** When there are at least as many rows as days, every day from start to target gets a row. */
  lemma {:induction false} EveryDayCovered(total: nat, start: Day, target: Day, d: nat)
    requires ComputeSwitchDays(total, start, target).Ok?
    requires ComputeSwitchDays(total, start, target).value.Feasible?
    requires DaysAvailable(start, target) <= total
    requires d < DaysAvailable(start, target)
    ensures var x := ComputeSwitchDays(total, start, target).value.singleDays;
      exists k :: 0 <= k < total && DayIndex(k, x) == d
  {
    var x := ComputeSwitchDays(total, start, target).value.singleDays;
    var k := if d < x then d else x + 2 * (d - x);
    assert DayIndex(k, x) == d;
  }
}
