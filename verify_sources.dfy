/** scripts/verify_all_sources.py: schedule rows are keyed by their master-list number (Positive n
    is n, Negative n is 248 + n, parsed from the type label), and every master-list number is
    classified as a match, a mismatch or missing; schedule numbers the master list lacks are extra.
    The verification passes exactly when there are no mismatches, no missing and no extra
    numbers. */
module VerifySources {
  import opened Common
  import ScheduleRows

  // ---------------------------------------------------------------------------
  // The type label: `re.search(r'(Positive|Negative)\s+(\d+)', label)`

  datatype Kind = Positive | Negative
  datatype TypeLabel = TypeLabel(kind: Kind, number: nat)

  /** A match of the pattern starting exactly at index `i`. */
  function LabelAt(s: string, i: nat): (r: Option<TypeLabel>)
    requires i <= |s|
    ensures r.Some? ==> i < |s| && (s[i] == 'P' || s[i] == 'N')
  {
    var kind :=
      if StartsWith(s[i..], "Positive") then Some(Positive)
      else if StartsWith(s[i..], "Negative") then Some(Negative)
      else None;
    if kind.None? then None
    else
      var w := SpaceEnd(s, i + 8);
      var d := DigitEnd(s, w);
      if w == i + 8 || d == w then None else Some(TypeLabel(kind.value, ParseNat(s[w..d])))
  }

  /** The leftmost match at or after `i`. */
  function SearchLabel(s: string, i: nat): (r: Option<TypeLabel>)
    requires i <= |s|
    decreases |s| - i
  {
    if LabelAt(s, i).Some? then LabelAt(s, i)
    else if i == |s| then None
    else SearchLabel(s, i + 1)
  }

  /** "Positive 1"-"Positive 248" are 1-248, "Negative n" is 248 + n. */
  function MasterNumber(l: TypeLabel): int {
    if l.kind == Positive then l.number else 248 + l.number
  }

  // ---------------------------------------------------------------------------
  // load_schedule_sources

  /** A schedule row as read from the file. */
  datatype SourceRow = SourceRow(typeNumber: string, source: string, summary: string, date: string)

  /** A value of `schedule_sources`. */
  datatype ScheduleSource = ScheduleSource(reference: string, summary: string, date: string, mitzvahTypeNumber: string)

  /** A dictionary with integer keys: its keys in insertion order and its key-value mapping. */
  datatype OrderedMap<V> = OrderedMap(order: seq<int>, entries: map<int, V>)

  ghost predicate OrderedValid<V>(d: OrderedMap<V>) {
    && (forall i, j :: 0 <= i < j < |d.order| ==> d.order[i] != d.order[j])
    && (forall k :: k in d.entries <==> k in d.order)
  }

  /** `d[k] = v`: a new key goes to the end of the order, an existing key keeps its place. */
  function Insert<V>(d: OrderedMap<V>, k: int, v: V): (r: OrderedMap<V>)
    requires OrderedValid(d)
    ensures OrderedValid(r) && r.entries == d.entries[k := v]
    ensures k in d.entries ==> r.order == d.order
    ensures k !in d.entries ==> r.order == d.order + [k]
  {
    OrderedMap(if k in d.entries then d.order else d.order + [k], d.entries[k := v])
  }

  function RowLabel(row: SourceRow): Option<TypeLabel> {
    SearchLabel(Strip(row.typeNumber), 0)
  }

  function RowSource(row: SourceRow): ScheduleSource {
    ScheduleSource(Strip(row.source), Strip(row.summary), row.date, Strip(row.typeNumber))
  }

  /** The dictionary after reading `rows`. */
  function LoadSchedule(rows: seq<SourceRow>): (d: OrderedMap<ScheduleSource>)
    ensures OrderedValid(d)
  {
    if rows == [] then OrderedMap([], map[])
    else
      var d := LoadSchedule(rows[..|rows| - 1]);
      var row := rows[|rows| - 1];
      match RowLabel(row)
      case None => d
      case Some(l) => Insert(d, MasterNumber(l), RowSource(row))
  }

  method LoadScheduleSources(rows: seq<SourceRow>) returns (scheduleSources: OrderedMap<ScheduleSource>)
    ensures scheduleSources == LoadSchedule(rows)
  {
    scheduleSources := OrderedMap([], map[]);
    for i := 0 to |rows|
      invariant scheduleSources == LoadSchedule(rows[..i])
    {
      assert rows[..i + 1][..i] == rows[..i];
      var mitzvahTypeNumber := Strip(rows[i].typeNumber);
      var found := SearchLabel(mitzvahTypeNumber, 0);
      if found.Some? {
        var masterNumber := if found.value.kind == Positive then found.value.number else 248 + found.value.number;
        scheduleSources := Insert(scheduleSources, masterNumber, RowSource(rows[i]));
      }
    }
    assert rows[..|rows|] == rows;
  }

  // ---------------------------------------------------------------------------
  // compare_sources

  datatype MasterSource = MasterSource(reference: string, mitzvah: string)

  datatype Mismatch = Mismatch(number: int, masterRef: string, scheduleRef: string, mitzvah: string, mitzvahType: string)
  datatype Missing = Missing(number: int, reference: string, mitzvah: string)
  datatype Extra = Extra(number: int, reference: string, mitzvahType: string)

  predicate Increasing(s: seq<int>) {
    forall i, j :: 0 <= i < j < |s| ==> s[i] < s[j]
  }

  function MismatchNumbers(ms: seq<Mismatch>): (r: seq<int>)
    ensures |r| == |ms| && forall i :: 0 <= i < |ms| ==> r[i] == ms[i].number
  {
    seq(|ms|, i requires 0 <= i < |ms| => ms[i].number)
  }

  function MissingNumbers(ms: seq<Missing>): (r: seq<int>)
    ensures |r| == |ms| && forall i :: 0 <= i < |ms| ==> r[i] == ms[i].number
  {
    seq(|ms|, i requires 0 <= i < |ms| => ms[i].number)
  }

  /** The record `compare_sources` keeps for a master number whose references differ. */
  function MismatchOf(master: map<int, MasterSource>, sched: map<int, ScheduleSource>, k: int): Mismatch
    requires k in master && k in sched
  {
    Mismatch(k, master[k].reference, sched[k].reference, master[k].mitzvah, sched[k].mitzvahTypeNumber)
  }

  function MissingOf(master: map<int, MasterSource>, k: int): Missing
    requires k in master
  {
    Missing(k, master[k].reference, master[k].mitzvah)
  }

  /** The three lists hold exactly the master numbers of their kind, in ascending order, with
      the records built from the two tables. */
  ghost predicate Classified(master: map<int, MasterSource>, sched: map<int, ScheduleSource>,
                       matches: seq<int>, mismatches: seq<Mismatch>, missing: seq<Missing>)
  {
    && Increasing(matches) && Increasing(MismatchNumbers(mismatches)) && Increasing(MissingNumbers(missing))
    && (forall k :: k in matches <==> k in master && k in sched && master[k].reference == sched[k].reference)
    && (forall k :: k in MismatchNumbers(mismatches) <==>
          k in master && k in sched && master[k].reference != sched[k].reference)
    && (forall k :: k in MissingNumbers(missing) <==> k in master && k !in sched)
    && (forall i :: 0 <= i < |mismatches| ==>
          (mismatches[i].number in master && mismatches[i].number in sched
           && mismatches[i] == MismatchOf(master, sched, mismatches[i].number)))
    && (forall i :: 0 <= i < |missing| ==>
          (missing[i].number in master && missing[i] == MissingOf(master, missing[i].number)))
  }

  lemma IncreasingSnoc(s: seq<int>, x: int)
    requires Increasing(s) && forall y :: y in s ==> y < x
    ensures Increasing(s + [x])
  {
    forall i, j | 0 <= i < j < |s| + 1 ensures (s + [x])[i] < (s + [x])[j] {
      if j == |s| {
        assert (s + [x])[i] == s[i] && s[i] in s;
      }
    }
  }

  /** `extra_in_schedule`: the schedule's numbers absent from the master list, in dictionary order. */
  function ExtraOf(order: seq<int>, sched: map<int, ScheduleSource>, master: map<int, MasterSource>): (r: seq<Extra>)
    requires forall k :: k in order ==> k in sched
  {
    if order == [] then []
    else
      var rest := ExtraOf(order[..|order| - 1], sched, master);
      var k := order[|order| - 1];
      if k in master then rest else rest + [Extra(k, sched[k].reference, sched[k].mitzvahTypeNumber)]
  }

  lemma IncreasingCons(x: int, s: seq<int>)
    requires Increasing(s) && forall y :: y in s ==> x < y
    ensures Increasing([x] + s)
  {
    forall i, j | 0 <= i < j < |s| + 1 ensures ([x] + s)[i] < ([x] + s)[j] {
      if i == 0 {
        assert ([x] + s)[j] == s[j - 1] && s[j - 1] in s;
      } else {
        assert ([x] + s)[i] == s[i - 1] && ([x] + s)[j] == s[j - 1];
      }
    }
  }

  /** `x` placed into an ascending sequence. */
  function InsertSorted(s: seq<int>, x: int): (r: seq<int>)
    requires Increasing(s) && x !in s
    ensures Increasing(r) && |r| == |s| + 1
    ensures forall k :: k in r <==> k in s || k == x
  {
    if s == [] then [x]
    else if x < s[0] then
      assert forall y :: y in s ==> x < y by {
        forall y | y in s ensures x < y {
          var i :| 0 <= i < |s| && s[i] == y;
          if i > 0 { assert s[0] < s[i]; }
        }
      }
      IncreasingCons(x, s);
      [x] + s
    else
      assert s == [s[0]] + s[1..];
      assert Increasing(s[1..]) by {
        forall i, j | 0 <= i < j < |s| - 1 ensures s[1..][i] < s[1..][j] {
          assert s[1..][i] == s[i + 1] && s[1..][j] == s[j + 1];
        }
      }
      var rest := InsertSorted(s[1..], x);
      assert forall y :: y in rest ==> s[0] < y by {
        forall y | y in rest ensures s[0] < y {
          if y != x {
            var i :| 0 <= i < |s| - 1 && s[1..][i] == y;
            assert s[i + 1] == y;
          }
        }
      }
      IncreasingCons(s[0], rest);
      [s[0]] + rest
  }

  /** `sorted(master_sources.keys())`: the keys of a dictionary in ascending order. */
  method SortedKeys<V>(d: OrderedMap<V>) returns (r: seq<int>)
    requires OrderedValid(d)
    ensures Increasing(r) && forall k :: k in r <==> k in d.entries
  {
    r := [];
    for i := 0 to |d.order|
      invariant Increasing(r) && forall k :: k in r <==> k in d.order[..i]
    {
      assert d.order[..i + 1] == d.order[..i] + [d.order[i]];
      r := InsertSorted(r, d.order[i]);
    }
    assert d.order[..|d.order|] == d.order;
  }

  /** The three lists `compare_sources` builds from master numbers taken in the given order. */
  datatype Classes = Classes(matches: seq<int>, mismatches: seq<Mismatch>, missing: seq<Missing>)

  /** The first loop of `compare_sources` over a list of master numbers. */
  function Classify(master: map<int, MasterSource>, sched: map<int, ScheduleSource>, keys: seq<int>): (c: Classes)
    requires forall k :: k in keys ==> k in master
    ensures |c.matches| + |c.mismatches| + |c.missing| == |keys|
  {
    if keys == [] then Classes([], [], [])
    else
      var c := Classify(master, sched, keys[..|keys| - 1]);
      ClassifyNext(master, sched, c, keys[|keys| - 1])
  }

  /** Classified, for the numbers of `keys` rather than all of `master`. */
  ghost predicate ClassifiedOver(keys: seq<int>, master: map<int, MasterSource>, sched: map<int, ScheduleSource>, c: Classes)
    requires forall k :: k in keys ==> k in master
  {
    && Increasing(c.matches) && Increasing(MismatchNumbers(c.mismatches)) && Increasing(MissingNumbers(c.missing))
    && (forall k :: k in c.matches <==> k in keys && k in sched && master[k].reference == sched[k].reference)
    && (forall k :: k in MismatchNumbers(c.mismatches) <==>
          k in keys && k in sched && master[k].reference != sched[k].reference)
    && (forall k :: k in MissingNumbers(c.missing) <==> k in keys && k !in sched)
    && (forall i :: 0 <= i < |c.mismatches| ==>
          (c.mismatches[i].number in master && c.mismatches[i].number in sched
           && c.mismatches[i] == MismatchOf(master, sched, c.mismatches[i].number)))
    && (forall i :: 0 <= i < |c.missing| ==>
          (c.missing[i].number in master && c.missing[i] == MissingOf(master, c.missing[i].number)))
  }

  /** Taking the master numbers in ascending order classifies each one exactly once, in order. */
  lemma {:induction false} ClassifySorted(master: map<int, MasterSource>, sched: map<int, ScheduleSource>, keys: seq<int>)
    requires Increasing(keys) && forall k :: k in keys ==> k in master
    ensures ClassifiedOver(keys, master, sched, Classify(master, sched, keys))
  {
    if keys != [] {
      var init := keys[..|keys| - 1];
      var k := keys[|keys| - 1];
      assert keys == init + [k];
      assert Increasing(init);
      assert forall y :: y in init ==> y < k;
      ClassifySorted(master, sched, init);
      var c := Classify(master, sched, init);
      assert Classify(master, sched, keys) == ClassifyNext(master, sched, c, k);
      if k in sched && master[k].reference == sched[k].reference {
        ClassifyMatch(master, sched, init, c, k);
      } else if k in sched {
        ClassifyMismatch(master, sched, init, c, k);
      } else {
        ClassifyMissing(master, sched, init, c, k);
      }
    }
  }

  /** One step of Classify. */
  function ClassifyNext(master: map<int, MasterSource>, sched: map<int, ScheduleSource>, c: Classes, k: int): Classes
    requires k in master
  {
    if k in sched && master[k].reference == sched[k].reference then c.(matches := c.matches + [k])
    else if k in sched then c.(mismatches := c.mismatches + [MismatchOf(master, sched, k)])
    else c.(missing := c.missing + [MissingOf(master, k)])
  }

  lemma ClassifyMatch(master: map<int, MasterSource>, sched: map<int, ScheduleSource>, init: seq<int>, c: Classes, k: int)
    requires forall y :: y in init ==> y in master && y < k
    requires k in master && k in sched && master[k].reference == sched[k].reference
    requires ClassifiedOver(init, master, sched, c)
    ensures ClassifiedOver(init + [k], master, sched, c.(matches := c.matches + [k]))
  {
    IncreasingSnoc(c.matches, k);
  }

  lemma ClassifyMismatch(master: map<int, MasterSource>, sched: map<int, ScheduleSource>, init: seq<int>, c: Classes, k: int)
    requires forall y :: y in init ==> y in master && y < k
    requires k in master && k in sched && master[k].reference != sched[k].reference
    requires ClassifiedOver(init, master, sched, c)
    ensures ClassifiedOver(init + [k], master, sched, c.(mismatches := c.mismatches + [MismatchOf(master, sched, k)]))
  {
    assert MismatchNumbers(c.mismatches + [MismatchOf(master, sched, k)]) == MismatchNumbers(c.mismatches) + [k];
    IncreasingSnoc(MismatchNumbers(c.mismatches), k);
  }

  lemma ClassifyMissing(master: map<int, MasterSource>, sched: map<int, ScheduleSource>, init: seq<int>, c: Classes, k: int)
    requires forall y :: y in init ==> y in master && y < k
    requires k in master && k !in sched
    requires ClassifiedOver(init, master, sched, c)
    ensures ClassifiedOver(init + [k], master, sched, c.(missing := c.missing + [MissingOf(master, k)]))
  {
    assert MissingNumbers(c.missing + [MissingOf(master, k)]) == MissingNumbers(c.missing) + [k];
    IncreasingSnoc(MissingNumbers(c.missing), k);
  }

  method CompareSources(masterSources: OrderedMap<MasterSource>, scheduleSources: OrderedMap<ScheduleSource>)
    returns (matches: seq<int>, mismatches: seq<Mismatch>, missingInSchedule: seq<Missing>,
             extraInSchedule: seq<Extra>, allMatch: bool)
    requires OrderedValid(masterSources) && OrderedValid(scheduleSources)
    ensures Classified(masterSources.entries, scheduleSources.entries, matches, mismatches, missingInSchedule)
    ensures extraInSchedule == ExtraOf(scheduleSources.order, scheduleSources.entries, masterSources.entries)
    ensures allMatch <==> mismatches == [] && missingInSchedule == [] && extraInSchedule == []
  {
    var sched := scheduleSources.entries;
    var master := masterSources.entries;
    var keys := SortedKeys(masterSources);
    matches, mismatches, missingInSchedule := ClassifyKeys(master, sched, keys);
    ClassifySorted(master, sched, keys);
    extraInSchedule := CollectExtra(scheduleSources.order, sched, master);
    allMatch := |mismatches| == 0 && |missingInSchedule| == 0 && |extraInSchedule| == 0;
  }

  /** The first loop of `compare_sources`: each master number, in the given order, is a match, a
      mismatch or missing. */
  method ClassifyKeys(master: map<int, MasterSource>, sched: map<int, ScheduleSource>, keys: seq<int>)
    returns (matches: seq<int>, mismatches: seq<Mismatch>, missingInSchedule: seq<Missing>)
    requires forall k :: k in keys ==> k in master
    ensures Classes(matches, mismatches, missingInSchedule) == Classify(master, sched, keys)
  {
    matches, mismatches, missingInSchedule := [], [], [];
    for i := 0 to |keys|
      invariant Classes(matches, mismatches, missingInSchedule) == Classify(master, sched, keys[..i])
    {
      var masterNum := keys[i];
      assert keys[..i + 1][..i] == keys[..i];
      var masterRef := master[masterNum].reference;
      var masterMitzvah := master[masterNum].mitzvah;
      if masterNum in sched {
        var scheduleRef := sched[masterNum].reference;
        if masterRef == scheduleRef {
          matches := matches + [masterNum];
        } else {
          mismatches := mismatches + [Mismatch(masterNum, masterRef, scheduleRef, masterMitzvah,
                                               sched[masterNum].mitzvahTypeNumber)];
        }
      } else {
        missingInSchedule := missingInSchedule + [Missing(masterNum, masterRef, masterMitzvah)];
      }
    }
    assert keys[..|keys|] == keys;
  }

  /** The second loop of `compare_sources`: the schedule's numbers the master list lacks. */
  method CollectExtra(order: seq<int>, sched: map<int, ScheduleSource>, master: map<int, MasterSource>)
    returns (extraInSchedule: seq<Extra>)
    requires forall k :: k in order ==> k in sched
    ensures extraInSchedule == ExtraOf(order, sched, master)
  {
    extraInSchedule := [];
    for i := 0 to |order|
      invariant extraInSchedule == ExtraOf(order[..i], sched, master)
    {
      assert order[..i + 1][..i] == order[..i];
      var scheduleNum := order[i];
      if scheduleNum !in master {
        extraInSchedule := extraInSchedule + [Extra(scheduleNum, sched[scheduleNum].reference,
                                                    sched[scheduleNum].mitzvahTypeNumber)];
      }
    }
    assert order[..|order|] == order;
  }

  // ---------------------------------------------------------------------------
  // Properties

  /** The labels the schedule uses parse back to their kind and number. */
  lemma LabelRoundTrip(n: nat)
    ensures SearchLabel(ScheduleRows.PositiveLabel(n), 0) == Some(TypeLabel(Positive, n))
    ensures SearchLabel(ScheduleRows.NegativeLabel(n), 0) == Some(TypeLabel(Negative, n))
  {
    NatToStringRoundTrip(n);
    var digits := NatToString(n);
    var p := ScheduleRows.PositiveLabel(n);
    assert p[0..][..8] == "Positive" && p[8] == ' ' && p[9..] == digits;
    assert SpaceEnd(p, 9) == 9;
    assert SpaceEnd(p, 8) == 9;
    DigitEndAll(p, 9);
    assert p[9..|p|] == digits;
    assert LabelAt(p, 0) == Some(TypeLabel(Positive, n));
    var q := ScheduleRows.NegativeLabel(n);
    assert q[0..][..8] == "Negative" && q[8] == ' ' && q[9..] == digits;
    assert SpaceEnd(q, 9) == 9;
    assert SpaceEnd(q, 8) == 9;
    DigitEndAll(q, 9);
    assert q[9..|q|] == digits;
    assert LabelAt(q, 0) == Some(TypeLabel(Negative, n));
  }

  /** A text without a capital 'P' or 'N' holds no type label: intro and conclusion rows are
      ignored. */
  lemma {:induction false} NoInitialNoLabel(s: string, i: nat)
    requires i <= |s| && forall m :: i <= m < |s| ==> s[m] != 'P' && s[m] != 'N'
    ensures SearchLabel(s, i) == None
    decreases |s| - i
  {
    if i < |s| {
      NoInitialNoLabel(s, i + 1);
    }
  }

  lemma IntroLabelIgnored(n: nat)
    ensures SearchLabel(ScheduleRows.IntroLabel(n), 0) == None
    ensures SearchLabel("Conclusion", 0) == None
  {
    NatToStringRoundTrip(n);
    var s := ScheduleRows.IntroLabel(n);
    assert forall m :: 6 <= m < |s| ==> s[m] == NatToString(n)[m - 6];
    NoInitialNoLabel(s, 0);
    NoInitialNoLabel("Conclusion", 0);
  }

  /** The translation to master numbers is one-to-one on the labels of the corpus (Positive 1-248,
      Negative 1-365) and lands in 1-613; the inverse recovers the label. */
  predicate InCorpus(l: TypeLabel) {
    1 <= l.number && (l.kind == Positive ==> l.number <= 248) && (l.kind == Negative ==> l.number <= 365)
  }

  function FromMasterNumber(g: int): (l: TypeLabel)
    requires 1 <= g <= 613
    ensures InCorpus(l) && MasterNumber(l) == g
  {
    if g <= 248 then TypeLabel(Positive, g) else TypeLabel(Negative, g - 248)
  }

  lemma MasterNumberBijective(a: TypeLabel, b: TypeLabel)
    requires InCorpus(a) && InCorpus(b)
    ensures 1 <= MasterNumber(a) <= 613
    ensures FromMasterNumber(MasterNumber(a)) == a
    ensures MasterNumber(a) == MasterNumber(b) ==> a == b
  {
  }

  /** The row is keyed under master number `k`. */
  predicate KeyedAs(row: SourceRow, k: int) {
    RowLabel(row).Some? && MasterNumber(RowLabel(row).value) == k
  }

  /** A master number is a key exactly when some row's label translates to it. */
  lemma {:induction false} LoadScheduleKeys(rows: seq<SourceRow>, k: int)
    ensures k in LoadSchedule(rows).entries <==> exists i :: 0 <= i < |rows| && KeyedAs(rows[i], k)
  {
    if rows != [] {
      var init := rows[..|rows| - 1];
      LoadScheduleKeys(init, k);
      LoadScheduleStepKeys(rows, k);
      KeyedSomewhereStep(rows, init, k);
    }
  }

  lemma KeyedSomewhereStep(rows: seq<SourceRow>, init: seq<SourceRow>, k: int)
    requires rows != [] && init == rows[..|rows| - 1]
    ensures (exists i :: 0 <= i < |rows| && KeyedAs(rows[i], k))
      <==> (exists i :: 0 <= i < |init| && KeyedAs(init[i], k)) || KeyedAs(rows[|rows| - 1], k)
  {
    if i :| 0 <= i < |rows| && KeyedAs(rows[i], k) {
      if i < |init| {
        assert init[i] == rows[i];
      }
    }
    if i :| 0 <= i < |init| && KeyedAs(init[i], k) {
      assert rows[i] == init[i];
    }
  }

  /** Reading one more row adds its key, if it has one, and nothing else. */
  lemma LoadScheduleStepKeys(rows: seq<SourceRow>, k: int)
    requires rows != []
    ensures k in LoadSchedule(rows).entries
      <==> k in LoadSchedule(rows[..|rows| - 1]).entries || KeyedAs(rows[|rows| - 1], k)
  {
  }

  /** The value under a master number comes from the last row keyed under it. */
  lemma {:induction false} LoadScheduleLastWins(rows: seq<SourceRow>, k: int, i: nat)
    requires i < |rows| && KeyedAs(rows[i], k)
    requires forall j :: i < j < |rows| ==> !KeyedAs(rows[j], k)
    ensures k in LoadSchedule(rows).entries && LoadSchedule(rows).entries[k] == RowSource(rows[i])
  {
    var init := rows[..|rows| - 1];
    if i < |rows| - 1 {
      assert forall j :: 0 <= j < |init| ==> init[j] == rows[j];
      LoadScheduleLastWins(init, k, i);
      assert !KeyedAs(rows[|rows| - 1], k);
    }
  }

  function ExtraNumbers(es: seq<Extra>): (r: seq<int>)
    ensures |r| == |es| && forall i :: 0 <= i < |es| ==> r[i] == es[i].number
  {
    seq(|es|, i requires 0 <= i < |es| => es[i].number)
  }

  /** The extra numbers are the schedule's keys absent from the master list, each with its
      schedule record. */
  lemma {:induction false} ExtraOfExactly(order: seq<int>, sched: map<int, ScheduleSource>, master: map<int, MasterSource>)
    requires forall k :: k in order ==> k in sched
    ensures var r := ExtraOf(order, sched, master);
      && (forall k :: k in ExtraNumbers(r) <==> k in order && k !in master)
      && (forall i :: 0 <= i < |r| ==>
            (r[i].number in sched && r[i] == Extra(r[i].number, sched[r[i].number].reference, sched[r[i].number].mitzvahTypeNumber)))
  {
    if order != [] {
      var init := order[..|order| - 1];
      var k := order[|order| - 1];
      assert order == init + [k];
      ExtraOfExactly(init, sched, master);
      var rest := ExtraOf(init, sched, master);
      if k !in master {
        assert ExtraNumbers(rest + [Extra(k, sched[k].reference, sched[k].mitzvahTypeNumber)]) == ExtraNumbers(rest) + [k];
      }
    }
  }

  /** Every master number lands in exactly one of the three lists, and every listed number is a
      master number. */
  lemma ClassifiedPartition(master: map<int, MasterSource>, sched: map<int, ScheduleSource>,
                            matches: seq<int>, mismatches: seq<Mismatch>, missing: seq<Missing>, k: int)
    requires Classified(master, sched, matches, mismatches, missing)
    ensures (k in matches || k in MismatchNumbers(mismatches) || k in MissingNumbers(missing)) <==> k in master
    ensures !(k in matches && k in MismatchNumbers(mismatches))
    ensures !(k in matches && k in MissingNumbers(missing))
    ensures !(k in MismatchNumbers(mismatches) && k in MissingNumbers(missing))
  {
  }

  /** The verification passes exactly when the schedule has the same numbers as the master list
      and every reference agrees. */
  lemma {:induction false} PassesIffAgree(masterSources: OrderedMap<MasterSource>, scheduleSources: OrderedMap<ScheduleSource>,
                                         matches: seq<int>, mismatches: seq<Mismatch>, missing: seq<Missing>, extra: seq<Extra>)
    requires OrderedValid(masterSources) && OrderedValid(scheduleSources)
    requires Classified(masterSources.entries, scheduleSources.entries, matches, mismatches, missing)
    requires extra == ExtraOf(scheduleSources.order, scheduleSources.entries, masterSources.entries)
    ensures (mismatches == [] && missing == [] && extra == []) <==>
      (&& (forall k :: k in masterSources.entries <==> k in scheduleSources.entries)
       && forall k :: k in masterSources.entries ==>
            masterSources.entries[k].reference == scheduleSources.entries[k].reference)
  {
    var master, sched := masterSources.entries, scheduleSources.entries;
    ExtraOfExactly(scheduleSources.order, sched, master);
    if mismatches == [] && missing == [] && extra == [] {
      forall k | k in master ensures k in sched && master[k].reference == sched[k].reference {
        assert k !in MismatchNumbers(mismatches) && k !in MissingNumbers(missing);
      }
      forall k | k in sched ensures k in master {
        assert k in scheduleSources.order && k !in ExtraNumbers(extra);
      }
    } else if mismatches != [] {
      assert mismatches[0].number in MismatchNumbers(mismatches);
    } else if missing != [] {
      assert missing[0].number in MissingNumbers(missing);
    } else {
      assert extra[0].number in ExtraNumbers(extra);
    }
  }
}
