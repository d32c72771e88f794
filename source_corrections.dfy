/** scripts/apply_source_corrections.py: a fixed table of citation patches keyed by sequential
    number. Each patch overwrites the Biblical_Source of the first schedule entry with that number,
    but only when the entry's current source (stripped) is the expected old one; the summary is
    optionally replaced too. Every patch is logged as applied or skipped. On save, fields whose
    names start with '_' are dropped. */
module SourceCorrections {
  import opened Common

  /** A schedule entry as the corrector sees it (`Sequential_Number` already converted by `int`). */
  datatype Entry = Entry(seqNum: int, typeNumber: string, source: string, summary: string)

  /** One row of CONFIRMED_SOURCE_CORRECTIONS: key, expected current source, correct source,
      master-list number and master-list description. */
  datatype Correction = Correction(seqNum: nat, currentSource: string, correctSource: string,
                                   masterNum: nat, masterDesc: string)

  /** A `correction_info` record; the summary keys exist only when summaries are updated. */
  datatype Applied = Applied(seqNum: nat, mitzvahType: string, oldSource: string, newSource: string,
                             masterNum: nat, summaryUpdated: bool,
                             oldSummary: Option<string>, newSummary: Option<string>)

  /** The table in the dictionary's insertion order. */
  const Corrections: seq<Correction> := [
    Correction(28, "Devarim 10:19", "Bamidbar 15:38", 84, "To have Tzitzit on four-cornered garments"),
    Correction(19, "Devarim 10:20", "Shemos 23:25", 77, "To serve the Almighty with prayer daily"),
    Correction(33, "Vayikra 19:16", "Devarim 8:10", 85, "To bless the Almighty after eating"),
    Correction(139, "Bereishis 1:28", "Shemos 23:19", 270, "To set aside the first fruits and bring them to the Temple"),
    Correction(94, "Devarim 6:8", "Bamidbar 18:15", 276, "To redeem the firstborn sons and give the money to a Kohen"),
    Correction(104, "Shemos 16:29", "Shemos 30:19", 331, "A Kohen must wash his hands and feet before service"),
    Correction(98, "Bamidbar 15:38", "Devarim 12:11", 369, "To offer all sacrifices in the Temple"),
    Correction(158, "Vayikra 18:10", "Devarim 18:4", 275, "To give the first shearing of sheep to a Kohen"),
    Correction(173, "Vayikra 18:14", "Vayikra 23:8", 96, "To rest on the first day of Passover"),
    Correction(174, "Vayikra 18:20", "Vayikra 23:8", 98, "To rest on the seventh day of Passover")
  ]

  // ---------------------------------------------------------------------------
  // Specification

  /** `find_entry_by_sequential_number`: the index of the first entry with number `n`. */
  function FirstIndex(rows: seq<Entry>, n: int): (r: Option<nat>)
    ensures r.Some? ==> r.value < |rows| && rows[r.value].seqNum == n
    ensures r.Some? ==> forall j :: 0 <= j < r.value ==> rows[j].seqNum != n
    ensures r.None? ==> forall j :: 0 <= j < |rows| ==> rows[j].seqNum != n
  {
    if rows == [] then None
    else if rows[|rows| - 1].seqNum == n && FirstIndex(rows[..|rows| - 1], n).None? then Some(|rows| - 1)
    else
      var r := FirstIndex(rows[..|rows| - 1], n);
      assert forall j :: 0 <= j < |rows| - 1 ==> rows[j] == rows[..|rows| - 1][j];
      r
  }

  function NotFoundMessage(n: nat): string {
    "Sequential #" + NatToString(n) + ": Entry not found"
  }

  function MismatchMessage(c: Correction, found: string): string {
    "Sequential #" + NatToString(c.seqNum) + ": Source mismatch - expected '" + c.currentSource
      + "', found '" + found + "'"
  }

  /** The rows together with the corrector's two logs. */
  datatype State = State(rows: seq<Entry>, applied: seq<Applied>, skipped: seq<string>)

  /** The entry after a patch: new source, and the master description when summaries are updated. */
  function Patched(e: Entry, c: Correction, updateSummaries: bool): Entry {
    e.(source := c.correctSource, summary := if updateSummaries then c.masterDesc else e.summary)
  }

  function AppliedInfo(e: Entry, c: Correction, updateSummaries: bool): Applied {
    Applied(c.seqNum, e.typeNumber, c.currentSource, c.correctSource, c.masterNum, updateSummaries,
            if updateSummaries then Some(Strip(e.summary)) else None,
            if updateSummaries then Some(c.masterDesc) else None)
  }

  /** One iteration of the loop in `apply_source_corrections`. */
  function Step(st: State, c: Correction, updateSummaries: bool): State {
    match FirstIndex(st.rows, c.seqNum)
    case None => st.(skipped := st.skipped + [NotFoundMessage(c.seqNum)])
    case Some(i) =>
      var e := st.rows[i];
      if Strip(e.source) == c.currentSource then
        st.(rows := st.rows[i := Patched(e, c, updateSummaries)],
            applied := st.applied + [AppliedInfo(e, c, updateSummaries)])
      else
        st.(skipped := st.skipped + [MismatchMessage(c, Strip(e.source))])
  }

  /** The loop over a table of corrections, in order. */
  function ApplyAll(st: State, cs: seq<Correction>, updateSummaries: bool): State {
    if cs == [] then st
    else Step(ApplyAll(st, cs[..|cs| - 1], updateSummaries), cs[|cs| - 1], updateSummaries)
  }

  // ---------------------------------------------------------------------------
  // The corrector

  class SourceCorrector {
    var appliedLog: seq<Applied>
    var skippedLog: seq<string>

    constructor()
      ensures appliedLog == [] && skippedLog == []
    {
      appliedLog := [];
      skippedLog := [];
    }

    /** The first entry with sequential number `n`, or none. */
    method FindEntryBySequentialNumber(rows: array<Entry>, n: int) returns (r: Option<nat>)
      ensures r == FirstIndex(rows[..], n)
    {
      for i := 0 to rows.Length
        invariant FirstIndex(rows[..i], n).None?
      {
        assert rows[..i + 1][..i] == rows[..i];
        if rows[i].seqNum == n {
          assert rows[..i + 1] == rows[..][..i + 1];
          FirstIndexPrefix(rows[..], i + 1, n);
          return Some(i);
        }
      }
      assert rows[..rows.Length] == rows[..];
      r := None;
    }

    /** One iteration of the loop: look the entry up, then patch it or log a skip. */
    method ApplyCorrection(rows: array<Entry>, c: Correction, updateSummaries: bool) returns (applied: bool)
      modifies this, rows
      ensures State(rows[..], appliedLog, skippedLog)
        == Step(State(old(rows[..]), old(appliedLog), old(skippedLog)), c, updateSummaries)
      ensures applied <==> |appliedLog| == |old(appliedLog)| + 1
      ensures !applied ==> appliedLog == old(appliedLog)
    {
      applied := false;
      var entry := FindEntryBySequentialNumber(rows, c.seqNum);
      if entry.None? {
        skippedLog := skippedLog + [NotFoundMessage(c.seqNum)];
        return;
      }
      var i := entry.value;
      var currentBiblicalSource := Strip(rows[i].source);
      if currentBiblicalSource == c.currentSource {
        var info := AppliedInfo(rows[i], c, updateSummaries);
        rows[i] := Patched(rows[i], c, updateSummaries);
        appliedLog := appliedLog + [info];
        applied := true;
      } else {
        skippedLog := skippedLog + [MismatchMessage(c, currentBiblicalSource)];
      }
    }

    /** Applies every correction of the table to `rows` in place; returns the number applied. */
    method ApplySourceCorrections(rows: array<Entry>, updateSummaries: bool) returns (made: nat)
      modifies this, rows
      ensures State(rows[..], appliedLog, skippedLog)
        == ApplyAll(State(old(rows[..]), old(appliedLog), old(skippedLog)), Corrections, updateSummaries)
      ensures made == |appliedLog| - |old(appliedLog)|
    {
      made := ApplyEach(rows, Corrections, updateSummaries);
    }

    /** The loop of `apply_source_corrections` over a table `cs`. */
    method ApplyEach(rows: array<Entry>, cs: seq<Correction>, updateSummaries: bool) returns (made: nat)
      modifies this, rows
      ensures State(rows[..], appliedLog, skippedLog)
        == ApplyAll(State(old(rows[..]), old(appliedLog), old(skippedLog)), cs, updateSummaries)
      ensures made == |appliedLog| - |old(appliedLog)|
    {
      ghost var start := State(rows[..], appliedLog, skippedLog);
      made := 0;
      for k := 0 to |cs|
        invariant State(rows[..], appliedLog, skippedLog) == ApplyAll(start, cs[..k], updateSummaries)
        invariant |appliedLog| == |start.applied| + made
      {
        assert cs[..k + 1][..k] == cs[..k];
        var applied := ApplyCorrection(rows, cs[k], updateSummaries);
        if applied {
          made := made + 1;
        }
      }
      assert cs[..|cs|] == cs;
    }
  }

  /** The first match in a prefix that ends at a match. */
  lemma FirstIndexPrefix(rows: seq<Entry>, m: nat, n: int)
    requires 0 < m <= |rows| && rows[m - 1].seqNum == n && FirstIndex(rows[..m - 1], n).None?
    ensures FirstIndex(rows, n) == Some(m - 1)
  {
    FirstIndexUnique(rows, n, m - 1);
  }

  /** The first index is determined by the entries' numbers. */
  lemma FirstIndexUnique(rows: seq<Entry>, n: int, i: nat)
    requires i < |rows| && rows[i].seqNum == n
    requires forall j :: 0 <= j < i ==> rows[j].seqNum != n
    ensures FirstIndex(rows, n) == Some(i)
  {
  }

  /** `find_entry_by_sequential_number` depends only on the numbers of the entries. */
  lemma FirstIndexSameNumbers(rows: seq<Entry>, rows': seq<Entry>, n: int)
    requires |rows| == |rows'| && forall j :: 0 <= j < |rows| ==> rows[j].seqNum == rows'[j].seqNum
    ensures FirstIndex(rows, n) == FirstIndex(rows', n)
  {
    var r := FirstIndex(rows, n);
    if r.Some? {
      FirstIndexUnique(rows', n, r.value);
    }
  }

  // ---------------------------------------------------------------------------
  // Properties

  /** One correction: it is logged exactly once, as applied or skipped; only the first entry with
      its number can change, and only when its stripped source is the expected old one; numbers
      and type labels never change. */
  lemma StepEffect(st: State, c: Correction, updateSummaries: bool)
    ensures var st' := Step(st, c, updateSummaries);
      && |st'.rows| == |st.rows|
      && |st'.applied| + |st'.skipped| == |st.applied| + |st.skipped| + 1
      && st.applied <= st'.applied && st.skipped <= st'.skipped
      && (forall j :: 0 <= j < |st.rows| ==>
            st'.rows[j].seqNum == st.rows[j].seqNum && st'.rows[j].typeNumber == st.rows[j].typeNumber)
      && (forall j :: 0 <= j < |st.rows| && st'.rows[j] != st.rows[j] ==>
            FirstIndex(st.rows, c.seqNum) == Some(j) && Strip(st.rows[j].source) == c.currentSource
            && st'.rows[j] == Patched(st.rows[j], c, updateSummaries))
      && (|st'.applied| > |st.applied| <==>
            FirstIndex(st.rows, c.seqNum).Some? && Strip(st.rows[FirstIndex(st.rows, c.seqNum).value].source) == c.currentSource)
  {
  }

  /** The whole table: every correction is logged once, and the logs only grow. */
  lemma {:induction false} ApplyAllLogs(st: State, cs: seq<Correction>, updateSummaries: bool)
    ensures var st' := ApplyAll(st, cs, updateSummaries);
      && |st'.rows| == |st.rows|
      && |st'.applied| + |st'.skipped| == |st.applied| + |st.skipped| + |cs|
      && st.applied <= st'.applied && st.skipped <= st'.skipped
  {
    if cs != [] {
      var mid := ApplyAll(st, cs[..|cs| - 1], updateSummaries);
      ApplyAllLogs(st, cs[..|cs| - 1], updateSummaries);
      StepEffect(mid, cs[|cs| - 1], updateSummaries);
    }
  }

  /** Nothing else changes: an entry whose number is in no correction keeps every field, and no
      entry's number or type label changes. */
  lemma {:induction false} ApplyAllUntouched(st: State, cs: seq<Correction>, updateSummaries: bool)
    ensures var st' := ApplyAll(st, cs, updateSummaries);
      && |st'.rows| == |st.rows|
      && (forall j :: 0 <= j < |st.rows| ==>
            st'.rows[j].seqNum == st.rows[j].seqNum && st'.rows[j].typeNumber == st.rows[j].typeNumber)
      && (forall j :: 0 <= j < |st.rows| && (forall k :: 0 <= k < |cs| ==> cs[k].seqNum != st.rows[j].seqNum)
            ==> st'.rows[j] == st.rows[j])
  {
    if cs != [] {
      var mid := ApplyAll(st, cs[..|cs| - 1], updateSummaries);
      ApplyAllUntouched(st, cs[..|cs| - 1], updateSummaries);
      StepEffect(mid, cs[|cs| - 1], updateSummaries);
      forall j | 0 <= j < |st.rows| && (forall k :: 0 <= k < |cs| ==> cs[k].seqNum != st.rows[j].seqNum)
        ensures ApplyAll(st, cs, updateSummaries).rows[j] == st.rows[j]
      {
        assert forall k :: 0 <= k < |cs| - 1 ==> cs[..|cs| - 1][k] == cs[k];
        var f := FirstIndex(mid.rows, cs[|cs| - 1].seqNum);
        assert f != Some(j);
      }
    }
  }

  /** A correction is settled in `rows` when running it again would change nothing: its entry is
      absent or no longer holds the expected old source. */
  predicate Settled(rows: seq<Entry>, c: Correction) {
    match FirstIndex(rows, c.seqNum)
    case None => true
    case Some(i) => Strip(rows[i].source) != c.currentSource
  }

  /** A table whose keys are distinct and whose new sources differ from the old ones. */
  predicate WellFormed(cs: seq<Correction>) {
    DistinctKeys(cs) && forall i :: 0 <= i < |cs| ==> Strip(cs[i].correctSource) != cs[i].currentSource
  }

  predicate DistinctKeys(cs: seq<Correction>) {
    forall i, j :: 0 <= i < j < |cs| ==> cs[i].seqNum != cs[j].seqNum
  }

  /** A step for one key leaves a correction for another key as settled as it was. */
  lemma StepKeepsSettled(st: State, c: Correction, d: Correction, updateSummaries: bool)
    requires c.seqNum != d.seqNum && Settled(st.rows, d)
    ensures Settled(Step(st, c, updateSummaries).rows, d)
  {
    var st' := Step(st, c, updateSummaries);
    StepEffect(st, c, updateSummaries);
    FirstIndexSameNumbers(st.rows, st'.rows, d.seqNum);
    var f := FirstIndex(st.rows, d.seqNum);
    if f.Some? {
      assert FirstIndex(st.rows, c.seqNum) != f;
    }
  }

  /** After a pass over a well-formed table, every correction in it is settled. */
  lemma {:induction false} ApplyAllSettles(st: State, cs: seq<Correction>, updateSummaries: bool)
    requires WellFormed(cs)
    ensures forall k :: 0 <= k < |cs| ==> Settled(ApplyAll(st, cs, updateSummaries).rows, cs[k])
  {
    if cs != [] {
      var init := cs[..|cs| - 1];
      var c := cs[|cs| - 1];
      var mid := ApplyAll(st, init, updateSummaries);
      assert forall k :: 0 <= k < |init| ==> init[k] == cs[k];
      ApplyAllSettles(st, init, updateSummaries);
      forall k | 0 <= k < |cs| ensures Settled(Step(mid, c, updateSummaries).rows, cs[k]) {
        if k < |cs| - 1 {
          StepKeepsSettled(mid, c, cs[k], updateSummaries);
        } else {
          StepEffect(mid, c, updateSummaries);
          var st' := Step(mid, c, updateSummaries);
          FirstIndexSameNumbers(mid.rows, st'.rows, c.seqNum);
        }
      }
    }
  }

  /** A pass over settled corrections leaves every entry as it is. */
  lemma {:induction false} ApplySettledChangesNothing(st: State, cs: seq<Correction>, updateSummaries: bool)
    requires forall k :: 0 <= k < |cs| ==> Settled(st.rows, cs[k])
    ensures ApplyAll(st, cs, updateSummaries).rows == st.rows
  {
    if cs != [] {
      assert forall k :: 0 <= k < |cs| - 1 ==> cs[..|cs| - 1][k] == cs[k];
      ApplySettledChangesNothing(st, cs[..|cs| - 1], updateSummaries);
      assert Settled(st.rows, cs[|cs| - 1]);
    }
  }

  /** The table's keys are distinct and each correct source differs from the expected old one. */
  lemma CorrectionsWellFormed()
    ensures WellFormed(Corrections)
  {
    CorrectionKeysDistinct();
    forall i | 0 <= i < |Corrections|
      ensures Strip(Corrections[i].correctSource) != Corrections[i].currentSource
    {
      var s := Corrections[i].correctSource;
      assert s != [] && !IsSpace(s[0]) && !IsSpace(s[|s| - 1]);
      StripKeeps(s);
    }
  }

  lemma CorrectionKeysDistinct()
    ensures DistinctKeys(Corrections)
  {
    var keys := seq(|Corrections|, i requires 0 <= i < |Corrections| => Corrections[i].seqNum);
    assert keys == [28, 19, 33, 139, 94, 104, 98, 158, 173, 174];
    assert forall i, j :: 0 <= i < j < |keys| ==> keys[i] != keys[j];
  }

  /** Running the script a second time changes no entry: the guard makes it idempotent. */
  lemma SecondRunChangesNothing(st: State, updateSummaries: bool, updateSummaries2: bool)
    ensures var once := ApplyAll(st, Corrections, updateSummaries);
      ApplyAll(once, Corrections, updateSummaries2).rows == once.rows
  {
    CorrectionsWellFormed();
    ApplyAllSettles(st, Corrections, updateSummaries);
    ApplySettledChangesNothing(ApplyAll(st, Corrections, updateSummaries), Corrections, updateSummaries2);
  }

  // ---------------------------------------------------------------------------
  // save_corrected_schedule

  /** The row written out: every field whose name does not start with '_'. */
  function OutputRow(row: map<string, string>): (r: map<string, string>)
    ensures forall k :: k in r <==> k in row && !StartsWith(k, "_")
    ensures forall k :: k in r ==> r[k] == row[k]
  {
    map k | k in row && !StartsWith(k, "_") :: row[k]
  }

  /** The internal `_row_number` field never reaches the file, and filtering twice is filtering once. */
  lemma OutputRowDropsTracking(row: map<string, string>, v: string)
    ensures OutputRow(row["_row_number" := v]) == OutputRow(row)
    ensures OutputRow(OutputRow(row)) == OutputRow(row)
  {
    assert StartsWith("_row_number", "_");
  }
}
