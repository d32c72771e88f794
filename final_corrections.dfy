/** scripts/apply_final_corrections.py: a table of ten citation fixes keyed by type label
    ("Positive 5", ...). Each schedule row whose stripped type label is in the table and whose
    stripped source equals the table's wrong source gets the correct source; every row is kept in
    order; the run succeeds exactly when the number of fixes equals the size of the table. */
module FinalCorrections {
  import opened Common

  /** A schedule row: the two columns the script reads, and the others carried along unchanged. */
  datatype Row = Row(typeNumber: string, source: string, others: map<string, string>)

  /** One value of FINAL_SOURCE_CORRECTIONS. */
  datatype FinalCorrection = FinalCorrection(correctSource: string, wrongSource: string, mitzvah: string)

  /** The table, keyed by type label. */
  const FinalSourceCorrections: map<string, FinalCorrection> := map[
    "Positive 5" := FinalCorrection("Devarim 10:20", "Shemos 23:25", "To fear Him / Prayer"),
    "Positive 14" := FinalCorrection("Devarim 10:19", "Bamidbar 15:38", "To love converts"),
    "Positive 19" := FinalCorrection("Vayikra 19:16", "Devarim 8:10", "Not to gossip about others"),
    "Positive 80" := FinalCorrection("Devarim 6:8", "Bamidbar 18:15", "To bind tefillin on the arm"),
    "Positive 84" := FinalCorrection("Bamidbar 15:38", "Devarim 12:11", "To have Tzitzit on four-cornered garments"),
    "Positive 90" := FinalCorrection("Shemos 16:29", "Shemos 30:19",
                                     "Not to walk more than 2000 cubits outside city boundary on Shabbat"),
    "Positive 125" := FinalCorrection("Bereishis 1:28", "Shemos 23:19", "To have children with one's wife"),
    "Positive 144" := FinalCorrection("Vayikra 18:10", "Devarim 18:4", "Not to have sexual relations with your daughter"),
    "Positive 159" := FinalCorrection("Vayikra 18:14", "Vayikra 23:8", "Not to have homosexual sexual relations"),
    "Positive 160" := FinalCorrection("Vayikra 18:20", "Vayikra 23:8", "Not to have sexual relations with a married woman")
  ]

  /** The guard of the loop body: the row's label is a key and its source is the wrong one. */
  predicate Corrected(table: map<string, FinalCorrection>, row: Row) {
    var key := Strip(row.typeNumber);
    key in table && Strip(row.source) == table[key].wrongSource
  }

  /** The row as appended to `schedule_rows`: only the source can change; with a well-formed
      table it changes exactly when the guard holds, and the guard no longer holds afterwards. */
  function FinalRow(table: map<string, FinalCorrection>, row: Row): (r: Row)
    ensures r.typeNumber == row.typeNumber && r.others == row.others
    ensures Corrected(table, row) ==> r.source == table[Strip(row.typeNumber)].correctSource
    ensures WellFormed(table) ==> (r != row <==> Corrected(table, row))
    ensures WellFormed(table) ==> !Corrected(table, r)
  {
    if Corrected(table, row) then row.(source := table[Strip(row.typeNumber)].correctSource)
    else row
  }

  /** The number of rows the loop corrects. */
  function CountCorrected(table: map<string, FinalCorrection>, rows: seq<Row>): (n: nat)
    ensures n <= |rows|
  {
    if rows == [] then 0
    else CountCorrected(table, rows[..|rows| - 1]) + (if Corrected(table, rows[|rows| - 1]) then 1 else 0)
  }

  /** `apply_final_corrections`: the loop over the rows read from the file; `success` is its
      return value. */
  method ApplyFinalCorrections(rows: seq<Row>) returns (scheduleRows: seq<Row>, correctionsApplied: nat, success: bool)
    ensures |scheduleRows| == |rows|
    ensures forall i :: 0 <= i < |rows| ==> scheduleRows[i] == FinalRow(FinalSourceCorrections, rows[i])
    ensures correctionsApplied == CountCorrected(FinalSourceCorrections, rows)
    ensures success <==> correctionsApplied == |FinalSourceCorrections|
  {
    scheduleRows, correctionsApplied := CorrectRows(FinalSourceCorrections, rows);
    success := correctionsApplied == |FinalSourceCorrections|;
  }

  /** The row loop, for a given table. */
  method CorrectRows(table: map<string, FinalCorrection>, rows: seq<Row>)
    returns (scheduleRows: seq<Row>, correctionsApplied: nat)
    ensures |scheduleRows| == |rows|
    ensures forall i :: 0 <= i < |rows| ==> scheduleRows[i] == FinalRow(table, rows[i])
    ensures correctionsApplied == CountCorrected(table, rows)
  {
    scheduleRows := [];
    correctionsApplied := 0;
    for i := 0 to |rows|
      invariant |scheduleRows| == i
      invariant forall j :: 0 <= j < i ==> scheduleRows[j] == FinalRow(table, rows[j])
      invariant correctionsApplied == CountCorrected(table, rows[..i])
    {
      assert rows[..i + 1][..i] == rows[..i];
      var row, applied := CorrectRow(table, rows[i]);
      if applied {
        correctionsApplied := correctionsApplied + 1;
      }
      scheduleRows := scheduleRows + [row];
    }
    assert rows[..|rows|] == rows;
  }

  /** The body of the loop for one row: check the guard and patch the source. */
  method CorrectRow(table: map<string, FinalCorrection>, row: Row) returns (row': Row, applied: bool)
    ensures row' == FinalRow(table, row) && (applied <==> Corrected(table, row))
  {
    row' := row;
    applied := false;
    var mitzvahTypeNumber := Strip(row.typeNumber);
    var currentSource := Strip(row.source);
    if mitzvahTypeNumber in table {
      var correction := table[mitzvahTypeNumber];
      if currentSource == correction.wrongSource {
        row' := row.(source := correction.correctSource);
        applied := true;
      }
    }
  }

  // ---------------------------------------------------------------------------
  // Properties

  /** Each correct source differs from the wrong source it replaces, even after stripping. */
  predicate WellFormed(table: map<string, FinalCorrection>) {
    forall k :: k in table ==> Strip(table[k].correctSource) != table[k].wrongSource
  }

  lemma CorrectSourcesDiffer()
    ensures WellFormed(FinalSourceCorrections)
  {
    forall k | k in FinalSourceCorrections
      ensures Strip(FinalSourceCorrections[k].correctSource) != FinalSourceCorrections[k].wrongSource
    {
      var s := FinalSourceCorrections[k].correctSource;
      assert s != [] && !IsSpace(s[0]) && !IsSpace(s[|s| - 1]);
      StripKeeps(s);
    }
  }

  lemma {:induction false} CountZero(table: map<string, FinalCorrection>, rows: seq<Row>)
    requires forall i :: 0 <= i < |rows| ==> !Corrected(table, rows[i])
    ensures CountCorrected(table, rows) == 0
  {
    if rows != [] {
      CountZero(table, rows[..|rows| - 1]);
    }
  }

  /** Running the script a second time changes no row, applies no correction and so reports
      failure. */
  lemma SecondRunIsNoOp(rows: seq<Row>)
    ensures var once := seq(|rows|, i requires 0 <= i < |rows| => FinalRow(FinalSourceCorrections, rows[i]));
      && (forall i :: 0 <= i < |once| ==> FinalRow(FinalSourceCorrections, once[i]) == once[i])
      && CountCorrected(FinalSourceCorrections, once) == 0
  {
    CorrectSourcesDiffer();
    var once := seq(|rows|, i requires 0 <= i < |rows| => FinalRow(FinalSourceCorrections, rows[i]));
    assert forall i :: 0 <= i < |once| ==> !Corrected(FinalSourceCorrections, once[i]);
    CountZero(FinalSourceCorrections, once);
  }
}
