/** archive/convert_schedule_for_lambda.py: the schedule rows are grouped by their Date string,
    keeping file order inside each date; the dates are taken in ascending string order and each
    becomes one daily entry whose numbers are joined with ", ", whose titles are joined with " & ",
    whose source labels are the distinct labels derived from the links, and whose link is a single
    string for a one-row day and the list of links otherwise. The embedded code cuts titles longer
    than 200 characters to 200 characters and "...". */
module LambdaConvert {
  import opened Common
  import ScheduleRows

  /** A row of the schedule CSV, by the columns the converter reads. */
  datatype CsvRow = CsvRow(date: string, sequentialNumber: string, typeNumber: string, summary: string, link: string)

  /** The dictionary appended to `daily_entries[date]`. */
  datatype Entry = Entry(sequentialNumber: string, typeNumber: string, summary: string, link: string)

  function EntryOf(row: CsvRow): Entry {
    Entry(row.sequentialNumber, row.typeNumber, row.summary, row.link)
  }

  // ---------------------------------------------------------------------------
  // String order (Python's `<` on `str`: code point by code point, a proper prefix first)

  predicate StrLess(a: string, b: string) {
    if a == [] then b != []
    else if b == [] then false
    else if a[0] != b[0] then a[0] < b[0]
    else StrLess(a[1..], b[1..])
  }

  lemma {:induction false} StrLessIrreflexive(a: string)
    ensures !StrLess(a, a)
  {
    if a != [] {
      StrLessIrreflexive(a[1..]);
    }
  }

  lemma {:induction false} StrLessTransitive(a: string, b: string, c: string)
    requires StrLess(a, b) && StrLess(b, c)
    ensures StrLess(a, c)
  {
    if a != [] && b != [] && c != [] && a[0] == b[0] && b[0] == c[0] {
      StrLessTransitive(a[1..], b[1..], c[1..]);
    }
  }

  lemma {:induction false} StrLessTotal(a: string, b: string)
    requires a != b
    ensures StrLess(a, b) || StrLess(b, a)
  {
    if a != [] && b != [] && a[0] == b[0] {
      assert a == [a[0]] + a[1..] && b == [b[0]] + b[1..];
      StrLessTotal(a[1..], b[1..]);
    }
  }

  ghost predicate StrictlySorted(s: seq<string>) {
    forall i, j :: 0 <= i < j < |s| ==> StrLess(s[i], s[j])
  }

  /** `x` placed into a sorted sequence of distinct strings. */
  function InsertSorted(s: seq<string>, x: string): (r: seq<string>)
    requires StrictlySorted(s) && x !in s
    ensures StrictlySorted(r) && |r| == |s| + 1
    ensures forall k :: k in r <==> k in s || k == x
  {
    if s == [] then [x]
    else
      StrLessTotal(x, s[0]);
      if StrLess(x, s[0]) then
        forall j | 0 <= j < |s| ensures StrLess(x, s[j]) {
          if j > 0 { StrLessTransitive(x, s[0], s[j]); }
        }
        [x] + s
      else
        var rest := InsertSorted(s[1..], x);
        assert forall k :: k in rest ==> StrLess(s[0], k) by {
          forall k | k in rest ensures StrLess(s[0], k) {
            if k != x {
              var j :| 0 <= j < |s| - 1 && s[1..][j] == k;
              assert s[j + 1] == k;
            }
          }
        }
        assert forall j :: 0 < j < |rest| + 1 ==> ([s[0]] + rest)[j] == rest[j - 1];
        [s[0]] + rest
  }

  predicate Distinct(s: seq<string>) {
    forall i, j :: 0 <= i < j < |s| ==> s[i] != s[j]
  }

  /** `sorted(keys)` for distinct keys. */
  function SortedOf(keys: seq<string>): (r: seq<string>)
    requires Distinct(keys)
    ensures StrictlySorted(r) && |r| == |keys|
    ensures forall k :: k in r <==> k in keys
  {
    if keys == [] then []
    else
      var init := keys[..|keys| - 1];
      assert forall k :: k in init ==> k != keys[|keys| - 1];
      InsertSorted(SortedOf(init), keys[|keys| - 1])
  }

  // ---------------------------------------------------------------------------
  // Grouping: `daily_entries[row['Date']].append(...)`

  /** A defaultdict(list) keyed by date: its keys in insertion order and its lists. */
  datatype Groups = Groups(order: seq<string>, byDate: map<string, seq<Entry>>)

  ghost predicate GroupsValid(g: Groups) {
    && Distinct(g.order)
    && (forall d :: d in g.byDate <==> d in g.order)
    && (forall d :: d in g.byDate ==> g.byDate[d] != [])
  }

  function Append(g: Groups, date: string, e: Entry): (r: Groups)
    requires GroupsValid(g)
    ensures GroupsValid(r)
  {
    if date in g.byDate then Groups(g.order, g.byDate[date := g.byDate[date] + [e]])
    else Groups(g.order + [date], g.byDate[date := [e]])
  }

  function GroupRows(rows: seq<CsvRow>): (g: Groups)
    ensures GroupsValid(g)
  {
    if rows == [] then Groups([], map[])
    else Append(GroupRows(rows[..|rows| - 1]), rows[|rows| - 1].date, EntryOf(rows[|rows| - 1]))
  }

  /** The first loop: every row appended under its date. */
  method GroupByDate(rows: seq<CsvRow>) returns (dailyEntries: Groups)
    ensures dailyEntries == GroupRows(rows)
  {
    dailyEntries := Groups([], map[]);
    for i := 0 to |rows|
      invariant dailyEntries == GroupRows(rows[..i])
    {
      assert rows[..i + 1][..i] == rows[..i];
      var row := rows[i];
      if row.date in dailyEntries.byDate {
        dailyEntries := Groups(dailyEntries.order,
                               dailyEntries.byDate[row.date := dailyEntries.byDate[row.date] + [EntryOf(row)]]);
      } else {
        dailyEntries := Groups(dailyEntries.order + [row.date], dailyEntries.byDate[row.date := [EntryOf(row)]]);
      }
    }
    assert rows[..|rows|] == rows;
  }

  // ---------------------------------------------------------------------------
  // One day

  /** The label derived from a Sefaria link, tested in the script's order. */
  function SourceLabel(link: string): (r: string)
    ensures r in SourceLabels
  {
    if Contains(link, "Shorashim") then "Sefer HaMitzvos Introduction"
    else if Contains(link, "Positive_Commandments") then "Sefer HaMitzvos Positive"
    else if Contains(link, "Negative_Commandments") then "Sefer HaMitzvos Negative"
    else if Contains(link, "Conclusion") then "Sefer HaMitzvos Conclusion"
    else "Sefer HaMitzvos"
  }

  const SourceLabels: set<string> := {"Sefer HaMitzvos Introduction", "Sefer HaMitzvos Positive",
    "Sefer HaMitzvos Negative", "Sefer HaMitzvos Conclusion", "Sefer HaMitzvos"}

  /** `sefaria_links[0] if len(sefaria_links) == 1 else sefaria_links` */
  datatype Links = One(link: string) | Many(links: seq<string>)

  /** A value of `embedded_data`; `sources` is the set the script joins in its own iteration
      order. */
  datatype DayEntry = DayEntry(date: string, mitzvos: string, titles: string, sources: set<string>, link: Links)

  function TypeNumbers(entries: seq<Entry>): seq<string> {
    seq(|entries|, i requires 0 <= i < |entries| => entries[i].typeNumber)
  }

  function Titles(entries: seq<Entry>): seq<string> {
    seq(|entries|, i requires 0 <= i < |entries| => entries[i].summary)
  }

  function LinksOf(entries: seq<Entry>): seq<string> {
    seq(|entries|, i requires 0 <= i < |entries| => entries[i].link)
  }

  function SourcesOf(entries: seq<Entry>): seq<string> {
    seq(|entries|, i requires 0 <= i < |entries| => SourceLabel(entries[i].link))
  }

  /** The consolidated entry for one date. */
  function DayOf(date: string, entries: seq<Entry>): (r: DayEntry)
    ensures r.date == date && r.sources <= SourceLabels
    ensures r.mitzvos == Join(TypeNumbers(entries), ", ") && r.titles == Join(Titles(entries), " & ")
    ensures r.link.One? <==> |entries| == 1
    ensures r.link.Many? ==> r.link.links == LinksOf(entries)
    ensures forall e :: e in entries ==> SourceLabel(e.link) in r.sources
    ensures forall s :: s in r.sources ==> exists e :: e in entries && SourceLabel(e.link) == s
    ensures |entries| == 1 ==> r == DayEntry(date, entries[0].typeNumber, entries[0].summary,
                                             {SourceLabel(entries[0].link)}, One(entries[0].link))
  {
    var sources := SourcesOf(entries);
    var links := LinksOf(entries);
    assert forall e :: e in entries ==> SourceLabel(e.link) in sources by {
      forall e | e in entries ensures SourceLabel(e.link) in sources {
        var i :| 0 <= i < |entries| && entries[i] == e;
        assert sources[i] == SourceLabel(e.link);
      }
    }
    assert forall s :: s in sources ==> exists e :: e in entries && SourceLabel(e.link) == s by {
      forall s | s in sources ensures exists e :: e in entries && SourceLabel(e.link) == s {
        var i :| 0 <= i < |sources| && sources[i] == s;
        assert entries[i] in entries;
      }
    }
    DayEntry(date, Join(TypeNumbers(entries), ", "), Join(Titles(entries), " & "),
             set s | s in sources,
             if |links| == 1 then One(links[0]) else Many(links))
  }

  /** The inner loop over one date's entries. */
  method ConsolidateDay(date: string, entries: seq<Entry>) returns (embeddedEntry: DayEntry)
    ensures embeddedEntry == DayOf(date, entries)
  {
    var mitzvosNumbers: seq<string> := [];
    var titles: seq<string> := [];
    var sources: seq<string> := [];
    var sefariaLinks: seq<string> := [];
    for i := 0 to |entries|
      invariant mitzvosNumbers == TypeNumbers(entries[..i]) && titles == Titles(entries[..i])
      invariant sources == SourcesOf(entries[..i]) && sefariaLinks == LinksOf(entries[..i])
    {
      var entry := entries[i];
      mitzvosNumbers := mitzvosNumbers + [entry.typeNumber];
      titles := titles + [entry.summary];
      sefariaLinks := sefariaLinks + [entry.link];
      if Contains(entry.link, "Shorashim") {
        sources := sources + ["Sefer HaMitzvos Introduction"];
      } else if Contains(entry.link, "Positive_Commandments") {
        sources := sources + ["Sefer HaMitzvos Positive"];
      } else if Contains(entry.link, "Negative_Commandments") {
        sources := sources + ["Sefer HaMitzvos Negative"];
      } else if Contains(entry.link, "Conclusion") {
        sources := sources + ["Sefer HaMitzvos Conclusion"];
      } else {
        sources := sources + ["Sefer HaMitzvos"];
      }
    }
    assert entries[..|entries|] == entries;
    embeddedEntry := DayEntry(date, Join(mitzvosNumbers, ", "), Join(titles, " & "), set s | s in sources,
                              if |sefariaLinks| == 1 then One(sefariaLinks[0]) else Many(sefariaLinks));
  }

  // ---------------------------------------------------------------------------
  // convert_csv_to_embedded_format

  /** The converter's result: one daily entry per distinct date, in ascending date order. */
  function Embedded(rows: seq<CsvRow>): seq<DayEntry> {
    var g := GroupRows(rows);
    var dates := SortedOf(g.order);
    seq(|dates|, k requires 0 <= k < |dates| => DayOf(dates[k], g.byDate[dates[k]]))
  }

  /** `convert_csv_to_embedded_format` without the file read. */
  method ConvertCsvToEmbeddedFormat(rows: seq<CsvRow>) returns (embeddedData: seq<DayEntry>)
    ensures embeddedData == Embedded(rows)
  {
    var dailyEntries := GroupByDate(rows);
    var dates := SortedOf(dailyEntries.order);
    embeddedData := ConsolidateDays(dates, dailyEntries.byDate);
  }

  /** The loop over `sorted(daily_entries.items())`. */
  method ConsolidateDays(dates: seq<string>, byDate: map<string, seq<Entry>>) returns (embeddedData: seq<DayEntry>)
    requires forall d :: d in dates ==> d in byDate
    ensures embeddedData == seq(|dates|, k requires 0 <= k < |dates| => DayOf(dates[k], byDate[dates[k]]))
  {
    embeddedData := [];
    for i := 0 to |dates|
      invariant |embeddedData| == i
      invariant forall k :: 0 <= k < i ==> embeddedData[k] == DayOf(dates[k], byDate[dates[k]])
    {
      var embeddedEntry := ConsolidateDay(dates[i], byDate[dates[i]]);
      embeddedData := embeddedData + [embeddedEntry];
    }
  }

  // ---------------------------------------------------------------------------
  // generate_embedded_code: the title cut

  function TruncateTitle(title: string): (r: string)
    ensures |title| <= 200 ==> r == title
    ensures |title| > 200 ==> |r| == 203 && r[..200] == title[..200] && r[200..] == "..."
  {
    if |title| > 200 then title[..200] + "..." else title
  }

  // ---------------------------------------------------------------------------
  // Properties

  /** The entries of the rows dated `d`, in file order. */
  function EntriesOn(rows: seq<CsvRow>, d: string): (r: seq<Entry>)
    ensures |r| <= |rows|
  {
    if rows == [] then []
    else EntriesOn(rows[..|rows| - 1], d) + (if rows[|rows| - 1].date == d then [EntryOf(rows[|rows| - 1])] else [])
  }

  /** Grouping keeps exactly the dates that occur, and under each date the entries of its rows in
      file order. */
  lemma {:induction false} GroupingKeepsOrder(rows: seq<CsvRow>, d: string)
    ensures d in GroupRows(rows).byDate <==> exists i :: 0 <= i < |rows| && rows[i].date == d
    ensures d in GroupRows(rows).byDate ==> GroupRows(rows).byDate[d] == EntriesOn(rows, d)
    ensures d !in GroupRows(rows).byDate ==> EntriesOn(rows, d) == []
  {
    if rows != [] {
      var init := rows[..|rows| - 1];
      GroupingKeepsOrder(init, d);
      AppendAt(GroupRows(init), rows[|rows| - 1].date, EntryOf(rows[|rows| - 1]), d);
      OccursStep(rows, init, d);
    }
  }

  /** Appending an entry changes only the group of its own date, by adding the entry at its end. */
  lemma AppendAt(g: Groups, date: string, e: Entry, d: string)
    requires GroupsValid(g)
    ensures var h := Append(g, date, e);
      && (d in h.byDate <==> d in g.byDate || date == d)
      && (d in h.byDate ==> h.byDate[d] == (if d in g.byDate then g.byDate[d] else [])
                                           + (if date == d then [e] else []))
  {
  }

  /** A date occurs in the rows exactly when it occurs before the last row or in it. */
  lemma OccursStep(rows: seq<CsvRow>, init: seq<CsvRow>, d: string)
    requires rows != [] && init == rows[..|rows| - 1]
    ensures (exists i :: 0 <= i < |rows| && rows[i].date == d)
        <==> (exists i :: 0 <= i < |init| && init[i].date == d) || rows[|rows| - 1].date == d
  {
    assert forall i :: 0 <= i < |init| ==> init[i] == rows[i];
  }

  /** The number of entries across the groups. */
  function Total(order: seq<string>, byDate: map<string, seq<Entry>>): nat
    requires forall d :: d in order ==> d in byDate
  {
    if order == [] then 0 else Total(order[..|order| - 1], byDate) + |byDate[order[|order| - 1]]|
  }

  lemma {:induction false} TotalUpdate(order: seq<string>, byDate: map<string, seq<Entry>>, d: string, v: seq<Entry>)
    requires forall k :: k in order ==> k in byDate
    requires Distinct(order) && d in order
    ensures Total(order, byDate[d := v]) + |byDate[d]| == Total(order, byDate) + |v|
  {
    var init := order[..|order| - 1];
    var last := order[|order| - 1];
    if last == d {
      assert d !in init;
      TotalUnchanged(init, byDate, d, v);
    } else {
      TotalUpdate(init, byDate, d, v);
    }
  }

  lemma {:induction false} TotalUnchanged(order: seq<string>, byDate: map<string, seq<Entry>>, d: string, v: seq<Entry>)
    requires forall k :: k in order ==> k in byDate
    requires d !in order
    ensures Total(order, byDate[d := v]) == Total(order, byDate)
  {
    if order != [] {
      TotalUnchanged(order[..|order| - 1], byDate, d, v);
    }
  }

  /** Every row lands in exactly one group: the groups hold as many entries as there are rows. */
  lemma {:induction false} GroupingConservesRows(rows: seq<CsvRow>)
    ensures Total(GroupRows(rows).order, GroupRows(rows).byDate) == |rows|
  {
    if rows != [] {
      var init := rows[..|rows| - 1];
      var g := GroupRows(init);
      var row := rows[|rows| - 1];
      GroupingConservesRows(init);
      if row.date in g.byDate {
        TotalUpdate(g.order, g.byDate, row.date, g.byDate[row.date] + [EntryOf(row)]);
      } else {
        TotalUnchanged(g.order, g.byDate, row.date, [EntryOf(row)]);
        assert (g.order + [row.date])[..|g.order|] == g.order;
      }
    }
  }

  function DayDates(out: seq<DayEntry>): seq<string> {
    seq(|out|, k requires 0 <= k < |out| => out[k].date)
  }

  function RowDates(rows: seq<CsvRow>): seq<string> {
    seq(|rows|, i requires 0 <= i < |rows| => rows[i].date)
  }

  /** The daily entries are in strictly ascending date order, one for each date that occurs. */
  lemma EmbeddedDates(rows: seq<CsvRow>)
    ensures var out := Embedded(rows);
      && (forall i, j :: 0 <= i < j < |out| ==> StrLess(out[i].date, out[j].date))
      && (forall d :: d in DayDates(out) <==> d in RowDates(rows))
  {
    var g := GroupRows(rows);
    var dates := SortedOf(g.order);
    DaysKeepDates(dates, g.byDate);
    GroupDates(rows);
  }

  lemma DaysKeepDates(dates: seq<string>, byDate: map<string, seq<Entry>>)
    requires forall d :: d in dates ==> d in byDate
    ensures DayDates(seq(|dates|, k requires 0 <= k < |dates| => DayOf(dates[k], byDate[dates[k]]))) == dates
  {
  }

  /** The grouping's keys are the dates of the rows. */
  lemma GroupDates(rows: seq<CsvRow>)
    ensures forall d :: d in GroupRows(rows).order <==> d in RowDates(rows)
  {
    forall d ensures d in GroupRows(rows).byDate <==> d in RowDates(rows) {
      GroupingKeepsOrder(rows, d);
      if d in RowDates(rows) {
        var i :| 0 <= i < |rows| && RowDates(rows)[i] == d;
        assert rows[i].date == d;
      }
      if d in GroupRows(rows).byDate {
        var i :| 0 <= i < |rows| && rows[i].date == d;
        assert RowDates(rows)[i] == d;
      }
    }
  }

  /** Each daily entry lists its date's rows in file order. */
  lemma EmbeddedDay(rows: seq<CsvRow>, k: nat)
    requires k < |Embedded(rows)|
    ensures var day := Embedded(rows)[k];
      day == DayOf(day.date, EntriesOn(rows, day.date))
  {
    var g := GroupRows(rows);
    var dates := SortedOf(g.order);
    GroupingKeepsOrder(rows, dates[k]);
  }

  /** An introduction link is labelled as the introduction. */
  lemma IntroLinkLabel(n: nat)
    ensures SourceLabel(ScheduleRows.IntroLink(n)) == "Sefer HaMitzvos Introduction"
  {
    var link := ScheduleRows.IntroLink(n);
    var at := |ScheduleRows.LinkBase|;
    assert link[at..][..9] == "Shorashim";
    ContainsAt(link, "Shorashim");
  }
}
