/** The row the schedule generators write (columns Date, Sequential_Number,
    Mitzvah_Type_Number, Summary, Sefaria_Link) and the label and link formats they share. */
module ScheduleRows {
  import opened Common

  /** A calendar day as a proleptic Gregorian ordinal (`date.toordinal()`). */
  type Day = int

  /** 2025-10-20, the first day of the cycle. */
  const StartDay: Day := 739544

  /** 2026-10-04, the last day of the cycle (350 days inclusive). */
  const EndDay: Day := 739893

  datatype ScheduleRow = ScheduleRow(date: Day, seqNum: int, entry: string, summary: string, link: string)

  /** The raw text of one corpus entry as the JSON holds it: absent, one string, or a list of
      variant strings. */
  datatype RawText = Missing | Text(s: string) | Variants(items: seq<string>)

  /** Python's `not mitzvah_text`. */
  predicate IsFalsy(t: RawText) {
    t.Missing? || (t.Text? && t.s == "") || (t.Variants? && t.items == [])
  }

  /** `str(x[0] if isinstance(x, list) else x)` for a truthy entry. */
  function FirstVariant(t: RawText): string
    requires !IsFalsy(t)
  {
    match t
    case Text(s) => s
    case Variants(items) => items[0]
  }

  const LinkBase: string := "https://www.sefaria.org/Sefer_HaMitzvot%2C_"

  function IntroLabel(n: nat): string { "Intro " + NatToString(n) }
  function PositiveLabel(n: nat): string { "Positive " + NatToString(n) }
  function NegativeLabel(n: nat): string { "Negative " + NatToString(n) }

  function IntroLink(n: nat): string { LinkBase + "Shorashim." + NatToString(n) + "?lang=bi" }
  function PositiveLink(n: nat): string { LinkBase + "Positive_Commandments." + NatToString(n) + "?lang=bi" }
  function NegativeLink(n: nat): string { LinkBase + "Negative_Commandments." + NatToString(n) + "?lang=bi" }

  /** The Sequential_Number column counts rows from 1 in schedule order. */
  predicate NumberedInOrder(rows: seq<ScheduleRow>) {
    forall k :: 0 <= k < |rows| ==> rows[k].seqNum == k + 1
  }

  /** Dates never go backwards along the schedule. */
  predicate DatesNonDecreasing(rows: seq<ScheduleRow>) {
    forall i, j :: 0 <= i < j < |rows| ==> rows[i].date <= rows[j].date
  }
}
