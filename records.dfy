/**
 * What `fetch_data` reads from one scraped page, and how it turns one table
 * row into one tip record.
 */
module Records {
  import opened Wrappers
  import opened Text

  /** One table row: the text of each of its `td` cells, in order, untrimmed. */
  type Row = seq<string>

  /**
   * A scraped page, reduced to what the parser extracted from it: the text of
   * the effectiveness badge (None when the page has no `progressC` div) and
   * the body rows of the tips table (None when the page has no such table).
   */
  datatype Page = Page(effectiveness: Option<string>, table: Option<seq<Row>>)

  /** One tip, with the keys of the dictionary the scraper builds. */
  datatype Record = Record(
    day: string,
    time: string,
    matchLeague: string,
    tip: string,
    odd: string,
    score: string,
    effectiveness: string)

  /** The exceptions `fetch_data` can raise once the page is parsed. */
  datatype Error =
    | IndexError             // a non-empty row has fewer than nine cells
    | ValueError(literal: string)  // `int()` rejected an effectiveness text

  /** The number of cells a row must have: the highest index read is 8. */
  const RowWidth := 9

  /** The effectiveness text every record of page `p` carries: the badge's text, or "0". */
  function EffectivenessOf(p: Page): (e: string)
    ensures p.effectiveness.Some? ==> e == p.effectiveness.value
    ensures p.effectiveness.None? ==> e == "0" && ParseInt(e) == Some(0)
  {
    match p.effectiveness
    case Some(text) => text
    case None =>
      ParseShowRoundTrip(0, "", "");
      assert "" + Show(0) + "" == "0";
      "0"
  }

  /**
   * The record built from a row that has all nine cells: the day, time,
   * match/league, tip, odd and score cells are columns 1, 2, 3, 4, 6 and 8,
   * each stripped; columns 0, 5 and 7 are not read.
   */
  function RecordOf(cols: Row, eff: string): Record
    requires |cols| >= RowWidth
  {
    Record(Trim(cols[1]), Trim(cols[2]), Trim(cols[3]), Trim(cols[4]), Trim(cols[6]), Trim(cols[8]), eff)
  }

  /** Reading the six cells of a row: an IndexError unless the row has nine cells. */
  function ToRecord(cols: Row, eff: string): (r: Result<Record, Error>)
    ensures r.Ok? <==> |cols| >= RowWidth
    ensures r.Err? ==> r.error == IndexError
  {
    if |cols| < RowWidth then Err(IndexError) else Ok(RecordOf(cols, eff))
  }

  /** The day test: `day` is today's or tomorrow's two-digit day. */
  predicate IsTargetDay(day: string, today: string, tomorrow: string) {
    day == today || day == tomorrow
  }

  /** The record passed the day test. */
  predicate InWindow(rec: Record, today: string, tomorrow: string) {
    IsTargetDay(rec.day, today, tomorrow)
  }

  /**
   * What one table row adds to the result: nothing for a row without cells,
   * an IndexError for a short row, and otherwise its record when the day test
   * passes.  The cells are all read before the day test.
   */
  function RowRecords(cols: Row, eff: string, today: string, tomorrow: string): Result<seq<Record>, Error> {
    if |cols| == 0 then Ok([])
    else
      match ToRecord(cols, eff)
      case Err(e) => Err(e)
      case Ok(rec) => if InWindow(rec, today, tomorrow) then Ok([rec]) else Ok([])
  }

  /**
   * Field provenance: two rows that agree on columns 1, 2, 3, 4, 6 and 8 give
   * the same record, whatever their other columns hold.
   */
  lemma UnreadColumnsIgnored(c1: Row, c2: Row, eff: string)
    requires |c1| >= RowWidth && |c2| >= RowWidth
    requires c1[1] == c2[1] && c1[2] == c2[2] && c1[3] == c2[3]
    requires c1[4] == c2[4] && c1[6] == c2[6] && c1[8] == c2[8]
    ensures RecordOf(c1, eff) == RecordOf(c2, eff)
  {
  }
}
