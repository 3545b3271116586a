/**
 * The list `fetch_data` accumulates before ranking: pages in list order, and
 * within a page its table rows in order, each row adding its record when the
 * day test passes.  An exception raised by any row ends the whole call.
 */
module Accumulation {
  import opened Wrappers
  import opened Text
  import opened Records

  /** One more accumulation step after `done`: the first exception wins. */
  function Then(done: Result<seq<Record>, Error>, more: Result<seq<Record>, Error>): Result<seq<Record>, Error> {
    match done
    case Err(e) => Err(e)
    case Ok(d) =>
      match more
      case Err(e) => Err(e)
      case Ok(m) => Ok(d + m)
  }

  /** The records a table's rows add, in row order. */
  function TableRecords(rows: seq<Row>, eff: string, today: string, tomorrow: string): Result<seq<Record>, Error>
    decreases |rows|
  {
    if |rows| == 0 then Ok([])
    else Then(TableRecords(rows[..|rows| - 1], eff, today, tomorrow),
              RowRecords(rows[|rows| - 1], eff, today, tomorrow))
  }

  /** The records one page adds: none when it has no tips table. */
  function PageRecords(p: Page, today: string, tomorrow: string): Result<seq<Record>, Error> {
    match p.table
    case None => Ok([])
    case Some(rows) => TableRecords(rows, EffectivenessOf(p), today, tomorrow)
  }

  /** The accumulated list over all pages, in page order. */
  function Collect(pages: seq<Page>, today: string, tomorrow: string): Result<seq<Record>, Error>
    decreases |pages|
  {
    if |pages| == 0 then Ok([])
    else Then(Collect(pages[..|pages| - 1], today, tomorrow),
              PageRecords(pages[|pages| - 1], today, tomorrow))
  }

  // ---------------------------------------------------------------------
  // Accumulation order: the result over a concatenation is the results in turn.

  lemma ThenAssociative(a: Result<seq<Record>, Error>, b: Result<seq<Record>, Error>, c: Result<seq<Record>, Error>)
    ensures Then(Then(a, b), c) == Then(a, Then(b, c))
  {
    if a.Ok? && b.Ok? && c.Ok? {
      assert (a.value + b.value) + c.value == a.value + (b.value + c.value);
    }
  }

  /** The records of `a + b` are those of `a` followed by those of `b`. */
  lemma {:induction false} TableAppend(a: seq<Row>, b: seq<Row>, eff: string, today: string, tomorrow: string)
    ensures TableRecords(a + b, eff, today, tomorrow)
         == Then(TableRecords(a, eff, today, tomorrow), TableRecords(b, eff, today, tomorrow))
    decreases |b|
  {
    var done := TableRecords(a, eff, today, tomorrow);
    if |b| == 0 {
      assert a + b == a;
      if done.Ok? { assert done.value + [] == done.value; }
    } else {
      var n := |b| - 1;
      assert (a + b)[..|a + b| - 1] == a + b[..n];
      assert (a + b)[|a + b| - 1] == b[n];
      TableAppend(a, b[..n], eff, today, tomorrow);
      ThenAssociative(done, TableRecords(b[..n], eff, today, tomorrow), RowRecords(b[n], eff, today, tomorrow));
    }
  }

  /** The records of pages `a + b` are those of `a` followed by those of `b`. */
  lemma {:induction false} CollectAppend(a: seq<Page>, b: seq<Page>, today: string, tomorrow: string)
    ensures Collect(a + b, today, tomorrow) == Then(Collect(a, today, tomorrow), Collect(b, today, tomorrow))
    decreases |b|
  {
    var done := Collect(a, today, tomorrow);
    if |b| == 0 {
      assert a + b == a;
      if done.Ok? { assert done.value + [] == done.value; }
    } else {
      var n := |b| - 1;
      assert (a + b)[..|a + b| - 1] == a + b[..n];
      assert (a + b)[|a + b| - 1] == b[n];
      CollectAppend(a, b[..n], today, tomorrow);
      ThenAssociative(done, Collect(b[..n], today, tomorrow), PageRecords(b[n], today, tomorrow));
    }
  }

  /** An exception raised while reading the first `n` rows is the result for the whole table. */
  lemma TablePrefixError(rows: seq<Row>, n: nat, eff: string, today: string, tomorrow: string)
    requires n <= |rows| && TableRecords(rows[..n], eff, today, tomorrow).Err?
    ensures TableRecords(rows, eff, today, tomorrow) == TableRecords(rows[..n], eff, today, tomorrow)
  {
    assert rows == rows[..n] + rows[n..];
    TableAppend(rows[..n], rows[n..], eff, today, tomorrow);
  }

  /** An exception raised while reading the first `n` pages is the result of the whole call. */
  lemma CollectPrefixError(pages: seq<Page>, n: nat, today: string, tomorrow: string)
    requires n <= |pages| && Collect(pages[..n], today, tomorrow).Err?
    ensures Collect(pages, today, tomorrow) == Collect(pages[..n], today, tomorrow)
  {
    assert pages == pages[..n] + pages[n..];
    CollectAppend(pages[..n], pages[n..], today, tomorrow);
  }

  /** A page without a tips table adds no record and raises nothing, wherever it stands. */
  lemma TablelessPageIgnored(a: seq<Page>, b: seq<Page>, badge: Option<string>, today: string, tomorrow: string)
    ensures Collect(a + [Page(badge, None)] + b, today, tomorrow) == Collect(a + b, today, tomorrow)
  {
    var p := Page(badge, None);
    assert Collect([p], today, tomorrow) == Ok([]) by {
      var none: seq<Record> := [];
      assert [p][..0] == [];
      assert Collect([p], today, tomorrow) == Then(Collect([], today, tomorrow), PageRecords(p, today, tomorrow));
      assert PageRecords(p, today, tomorrow) == Ok(none);
      assert none + none == none;
    }
    CollectAppend(a + [p], b, today, tomorrow);
    CollectAppend(a, [p], today, tomorrow);
    CollectAppend(a, b, today, tomorrow);
    var ca := Collect(a, today, tomorrow);
    if ca.Ok? { assert ca.value + [] == ca.value; }
  }

  /** A row without cells adds no record and raises nothing, wherever it stands. */
  lemma EmptyRowIgnored(a: seq<Row>, b: seq<Row>, eff: string, today: string, tomorrow: string)
    ensures TableRecords(a + [[]] + b, eff, today, tomorrow) == TableRecords(a + b, eff, today, tomorrow)
  {
    var empty: Row := [];
    assert TableRecords([empty], eff, today, tomorrow) == Ok([]) by {
      var none: seq<Record> := [];
      assert [empty][..0] == [];
      assert TableRecords([empty], eff, today, tomorrow)
          == Then(TableRecords([], eff, today, tomorrow), RowRecords(empty, eff, today, tomorrow));
      assert RowRecords(empty, eff, today, tomorrow) == Ok(none);
      assert none + none == none;
    }
    TableAppend(a + [empty], b, eff, today, tomorrow);
    TableAppend(a, [empty], eff, today, tomorrow);
    TableAppend(a, b, eff, today, tomorrow);
    var ta := TableRecords(a, eff, today, tomorrow);
    if ta.Ok? { assert ta.value + [] == ta.value; }
  }

  // ---------------------------------------------------------------------
  // When the accumulation raises.

  /** A row that has cells but not all nine. */
  predicate ShortRow(cols: Row) {
    0 < |cols| < RowWidth
  }

  /** Some row of `rows` is short. */
  predicate AnyShort(rows: seq<Row>) {
    exists j :: 0 <= j < |rows| && ShortRow(rows[j])
  }

  /** A page whose tips table holds a short row. */
  predicate HasShortRow(p: Page) {
    p.table.Some? && AnyShort(p.table.value)
  }

  /** Some page of `pages` has a tips table holding a short row. */
  predicate AnyPageShort(pages: seq<Page>) {
    exists i :: 0 <= i < |pages| && HasShortRow(pages[i])
  }

  lemma AnyShortSnoc(rows: seq<Row>)
    requires |rows| > 0
    ensures AnyShort(rows) <==> AnyShort(rows[..|rows| - 1]) || ShortRow(rows[|rows| - 1])
  {
    var n := |rows| - 1;
    var init := rows[..n];
    if AnyShort(rows) {
      var j :| 0 <= j < |rows| && ShortRow(rows[j]);
      if j < n { assert init[j] == rows[j]; }
    }
    if AnyShort(init) {
      var j :| 0 <= j < |init| && ShortRow(init[j]);
      assert rows[j] == init[j];
    }
  }

  lemma AnyPageShortSnoc(pages: seq<Page>)
    requires |pages| > 0
    ensures AnyPageShort(pages) <==> AnyPageShort(pages[..|pages| - 1]) || HasShortRow(pages[|pages| - 1])
  {
    var n := |pages| - 1;
    var init := pages[..n];
    if AnyPageShort(pages) {
      var i :| 0 <= i < |pages| && HasShortRow(pages[i]);
      if i < n { assert init[i] == pages[i]; }
    }
    if AnyPageShort(init) {
      var i :| 0 <= i < |init| && HasShortRow(init[i]);
      assert pages[i] == init[i];
    }
  }

  lemma RowErrorIff(cols: Row, eff: string, today: string, tomorrow: string)
    ensures RowRecords(cols, eff, today, tomorrow).Err? <==> ShortRow(cols)
    ensures RowRecords(cols, eff, today, tomorrow).Err? ==> RowRecords(cols, eff, today, tomorrow).error == IndexError
  {
  }

  lemma ThenErr(a: Result<seq<Record>, Error>, b: Result<seq<Record>, Error>)
    ensures Then(a, b).Err? <==> a.Err? || b.Err?
    ensures Then(a, b).Err? ==> Then(a, b).error == (if a.Err? then a.error else b.error)
  {
  }

  /** A table raises exactly when one of its rows is short, and then it raises IndexError. */
  lemma {:induction false} TableErrorIff(rows: seq<Row>, eff: string, today: string, tomorrow: string)
    ensures TableRecords(rows, eff, today, tomorrow).Err? <==> AnyShort(rows)
    ensures TableRecords(rows, eff, today, tomorrow).Err? ==> TableRecords(rows, eff, today, tomorrow).error == IndexError
    decreases |rows|
  {
    if |rows| > 0 {
      var n := |rows| - 1;
      TableErrorIff(rows[..n], eff, today, tomorrow);
      RowErrorIff(rows[n], eff, today, tomorrow);
      ThenErr(TableRecords(rows[..n], eff, today, tomorrow), RowRecords(rows[n], eff, today, tomorrow));
      AnyShortSnoc(rows);
    }
  }

  /** The accumulation raises exactly when some page's table holds a short row, and then it raises IndexError. */
  lemma {:induction false} CollectErrorIff(pages: seq<Page>, today: string, tomorrow: string)
    ensures Collect(pages, today, tomorrow).Err? <==> AnyPageShort(pages)
    ensures Collect(pages, today, tomorrow).Err? ==> Collect(pages, today, tomorrow).error == IndexError
    decreases |pages|
  {
    if |pages| > 0 {
      var n := |pages| - 1;
      var last := pages[n];
      CollectErrorIff(pages[..n], today, tomorrow);
      if last.table.Some? {
        TableErrorIff(last.table.value, EffectivenessOf(last), today, tomorrow);
      }
      ThenErr(Collect(pages[..n], today, tomorrow), PageRecords(last, today, tomorrow));
      AnyPageShortSnoc(pages);
    }
  }

  // ---------------------------------------------------------------------
  // What the accumulated list holds.

  /**
   * `rec` is the record of row `j` of page `p`: the row has nine cells, the
   * record's six fields are its stripped cells 1, 2, 3, 4, 6 and 8 (RecordOf),
   * and its effectiveness is the page's.
   */
  predicate Origin(p: Page, j: int, rec: Record) {
    && p.table.Some? && 0 <= j < |p.table.value|
    && |p.table.value[j]| >= RowWidth
    && rec == RecordOf(p.table.value[j], EffectivenessOf(p))
  }

  /** `rec` is the record of some row of some page of `pages`. */
  ghost predicate FromPages(pages: seq<Page>, rec: Record) {
    exists i, j :: 0 <= i < |pages| && Origin(pages[i], j, rec)
  }

  /** `rec` is the record of some row of `rows`, with effectiveness `eff`. */
  predicate FromRows(rows: seq<Row>, eff: string, rec: Record) {
    exists j :: 0 <= j < |rows| && |rows[j]| >= RowWidth && rec == RecordOf(rows[j], eff)
  }

  /** The row's second cell, stripped, is today's or tomorrow's day. */
  predicate Picked(cols: Row, today: string, tomorrow: string) {
    |cols| > 1 && IsTargetDay(Trim(cols[1]), today, tomorrow)
  }

  /** Row `j` of page `p` is in its tips table and is picked by the day test. */
  predicate Selected(p: Page, j: int, today: string, tomorrow: string) {
    p.table.Some? && 0 <= j < |p.table.value| && Picked(p.table.value[j], today, tomorrow)
  }

  lemma FromRowsInit(rows: seq<Row>, n: nat, eff: string, rec: Record)
    requires n <= |rows| && FromRows(rows[..n], eff, rec)
    ensures FromRows(rows, eff, rec)
  {
    var j :| 0 <= j < n && |rows[..n][j]| >= RowWidth && rec == RecordOf(rows[..n][j], eff);
    assert rows[..n][j] == rows[j];
  }

  lemma FromPagesInit(pages: seq<Page>, n: nat, rec: Record)
    requires n <= |pages| && FromPages(pages[..n], rec)
    ensures FromPages(pages, rec)
  {
    var i, j :| 0 <= i < n && Origin(pages[..n][i], j, rec);
    assert pages[..n][i] == pages[i];
  }

  lemma FromPagesLast(pages: seq<Page>, rec: Record)
    requires |pages| > 0
    requires var last := pages[|pages| - 1];
      last.table.Some? && FromRows(last.table.value, EffectivenessOf(last), rec)
    ensures FromPages(pages, rec)
  {
    var n := |pages| - 1;
    var rows := pages[n].table.value;
    var j :| 0 <= j < |rows| && |rows[j]| >= RowWidth && rec == RecordOf(rows[j], EffectivenessOf(pages[n]));
    assert Origin(pages[n], j, rec);
  }

  lemma ThenOk(a: Result<seq<Record>, Error>, b: Result<seq<Record>, Error>)
    requires Then(a, b).Ok?
    ensures a.Ok? && b.Ok? && Then(a, b).value == a.value + b.value
  {
  }

  lemma {:induction false} TableSound(rows: seq<Row>, eff: string, today: string, tomorrow: string)
    requires TableRecords(rows, eff, today, tomorrow).Ok?
    ensures forall rec :: rec in TableRecords(rows, eff, today, tomorrow).value ==>
      InWindow(rec, today, tomorrow) && FromRows(rows, eff, rec)
    decreases |rows|
  {
    if |rows| > 0 {
      var n := |rows| - 1;
      var head := TableRecords(rows[..n], eff, today, tomorrow);
      var more := RowRecords(rows[n], eff, today, tomorrow);
      ThenOk(head, more);
      TableSound(rows[..n], eff, today, tomorrow);
      forall rec | rec in head.value + more.value
        ensures InWindow(rec, today, tomorrow) && FromRows(rows, eff, rec)
      {
        if rec in head.value {
          FromRowsInit(rows, n, eff, rec);
        } else {
          assert |rows[n]| >= RowWidth && rec == RecordOf(rows[n], eff);
        }
      }
    }
  }

  /**
   * Soundness and provenance: every accumulated record passed the day test
   * and is the record of some row of some page, carrying that page's
   * effectiveness.
   */
  lemma {:induction false} CollectSound(pages: seq<Page>, today: string, tomorrow: string)
    requires Collect(pages, today, tomorrow).Ok?
    ensures forall rec :: rec in Collect(pages, today, tomorrow).value ==>
      InWindow(rec, today, tomorrow) && FromPages(pages, rec)
    decreases |pages|
  {
    if |pages| > 0 {
      var n := |pages| - 1;
      var last := pages[n];
      var head := Collect(pages[..n], today, tomorrow);
      var more := PageRecords(last, today, tomorrow);
      ThenOk(head, more);
      CollectSound(pages[..n], today, tomorrow);
      if last.table.Some? {
        TableSound(last.table.value, EffectivenessOf(last), today, tomorrow);
      }
      forall rec | rec in head.value + more.value
        ensures InWindow(rec, today, tomorrow) && FromPages(pages, rec)
      {
        if rec in head.value {
          FromPagesInit(pages, n, rec);
        } else {
          FromPagesLast(pages, rec);
        }
      }
    }
  }

  lemma RowComplete(cols: Row, eff: string, today: string, tomorrow: string)
    requires RowRecords(cols, eff, today, tomorrow).Ok? && Picked(cols, today, tomorrow)
    ensures |cols| >= RowWidth && RowRecords(cols, eff, today, tomorrow).value == [RecordOf(cols, eff)]
  {
  }

  lemma {:induction false} TableComplete(rows: seq<Row>, eff: string, today: string, tomorrow: string)
    requires TableRecords(rows, eff, today, tomorrow).Ok?
    ensures forall j :: 0 <= j < |rows| && Picked(rows[j], today, tomorrow) ==>
      |rows[j]| >= RowWidth && RecordOf(rows[j], eff) in TableRecords(rows, eff, today, tomorrow).value
    decreases |rows|
  {
    if |rows| > 0 {
      var n := |rows| - 1;
      var head := TableRecords(rows[..n], eff, today, tomorrow);
      var more := RowRecords(rows[n], eff, today, tomorrow);
      ThenOk(head, more);
      TableComplete(rows[..n], eff, today, tomorrow);
      forall j | 0 <= j < |rows| && Picked(rows[j], today, tomorrow)
        ensures |rows[j]| >= RowWidth && RecordOf(rows[j], eff) in head.value + more.value
      {
        if j < n {
          assert rows[..n][j] == rows[j];
        } else {
          RowComplete(rows[n], eff, today, tomorrow);
        }
      }
    }
  }

  /**
   * Completeness: when the accumulation succeeds, every row whose second
   * cell, stripped, is today's or tomorrow's day has all nine cells, and its
   * record, with its page's effectiveness, is in the list.
   */
  lemma {:induction false} CollectComplete(pages: seq<Page>, today: string, tomorrow: string)
    requires Collect(pages, today, tomorrow).Ok?
    ensures forall i, j :: 0 <= i < |pages| && Selected(pages[i], j, today, tomorrow) ==>
      |pages[i].table.value[j]| >= RowWidth &&
      RecordOf(pages[i].table.value[j], EffectivenessOf(pages[i])) in Collect(pages, today, tomorrow).value
    decreases |pages|
  {
    if |pages| > 0 {
      var n := |pages| - 1;
      var last := pages[n];
      var head := Collect(pages[..n], today, tomorrow);
      var more := PageRecords(last, today, tomorrow);
      ThenOk(head, more);
      CollectComplete(pages[..n], today, tomorrow);
      forall i, j | 0 <= i < |pages| && Selected(pages[i], j, today, tomorrow)
        ensures |pages[i].table.value[j]| >= RowWidth
        ensures RecordOf(pages[i].table.value[j], EffectivenessOf(pages[i])) in head.value + more.value
      {
        if i < n {
          assert pages[..n][i] == pages[i];
          assert RecordOf(pages[i].table.value[j], EffectivenessOf(pages[i])) in head.value;
        } else {
          PageComplete(last, j, today, tomorrow);
        }
      }
    }
  }

  lemma PageComplete(p: Page, j: int, today: string, tomorrow: string)
    requires PageRecords(p, today, tomorrow).Ok? && Selected(p, j, today, tomorrow)
    ensures |p.table.value[j]| >= RowWidth
    ensures RecordOf(p.table.value[j], EffectivenessOf(p)) in PageRecords(p, today, tomorrow).value
  {
    TableComplete(p.table.value, EffectivenessOf(p), today, tomorrow);
  }
}
