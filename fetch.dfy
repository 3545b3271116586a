/**
 * `fetch_data`: walk the scraped pages in order, append the record of every
 * row whose day is today's or tomorrow's, each carrying its page's
 * effectiveness, then rank the list by effectiveness, highest first.
 */
module Fetch {
  import opened Wrappers
  import opened Text
  import opened Records
  import opened StableSort
  import opened Accumulation
  import opened Ranking

  /** What one call of `fetch_data` returns or raises, given the scraped pages. */
  function FetchResult(pages: seq<Page>, today: string, tomorrow: string): Result<seq<Record>, Error> {
    match Collect(pages, today, tomorrow)
    case Err(e) => Err(e)
    case Ok(data) => Rank(data)
  }

  /**
   * The inner loop of `fetch_data`: append to `data` the record of every row
   * of one page's table that passes the day test, each carrying the page's
   * effectiveness `eff`; a row with cells but fewer than nine raises
   * IndexError.
   */
  method AppendTable(data: seq<Record>, rows: seq<Row>, eff: string, today: string, tomorrow: string)
    returns (r: Result<seq<Record>, Error>)
    ensures r == Then(Ok(data), TableRecords(rows, eff, today, tomorrow))
  {
    var acc := data;
    ghost var added: seq<Record> := [];
    var j := 0;
    while j < |rows|
      invariant 0 <= j <= |rows|
      invariant acc == data + added
      invariant TableRecords(rows[..j], eff, today, tomorrow) == Ok(added)
    {
      var cols := rows[j];
      assert rows[..j + 1][..j] == rows[..j];
      assert TableRecords(rows[..j + 1], eff, today, tomorrow)
          == Then(Ok(added), RowRecords(cols, eff, today, tomorrow));
      if |cols| > 0 {
        if |cols| < RowWidth {
          assert TableRecords(rows[..j + 1], eff, today, tomorrow) == Err(IndexError);
          TablePrefixError(rows, j + 1, eff, today, tomorrow);
          assert rows[..|rows|] == rows;
          return Err(IndexError);
        }
        var day := Trim(cols[1]);
        var time := Trim(cols[2]);
        var matchLeague := Trim(cols[3]);
        var tip := Trim(cols[4]);
        var odd := Trim(cols[6]);
        var score := Trim(cols[8]);
        if day == today || day == tomorrow {
          acc := acc + [Record(day, time, matchLeague, tip, odd, score, eff)];
          added := added + [Record(day, time, matchLeague, tip, odd, score, eff)];
        } else {
          assert added + [] == added;
        }
      } else {
        assert added + [] == added;
      }
      j := j + 1;
    }
    assert rows[..|rows|] == rows;
    r := Ok(acc);
  }

  /**
   * The accumulation loop of `fetch_data` over already parsed pages, followed
   * by the ranking.  `today` and `tomorrow` are the two-digit day strings.
   */
  method FetchData(pages: seq<Page>, today: string, tomorrow: string) returns (r: Result<seq<Record>, Error>)
    ensures r == FetchResult(pages, today, tomorrow)
    ensures r.Ok? ==> forall i, j :: 0 <= i < j < |r.value| ==>
      EffectivenessKey(r.value[i]) >= EffectivenessKey(r.value[j])
    ensures r.Ok? ==> forall rec :: rec in r.value ==> InWindow(rec, today, tomorrow)
  {
    var data: seq<Record> := [];
    var i := 0;
    while i < |pages|
      invariant 0 <= i <= |pages|
      invariant Collect(pages[..i], today, tomorrow) == Ok(data)
    {
      var page := pages[i];
      assert pages[..i + 1][..i] == pages[..i];
      if page.table.Some? {
        var eff := if page.effectiveness.Some? then page.effectiveness.value else "0";
        assert eff == EffectivenessOf(page);
        var res := AppendTable(data, page.table.value, eff, today, tomorrow);
        if res.Err? {
          CollectPrefixError(pages, i + 1, today, tomorrow);
          return Err(res.error);
        }
        data := res.value;
      } else {
        assert data + [] == data;
      }
      i := i + 1;
    }
    assert pages[..|pages|] == pages;
    r := Rank(data);
    if r.Ok? {
      RankSorted(data, r.value);
      CollectSound(pages, today, tomorrow);
      forall rec | rec in r.value ensures InWindow(rec, today, tomorrow) {
        assert rec in multiset(data);
      }
    }
  }

  /**
   * A successful call returns a permutation of the accumulated records,
   * ordered by integer effectiveness from highest to lowest, with equal
   * effectiveness in accumulation order.  Every returned record passed the
   * day test and is the record of some row of some page, with that page's
   * effectiveness; every row whose stripped second cell is today's or
   * tomorrow's day is returned.
   */
  lemma FetchSucceeds(pages: seq<Page>, today: string, tomorrow: string, out: seq<Record>)
    requires FetchResult(pages, today, tomorrow) == Ok(out)
    ensures Collect(pages, today, tomorrow).Ok?
    ensures multiset(out) == multiset(Collect(pages, today, tomorrow).value)
    ensures forall i, j :: 0 <= i < j < |out| ==>
      Parses(out[i]) && Parses(out[j])
      && ParseInt(out[i].effectiveness).value >= ParseInt(out[j].effectiveness).value
    ensures SameOrderPerKey(out, Collect(pages, today, tomorrow).value, EffectivenessKey)
    ensures forall rec :: rec in out ==> InWindow(rec, today, tomorrow) && FromPages(pages, rec)
    ensures forall i, j :: 0 <= i < |pages| && Selected(pages[i], j, today, tomorrow) ==>
      |pages[i].table.value[j]| >= RowWidth && RecordOf(pages[i].table.value[j], EffectivenessOf(pages[i])) in out
  {
    var data := Collect(pages, today, tomorrow).value;
    RankSorted(data, out);
    CollectSound(pages, today, tomorrow);
    CollectComplete(pages, today, tomorrow);
    forall rec | rec in out ensures InWindow(rec, today, tomorrow) && FromPages(pages, rec) {
      assert rec in multiset(data);
    }
    forall i, j | 0 <= i < |pages| && Selected(pages[i], j, today, tomorrow)
      ensures |pages[i].table.value[j]| >= RowWidth
      ensures RecordOf(pages[i].table.value[j], EffectivenessOf(pages[i])) in out
    {
      assert RecordOf(pages[i].table.value[j], EffectivenessOf(pages[i])) in multiset(out);
    }
  }

  /**
   * A call raises IndexError exactly when some page's table holds a row with
   * cells but fewer than nine; otherwise it raises ValueError exactly when
   * some accumulated record's effectiveness is not an integer literal.
   */
  lemma FetchFails(pages: seq<Page>, today: string, tomorrow: string)
    ensures FetchResult(pages, today, tomorrow) == Err(IndexError) <==> AnyPageShort(pages)
    ensures FetchResult(pages, today, tomorrow).Err? && !AnyPageShort(pages) <==>
      Collect(pages, today, tomorrow).Ok?
      && exists rec :: rec in Collect(pages, today, tomorrow).value && ParseInt(rec.effectiveness).None?
  {
    CollectErrorIff(pages, today, tomorrow);
    var c := Collect(pages, today, tomorrow);
    if c.Ok? {
      RankFails(c.value);
      if exists rec :: rec in c.value && ParseInt(rec.effectiveness).None? {
        var rec :| rec in c.value && ParseInt(rec.effectiveness).None?;
        var k :| 0 <= k < |c.value| && c.value[k] == rec;
        assert !Parses(c.value[k]);
      }
    }
  }

  /** A page without a tips table changes nothing, wherever it stands in the list. */
  lemma FetchIgnoresTablelessPage(a: seq<Page>, b: seq<Page>, badge: Option<string>, today: string, tomorrow: string)
    ensures FetchResult(a + [Page(badge, None)] + b, today, tomorrow) == FetchResult(a + b, today, tomorrow)
  {
    TablelessPageIgnored(a, b, badge, today, tomorrow);
  }
}
