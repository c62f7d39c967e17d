/** The `pdf` report: the three totals over the whole ledger and the
    itemised table, one row per transaction in ledger order, laid out page by
    page. Only what is drawn where is modelled; fonts, colours and boxes are
    not. */
module Report {
  import opened JsString
  import opened Bookkeeping

  /** y of the first table row, just under the column headings. */
  const FirstRowY: int := 220
  /** Height of one row; the cursor moves down this much per row. */
  const RowHeight: int := 20
  /** A row is only drawn while the cursor is at most this far down. */
  const PageLimit: int := 750
  /** y of the first row on every page after the first. */
  const TopMargin: int := 50
  /** Description characters shown in the table. */
  const DescriptionWidth: nat := 40
  /** Rows that fit on the first page and on each later page. */
  const FirstPageRows: nat := 27
  const PageRows: nat := 36

  /** One table row as drawn: where (page index, from 0, and y), whether it is
      shaded, and the five columns. */
  datatype Row = Row(page: nat, y: int, shaded: bool, date: string, kind: Kind,
                     amount: real, desc: string, author: string)

  /** The whole report: generation time, totals and table. */
  datatype Document = Document(generatedAt: string, totalIn: real, totalOut: real,
                               balance: real, rows: seq<Row>)

  /** The row drawn for transaction `t`, the `i`-th of the ledger, at `y` on
      `page`: shaded on even indices, the date column is the timestamp up to
      its first space, and the description is cut to its first 40 characters. */
  function DrawRow(t: Transaction, i: nat, page: nat, y: int): (row: Row)
    ensures row.page == page && row.y == y
    ensures row.shaded <==> i % 2 == 0
    ensures row.date <= t.data && ' ' !in row.date
    ensures |row.date| < |t.data| ==> t.data[|row.date|] == ' '
    ensures row.desc <= t.desc && |row.desc| <= DescriptionWidth
    ensures |t.desc| <= DescriptionWidth ==> row.desc == t.desc
    ensures |t.desc| > DescriptionWidth ==> |row.desc| == DescriptionWidth
    ensures row.kind == t.kind && row.amount == t.value && row.author == t.usuario
  {
    Row(page, y, i % 2 == 0, Split(t.data, ' ')[0], t.kind, t.value,
        Take(t.desc, DescriptionWidth), t.usuario)
  }

  /** A place on the report: page index (from 0) and y. */
  datatype Spot = Spot(page: nat, y: int)

  /** The places the table loop draws `count` rows at, starting with the
      cursor at `cursor` on page `page`: before each row, a cursor past the
      page limit starts a new page with the cursor at the top margin; the row
      is drawn at the cursor, which then moves down one row height. */
  function LoopSpots(count: nat, cursor: int, page: nat): (spots: seq<Spot>)
    requires TopMargin <= cursor <= PageLimit + RowHeight
    ensures |spots| == count
    ensures forall k :: 0 <= k < count ==> TopMargin <= spots[k].y <= PageLimit
    ensures forall k :: 0 <= k < count ==> page <= spots[k].page
    decreases count
  {
    if count == 0 then []
    else
      var here := if cursor > PageLimit then Spot(page + 1, TopMargin) else Spot(page, cursor);
      [here] + LoopSpots(count - 1, here.y + RowHeight, here.page)
  }

  /** The table of a whole ledger: transaction `k` drawn as row `k` at the
      `k`-th place of the loop started at the first row position of the first
      page. */
  function Layout(ts: Ledger): (rows: seq<Row>)
    ensures |rows| == |ts|
    ensures forall k :: 0 <= k < |rows| ==> TopMargin <= rows[k].y <= PageLimit
    ensures forall k :: 0 <= k < |rows| ==>
              rows[k] == DrawRow(ts[k], k, rows[k].page, rows[k].y)
  {
    var spots := LoopSpots(|ts|, FirstRowY, 0);
    seq(|ts|, k requires 0 <= k < |ts| => DrawRow(ts[k], k, spots[k].page, spots[k].y))
  }

  /** Where the row after one drawn at `s` goes: one row height further down,
      or the top of the next page once that is past the page limit. */
  function NextSpot(s: Spot): Spot {
    var cursor := s.y + RowHeight;
    if cursor > PageLimit then Spot(s.page + 1, TopMargin) else Spot(s.page, cursor)
  }

  /** Where row `i` goes, row after row from the first row position. */
  function SpotOf(i: nat): Spot {
    if i == 0 then Spot(0, FirstRowY) else NextSpot(SpotOf(i - 1))
  }

  /** The same places in closed form: 27 rows on the first page from y = 220,
      then 36 rows per page from y = 50. */
  function Placement(i: nat): Spot {
    if i < FirstPageRows then Spot(0, FirstRowY + RowHeight * i)
    else Spot(1 + (i - FirstPageRows) / PageRows,
              TopMargin + RowHeight * ((i - FirstPageRows) % PageRows))
  }

  /** One row further on, the closed form moves like the table loop. */
  lemma PlacementStep(i: nat)
    ensures Placement(i + 1) == NextSpot(Placement(i))
  {
    if i >= FirstPageRows {
      var j := i - FirstPageRows;
      var q := j / PageRows;
      var r := j % PageRows;
      assert j == PageRows * q + r;
      if r == PageRows - 1 {
        assert j + 1 == PageRows * (q + 1) + 0;
      } else {
        assert j + 1 == PageRows * q + (r + 1);
      }
    }
  }

  /** The row-by-row places and the closed form agree. */
  lemma {:induction false} SpotOfIsPlacement(i: nat)
    ensures SpotOf(i) == Placement(i)
  {
    if i > 0 {
      SpotOfIsPlacement(i - 1);
      PlacementStep(i - 1);
    }
  }

  /** The cursor and page the table loop holds before drawing row `i`: the
      first row position for row 0, one row below row `i - 1` otherwise. */
  predicate CursorBefore(i: nat, cursor: int, page: nat) {
    if i == 0 then cursor == FirstRowY && page == 0
    else page == SpotOf(i - 1).page && cursor == SpotOf(i - 1).y + RowHeight
  }

  /** The table loop draws every row at its row-by-row place. */
  lemma {:induction false} LoopSpotsAgree(count: nat, i: nat, cursor: int, page: nat)
    requires CursorBefore(i, cursor, page)
    ensures TopMargin <= cursor <= PageLimit + RowHeight
    ensures forall k :: 0 <= k < count ==> LoopSpots(count, cursor, page)[k] == SpotOf(i + k)
    decreases count
  {
    SpotBounds(i);
    if count > 0 {
      var here := if cursor > PageLimit then Spot(page + 1, TopMargin) else Spot(page, cursor);
      assert SpotOf(i) == here;
      LoopSpotsAgree(count - 1, i + 1, here.y + RowHeight, here.page);
      var spots := LoopSpots(count, cursor, page);
      var rest := LoopSpots(count - 1, here.y + RowHeight, here.page);
      assert spots == [here] + rest;
      forall k | 0 <= k < count
        ensures spots[k] == SpotOf(i + k)
      {
        if k > 0 {
          assert spots[k] == rest[k - 1];
          assert i + k == (i + 1) + (k - 1);
        }
      }
    }
  }

  /** Before row `i` the loop's cursor is within the range the loop accepts. */
  lemma SpotBounds(i: nat)
    ensures TopMargin <= SpotOf(i).y <= PageLimit
  {
    SpotOfIsPlacement(i);
  }

  /** Every row of a report lands at its closed-form place. */
  lemma LayoutPlacement(ts: Ledger)
    ensures forall k :: 0 <= k < |ts| ==>
              Placement(k) == Spot(Layout(ts)[k].page, Layout(ts)[k].y)
  {
    LoopSpotsAgree(|ts|, 0, FirstRowY, 0);
    forall k | 0 <= k < |ts|
      ensures Placement(k) == Spot(Layout(ts)[k].page, Layout(ts)[k].y)
    {
      SpotOfIsPlacement(k);
    }
  }

  /** Row `i` opens a new page exactly when the cursor below row `i - 1` is
      past the page limit, which happens at row 27 and every 36 rows after. */
  lemma NewPageExactly(i: nat)
    requires i > 0
    ensures Placement(i).page != Placement(i - 1).page
        <==> Placement(i - 1).y + RowHeight > PageLimit
    ensures Placement(i).page != Placement(i - 1).page
        <==> i >= FirstPageRows && (i - FirstPageRows) % PageRows == 0
  {
    PlacementStep(i - 1);
  }

  /** The first page holds rows 0 to 26, and page `p >= 1` holds the 36 rows
      from 27 + 36 (p - 1) on. */
  lemma PageCapacity(i: nat, p: nat)
    ensures Placement(i).page == 0 <==> i < FirstPageRows
    ensures p >= 1 ==>
      (Placement(i).page == p <==>
         FirstPageRows + PageRows * (p - 1) <= i < FirstPageRows + PageRows * p)
  {
    if i >= FirstPageRows {
      var j := i - FirstPageRows;
      assert j == PageRows * (j / PageRows) + j % PageRows;
    }
  }

  /** The report built from the ledger at generation time `now`: the totals
      are over the WHOLE ledger and the table holds every transaction. */
  function BuildDocument(ts: Ledger, now: string): (d: Document)
    ensures d.generatedAt == now
    ensures d.totalIn == TotalIn(ts) && d.totalOut == TotalOut(ts)
    ensures d.balance == Balance(ts)
    ensures |d.rows| == |ts|
    ensures forall k :: 0 <= k < |ts| ==>
              && TopMargin <= d.rows[k].y <= PageLimit
              && Placement(k) == Spot(d.rows[k].page, d.rows[k].y)
              && d.rows[k] == DrawRow(ts[k], k, d.rows[k].page, d.rows[k].y)
  {
    var totalIn := TotalIn(ts);
    var totalOut := TotalOut(ts);
    BalanceIsInMinusOut(ts);
    LayoutPlacement(ts);
    Document(now, totalIn, totalOut, totalIn - totalOut, Layout(ts))
  }
}
