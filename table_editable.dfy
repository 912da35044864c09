/**
  Completion statistics of the editable data-entry table.  `updateStats`
  walks every cell of every row and counts the editable cells (`total`) and
  the editable cells whose value is not null (`complete`), once overall, once
  per row and once per column; a counter is created for each row and each
  column index the walk meets, whether or not it holds an editable cell.
*/
module TableEditable {
  import opened Js

  /** A table cell: its `isEditable` flag and its `value` (undefined when absent). */
  datatype Cell = Cell(isEditable: Value, value: Value)

  /** `{complete, total}` */
  datatype Counter = Counter(complete: int, total: int)

  /** `{total, byRow, byColumn}` */
  datatype Stats = Stats(total: Counter, byRow: seq<Counter>, byColumn: seq<Counter>)

  /** `newCounter()` */
  function NewCounter(): Counter {
    Counter(0, 0)
  }

  predicate Editable(c: Cell) {
    Truthy(c.isEditable)
  }

  /** Editable and not null: an undefined value counts as complete. */
  predicate Complete(c: Cell) {
    Editable(c) && !c.value.Null?
  }

  function Add(a: Counter, b: Counter): Counter {
    Counter(a.complete + b.complete, a.total + b.total)
  }

  /** What one cell adds to each counter it is counted in. */
  function CellCounter(c: Cell): Counter {
    if !Editable(c) then NewCounter()
    else if c.value.Null? then Counter(0, 1)
    else Counter(1, 1)
  }

  /** The counter of a run of cells. */
  function Count(cells: seq<Cell>): Counter {
    if |cells| == 0 then NewCounter()
    else Add(Count(cells[..|cells| - 1]), CellCounter(cells[|cells| - 1]))
  }

  /** All cells, row after row. */
  function Flatten(rows: seq<seq<Cell>>): seq<Cell> {
    if |rows| == 0 then []
    else Flatten(rows[..|rows| - 1]) + rows[|rows| - 1]
  }

  /** The length of the longest row: the number of columns. */
  function Width(rows: seq<seq<Cell>>): nat {
    if |rows| == 0 then 0
    else
      var w := Width(rows[..|rows| - 1]);
      var last := |rows[|rows| - 1]|;
      if w < last then last else w
  }

  /** Width is the length of the longest row (0 for no rows). */
  lemma {:induction false} WidthIsLongest(rows: seq<seq<Cell>>)
    ensures forall i :: 0 <= i < |rows| ==> |rows[i]| <= Width(rows)
    ensures Width(rows) == 0 || exists i :: 0 <= i < |rows| && |rows[i]| == Width(rows)
  {
    if |rows| > 0 {
      var q := rows[..|rows| - 1];
      WidthIsLongest(q);
      assert forall i :: 0 <= i < |q| ==> q[i] == rows[i];
    }
  }

  /** The cells of column c, top to bottom, from the rows long enough to have one. */
  function ColumnCells(rows: seq<seq<Cell>>, c: nat): seq<Cell> {
    if |rows| == 0 then []
    else
      var last := rows[|rows| - 1];
      ColumnCells(rows[..|rows| - 1], c) + (if c < |last| then [last[c]] else [])
  }

  /** One counter per row. */
  function RowCounters(rows: seq<seq<Cell>>): (r: seq<Counter>)
    ensures |r| == |rows|
  {
    if |rows| == 0 then []
    else RowCounters(rows[..|rows| - 1]) + [Count(rows[|rows| - 1])]
  }

  /** One counter for each of the first w columns. */
  function ColumnCounters(rows: seq<seq<Cell>>, w: nat): (r: seq<Counter>)
    ensures |r| == w
  {
    if w == 0 then []
    else ColumnCounters(rows, w - 1) + [Count(ColumnCells(rows, w - 1))]
  }

  /** Row k's counter counts row k's cells. */
  lemma {:induction false} RowCountersAt(rows: seq<seq<Cell>>, k: nat)
    requires k < |rows|
    ensures RowCounters(rows)[k] == Count(rows[k])
  {
    var q := rows[..|rows| - 1];
    if k < |q| {
      RowCountersAt(q, k);
      assert q[k] == rows[k];
    }
  }

  /** Column c's counter counts the cells of column c. */
  lemma {:induction false} ColumnCountersAt(rows: seq<seq<Cell>>, w: nat, c: nat)
    requires c < w
    ensures ColumnCounters(rows, w)[c] == Count(ColumnCells(rows, c))
  {
    if c < w - 1 {
      ColumnCountersAt(rows, w - 1, c);
    }
  }

  /** The statistics `updateStats` is meant to compute. */
  function SpecStats(rows: seq<seq<Cell>>): Stats {
    Stats(Count(Flatten(rows)), RowCounters(rows), ColumnCounters(rows, Width(rows)))
  }

  lemma CountSnoc(cells: seq<Cell>, x: Cell)
    ensures Count(cells + [x]) == Add(Count(cells), CellCounter(x))
  {
    assert (cells + [x])[..|cells|] == cells;
  }

  /** Opening a new row adds a zero counter for it and changes nothing else. */
  lemma StartRow(q: seq<seq<Cell>>)
    ensures SpecStats(q + [[]]) == SpecStats(q).(byRow := SpecStats(q).byRow + [NewCounter()])
  {
    var p := q + [[]];
    assert p[..|p| - 1] == q;
    assert Flatten(p) == Flatten(q) + [];
    assert Flatten(p) == Flatten(q);
    assert Width(p) == Width(q);
    assert RowCounters(p) == RowCounters(q) + [Count([])];
    forall c: nat
      ensures ColumnCells(p, c) == ColumnCells(q, c)
    {
      assert ColumnCells(p, c) == ColumnCells(q, c) + [];
    }
    SameColumns(p, q, Width(q));
  }

  lemma {:induction false} SameColumns(p: seq<seq<Cell>>, q: seq<seq<Cell>>, w: nat)
    requires forall c: nat :: c < w ==> ColumnCells(p, c) == ColumnCells(q, c)
    ensures ColumnCounters(p, w) == ColumnCounters(q, w)
  {
    if w > 0 {
      SameColumns(p, q, w - 1);
    }
  }

  /**
    Visiting cell j of the last row: it is added to the overall counter, to
    the row's counter and to its column's counter, which is created first
    when no earlier row reached that column.
  */
  lemma VisitCell(q: seq<seq<Cell>>, row: seq<Cell>, j: nat, before: Stats, cols: seq<Counter>, after: Stats)
    requires j < |row|
    requires before == SpecStats(q + [row[..j]])
    requires cols == if j == |before.byColumn| then before.byColumn + [NewCounter()] else before.byColumn
    requires |q| < |before.byRow| && j < |cols|
    requires after == Stats(
      Add(before.total, CellCounter(row[j])),
      before.byRow[|q| := Add(before.byRow[|q|], CellCounter(row[j]))],
      cols[j := Add(cols[j], CellCounter(row[j]))])
    ensures after == SpecStats(q + [row[..j + 1]])
  {
    assert row[..j + 1] == row[..j] + [row[j]];
    StepTotal(q, row[..j], row[j]);
    StepRows(q, row[..j], row[j]);
    StepColumns(q, row[..j], row[j]);
  }

  /** Before cell j of the last row is visited, the row has a counter and column j has one or is the next to be created. */
  lemma VisitCellBounds(q: seq<seq<Cell>>, row: seq<Cell>, j: nat)
    requires j < |row|
    ensures |q| < |SpecStats(q + [row[..j]]).byRow|
    ensures j <= |SpecStats(q + [row[..j]]).byColumn|
  {
    StepColumns(q, row[..j], row[j]);
  }

  lemma StepTotal(q: seq<seq<Cell>>, r: seq<Cell>, x: Cell)
    ensures Count(Flatten(q + [r + [x]])) == Add(Count(Flatten(q + [r])), CellCounter(x))
  {
    var p := q + [r];
    var p' := q + [r + [x]];
    assert p[..|p| - 1] == q && p'[..|p'| - 1] == q;
    assert Flatten(p) == Flatten(q) + r;
    assert Flatten(p') == Flatten(q) + (r + [x]);
    assert Flatten(p') == Flatten(p) + [x];
    CountSnoc(Flatten(p), x);
  }

  lemma StepRows(q: seq<seq<Cell>>, r: seq<Cell>, x: Cell)
    ensures var before := RowCounters(q + [r]);
      RowCounters(q + [r + [x]]) == before[|q| := Add(before[|q|], CellCounter(x))]
  {
    var p := q + [r];
    var p' := q + [r + [x]];
    assert p[..|p| - 1] == q && p'[..|p'| - 1] == q;
    CountSnoc(r, x);
    assert RowCounters(p) == RowCounters(q) + [Count(r)];
    assert RowCounters(p') == RowCounters(q) + [Count(r + [x])];
    assert (RowCounters(q) + [Count(r)])[|q| := Count(r + [x])] == RowCounters(q) + [Count(r + [x])];
  }

  lemma StepColumns(q: seq<seq<Cell>>, r: seq<Cell>, x: Cell)
    ensures var before := ColumnCounters(q + [r], Width(q + [r]));
      var cols := if |r| == |before| then before + [NewCounter()] else before;
      |r| <= |before| &&
      ColumnCounters(q + [r + [x]], Width(q + [r + [x]])) == cols[|r| := Add(cols[|r|], CellCounter(x))]
  {
    var p := q + [r];
    var p' := q + [r + [x]];
    AllColumnsGrow(q, r, x);
    WidthStep(q, r, x);
    var w := Width(p);
    if |r| == w {
      NewColumnStep(p, p', |r|, x);
    } else {
      ColumnsStep(p, p', |r|, x, w);
    }
  }

  lemma AllColumnsGrow(q: seq<seq<Cell>>, r: seq<Cell>, x: Cell)
    ensures forall c: nat :: ColumnCells(q + [r + [x]], c) == ColumnCells(q + [r], c) + (if c == |r| then [x] else [])
  {
    forall c: nat
      ensures ColumnCells(q + [r + [x]], c) == ColumnCells(q + [r], c) + (if c == |r| then [x] else [])
    {
      ColumnGrows(q, r, x, c);
    }
  }

  /** The last row r is at most as long as the widest row, and growing it past that widens the table by one. */
  lemma WidthStep(q: seq<seq<Cell>>, r: seq<Cell>, x: Cell)
    ensures |r| <= Width(q + [r])
    ensures Width(q + [r + [x]]) == if |r| == Width(q + [r]) then Width(q + [r]) + 1 else Width(q + [r])
  {
    var p := q + [r];
    var p' := q + [r + [x]];
    assert p[..|p| - 1] == q && p'[..|p'| - 1] == q;
  }

  /** Adding x to the new column k = Width(p): its counter is created and counts x. */
  lemma NewColumnStep(p: seq<seq<Cell>>, p': seq<seq<Cell>>, k: nat, x: Cell)
    requires forall c: nat :: ColumnCells(p', c) == ColumnCells(p, c) + (if c == k then [x] else [])
    requires k == Width(p)
    ensures var cols := ColumnCounters(p, k) + [NewCounter()];
      ColumnCounters(p', k + 1) == cols[k := Add(cols[k], CellCounter(x))]
  {
    ColumnBeyondWidth(p, k);
    assert ColumnCounters(p, k + 1) == ColumnCounters(p, k) + [Count(ColumnCells(p, k))];
    ColumnsStep(p, p', k, x, k + 1);
  }

  /** Appending x to the last row r adds x to column |r| and to no other column. */
  lemma ColumnGrows(q: seq<seq<Cell>>, r: seq<Cell>, x: Cell, c: nat)
    ensures ColumnCells(q + [r + [x]], c) == ColumnCells(q + [r], c) + (if c == |r| then [x] else [])
  {
    var p := q + [r];
    var p' := q + [r + [x]];
    assert p[..|p| - 1] == q && p'[..|p'| - 1] == q;
    if c < |r| {
      assert (r + [x])[c] == r[c];
    } else if c > |r| {
      assert ColumnCells(p', c) == ColumnCells(q, c) + [];
      assert ColumnCells(p, c) == ColumnCells(q, c) + [];
    } else {
      assert ColumnCells(p, c) == ColumnCells(q, c) + [];
    }
  }

  /** Adding x to column k changes only column k's counter among the first w. */
  lemma {:induction false} ColumnsStep(p: seq<seq<Cell>>, p': seq<seq<Cell>>, k: nat, x: Cell, w: nat)
    requires forall c: nat :: ColumnCells(p', c) == ColumnCells(p, c) + (if c == k then [x] else [])
    requires k < w
    ensures ColumnCounters(p', w) == ColumnCounters(p, w)[k := Add(ColumnCounters(p, w)[k], CellCounter(x))]
  {
    if w - 1 == k {
      ColumnsStepAt(p, p', k, x);
    } else {
      ColumnsStep(p, p', k, x, w - 1);
      ColumnsStepPast(p, p', k, x, w - 1);
    }
  }

  /** Column k's counter, the last of the first k + 1, is the one that grows. */
  lemma ColumnsStepAt(p: seq<seq<Cell>>, p': seq<seq<Cell>>, k: nat, x: Cell)
    requires forall c: nat :: ColumnCells(p', c) == ColumnCells(p, c) + (if c == k then [x] else [])
    ensures ColumnCounters(p', k + 1) == ColumnCounters(p, k + 1)[k := Add(ColumnCounters(p, k + 1)[k], CellCounter(x))]
  {
    forall i: nat | i < k
      ensures ColumnCells(p', i) == ColumnCells(p, i)
    {
      assert ColumnCells(p, i) + [] == ColumnCells(p, i);
    }
    SameColumns(p', p, k);
    CountSnoc(ColumnCells(p, k), x);
    assert ColumnCounters(p', k + 1) == ColumnCounters(p, k) + [Add(Count(ColumnCells(p, k)), CellCounter(x))];
  }

  /** A column c past k keeps its counter. */
  lemma ColumnsStepPast(p: seq<seq<Cell>>, p': seq<seq<Cell>>, k: nat, x: Cell, c: nat)
    requires forall c: nat :: ColumnCells(p', c) == ColumnCells(p, c) + (if c == k then [x] else [])
    requires k < c
    requires ColumnCounters(p', c) == ColumnCounters(p, c)[k := Add(ColumnCounters(p, c)[k], CellCounter(x))]
    ensures ColumnCounters(p', c + 1) == ColumnCounters(p, c + 1)[k := Add(ColumnCounters(p, c + 1)[k], CellCounter(x))]
  {
    var before := ColumnCounters(p, c);
    var column := ColumnCells(p, c);
    assert ColumnCells(p', c) == column + [];
    assert column + [] == column;
    var v := Add(before[k], CellCounter(x));
    var e := Count(column);
    assert ColumnCounters(p', c + 1) == ColumnCounters(p', c) + [e];
    assert ColumnCounters(p, c + 1) == before + [e];
    assert (before + [e])[k := v] == before[k := v] + [e];
  }

  lemma {:induction false} ColumnBeyondWidth(rows: seq<seq<Cell>>, c: nat)
    requires c >= Width(rows)
    ensures ColumnCells(rows, c) == []
  {
    if |rows| > 0 {
      ColumnBeyondWidth(rows[..|rows| - 1], c);
    }
  }

  /** The loop body for one cell: an editable cell bumps `total`, and also `complete` when its value is not null. */
  method CountCell(cell: Cell, total: Counter, byRow: seq<Counter>, byColumn: seq<Counter>, i: nat, j: nat)
    returns (total': Counter, byRow': seq<Counter>, byColumn': seq<Counter>)
    requires i < |byRow| && j < |byColumn|
    ensures total' == Add(total, CellCounter(cell))
    ensures byRow' == byRow[i := Add(byRow[i], CellCounter(cell))]
    ensures byColumn' == byColumn[j := Add(byColumn[j], CellCounter(cell))]
  {
    total', byRow', byColumn' := total, byRow, byColumn;
    if Truthy(cell.isEditable) {
      total' := total'.(total := total'.total + 1);
      byRow' := byRow'[i := byRow'[i].(total := byRow'[i].total + 1)];
      byColumn' := byColumn'[j := byColumn'[j].(total := byColumn'[j].total + 1)];
      if !cell.value.Null? {
        total' := total'.(complete := total'.complete + 1);
        byRow' := byRow'[i := byRow'[i].(complete := byRow'[i].complete + 1)];
        byColumn' := byColumn'[j := byColumn'[j].(complete := byColumn'[j].complete + 1)];
      }
    }
  }

  /**
    The row callback: opens the row's counter, then walks its cells; the
    statistics of the rows before it become those of the rows up to it.
  */
  method CountRow(q: seq<seq<Cell>>, row: seq<Cell>, total: Counter, byRow: seq<Counter>, byColumn: seq<Counter>)
    returns (total': Counter, byRow': seq<Counter>, byColumn': seq<Counter>)
    requires Stats(total, byRow, byColumn) == SpecStats(q)
    ensures Stats(total', byRow', byColumn') == SpecStats(q + [row])
  {
    total', byRow', byColumn' := OpenRow(q, total, byRow, byColumn);
    assert row[..0] == [];
    var j := 0;
    while j < |row|
      invariant 0 <= j <= |row|
      invariant Stats(total', byRow', byColumn') == SpecStats(q + [row[..j]])
    {
      total', byRow', byColumn' := OpenAndCountCell(q, row, j, total', byRow', byColumn');
      j := j + 1;
    }
    assert row[..j] == row;
  }

  /** Opens the counter of row |q| when it has none. */
  method OpenRow(q: seq<seq<Cell>>, total: Counter, byRow: seq<Counter>, byColumn: seq<Counter>)
    returns (total': Counter, byRow': seq<Counter>, byColumn': seq<Counter>)
    requires Stats(total, byRow, byColumn) == SpecStats(q)
    ensures Stats(total', byRow', byColumn') == SpecStats(q + [[]])
  {
    total', byRow', byColumn' := total, byRow, byColumn;
    StartRow(q);
    if |q| == |byRow'| {
      byRow' := byRow' + [NewCounter()];
    }
  }

  /**
    The cell callback for cell j of the row after the rows q: opens the
    column's counter when the column is new, then counts the cell.
  */
  method OpenAndCountCell(q: seq<seq<Cell>>, row: seq<Cell>, j: nat, total: Counter, byRow: seq<Counter>, byColumn: seq<Counter>)
    returns (total': Counter, byRow': seq<Counter>, byColumn': seq<Counter>)
    requires j < |row|
    requires Stats(total, byRow, byColumn) == SpecStats(q + [row[..j]])
    ensures Stats(total', byRow', byColumn') == SpecStats(q + [row[..j + 1]])
  {
    VisitCellBounds(q, row, j);
    var cols := byColumn;
    if j == |cols| {
      cols := cols + [NewCounter()];
    }
    total', byRow', byColumn' := CountCell(row[j], total, byRow, cols, |q|, j);
    VisitCell(q, row, j, Stats(total, byRow, byColumn), cols, Stats(total', byRow', byColumn'));
  }

  /**
    `updateStats` without the final `$set`: the nested walk builds exactly the
    statistics of the table; with no rows every counter is zero and both
    lists are empty.
  */
  method ComputeStats(rows: seq<seq<Cell>>) returns (stats: Stats)
    ensures stats == SpecStats(rows)
    ensures rows == [] ==> stats == Stats(NewCounter(), [], [])
  {
    var total := NewCounter();
    var byRow: seq<Counter> := [];
    var byColumn: seq<Counter> := [];
    if |rows| > 0 {
      var i := 0;
      while i < |rows|
        invariant 0 <= i <= |rows|
        invariant Stats(total, byRow, byColumn) == SpecStats(rows[..i])
      {
        total, byRow, byColumn := CountRow(rows[..i], rows[i], total, byRow, byColumn);
        assert rows[..i] + [rows[i]] == rows[..i + 1];
        i := i + 1;
      }
      assert rows[..i] == rows;
    }
    stats := Stats(total, byRow, byColumn);
  }

  /** The Vue component: its `rows` and the `stats` it shows. */
  class Table {
    var rows: seq<seq<Cell>>
    var stats: Stats

    constructor(rows: seq<seq<Cell>>)
      ensures this.rows == rows && stats == SpecStats(rows)
    {
      this.rows := rows;
      stats := SpecStats(rows);
    }

    /** `updateStats()`: recomputes the statistics of the current rows and `$set`s them. */
    method UpdateStats()
      modifies this
      ensures rows == old(rows)
      ensures stats == SpecStats(rows)
    {
      var s := ComputeStats(rows);
      stats := s;
    }
  }

  function SumCounters(cs: seq<Counter>): Counter {
    if |cs| == 0 then NewCounter()
    else Add(SumCounters(cs[..|cs| - 1]), cs[|cs| - 1])
  }

  lemma {:induction false} CountAppend(a: seq<Cell>, b: seq<Cell>)
    ensures Count(a + b) == Add(Count(a), Count(b))
    decreases |b|
  {
    if b == [] {
      assert a + b == a;
    } else {
      var b' := b[..|b| - 1];
      var ab := a + b;
      assert ab[..|ab| - 1] == a + b';
      assert ab[|ab| - 1] == b[|b| - 1];
      CountAppend(a, b');
    }
  }

  /** A counter of a run of cells: no more complete cells than editable ones, and none below zero. */
  predicate Consistent(c: Counter) {
    0 <= c.complete <= c.total
  }

  /** Counting a run of cells gives a consistent counter whose total is at most the number of cells. */
  lemma {:induction false} CountBounds(cells: seq<Cell>)
    ensures Consistent(Count(cells))
    ensures Count(cells).total <= |cells|
  {
    if |cells| > 0 {
      CountBounds(cells[..|cells| - 1]);
    }
  }

  /** The overall counter, every row counter and every column counter are consistent. */
  lemma StatsConsistent(rows: seq<seq<Cell>>)
    ensures var st := SpecStats(rows);
      && Consistent(st.total)
      && (forall k :: 0 <= k < |st.byRow| ==> Consistent(st.byRow[k]))
      && (forall c :: 0 <= c < |st.byColumn| ==> Consistent(st.byColumn[c]))
  {
    CountBounds(Flatten(rows));
    forall k | 0 <= k < |rows|
      ensures Consistent(RowCounters(rows)[k])
    {
      RowCountersAt(rows, k);
      CountBounds(rows[k]);
    }
    forall c | 0 <= c < Width(rows)
      ensures Consistent(ColumnCounters(rows, Width(rows))[c])
    {
      ColumnCountersAt(rows, Width(rows), c);
      CountBounds(ColumnCells(rows, c));
    }
  }

  /**
    One counter per row, rows without editable cells included, and one per
    column index up to the longest row; no rows give zero totals and empty lists.
  */
  lemma StatsShape(rows: seq<seq<Cell>>)
    ensures |SpecStats(rows).byRow| == |rows|
    ensures forall i :: 0 <= i < |rows| ==> |rows[i]| <= |SpecStats(rows).byColumn|
    ensures |SpecStats(rows).byColumn| == 0 || exists i :: 0 <= i < |rows| && |rows[i]| == |SpecStats(rows).byColumn|
    ensures rows == [] ==> SpecStats(rows) == Stats(NewCounter(), [], [])
  {
    WidthIsLongest(rows);
  }

  /** The row counters add up to the overall counter. */
  lemma {:induction false} RowsSumToTotal(rows: seq<seq<Cell>>)
    ensures SumCounters(SpecStats(rows).byRow) == SpecStats(rows).total
  {
    if |rows| > 0 {
      var q := rows[..|rows| - 1];
      RowsSumToTotal(q);
      var br := SpecStats(rows).byRow;
      assert br[..|br| - 1] == SpecStats(q).byRow;
      CountAppend(Flatten(q), rows[|rows| - 1]);
    }
  }

  lemma SumSnoc(cs: seq<Counter>, c: Counter)
    ensures SumCounters(cs + [c]) == Add(SumCounters(cs), c)
  {
    assert (cs + [c])[..|cs|] == cs;
  }

  /** The first w column counters summed, column by column. */
  function SumColumns(rows: seq<seq<Cell>>, w: nat): Counter {
    if w == 0 then NewCounter()
    else Add(SumColumns(rows, w - 1), Count(ColumnCells(rows, w - 1)))
  }

  lemma {:induction false} SumColumnCounters(rows: seq<seq<Cell>>, w: nat)
    ensures SumCounters(ColumnCounters(rows, w)) == SumColumns(rows, w)
  {
    if w > 0 {
      SumColumnCounters(rows, w - 1);
      SumSnoc(ColumnCounters(rows, w - 1), Count(ColumnCells(rows, w - 1)));
    }
  }

  /** Adding row r to the table adds Count(r) to the sum of the first w columns, when r fits in them. */
  lemma {:induction false} ColumnsAddRow(q: seq<seq<Cell>>, r: seq<Cell>, w: nat)
    requires |r| <= w
    ensures SumColumns(q + [r], w) == Add(SumColumns(q, w), Count(r))
    decreases w
  {
    if w == 0 {
      assert r == [];
      AddZero(NewCounter());
    } else if |r| == w {
      ColumnsAddRow(q, r[..w - 1], w - 1);
      AddRowThroughColumn(q, r, w);
    } else {
      ColumnsAddRow(q, r, w - 1);
      AddRowPastColumn(q, r, w);
    }
  }

  /** The step of ColumnsAddRow for column w - 1, the last cell of r. */
  lemma AddRowThroughColumn(q: seq<seq<Cell>>, r: seq<Cell>, w: nat)
    requires 0 < w == |r|
    requires SumColumns(q + [r[..w - 1]], w - 1) == Add(SumColumns(q, w - 1), Count(r[..w - 1]))
    ensures SumColumns(q + [r], w) == Add(SumColumns(q, w), Count(r))
  {
    ColumnsPrefixRow(q, r, w - 1);
    ColumnWithCell(q, r, w - 1);
    SumColumnsLast(q + [r], w);
    SumColumnsLast(q, w);
    CountLast(r);
    Regroup(SumColumns(q + [r], w), SumColumns(q + [r], w - 1), Count(ColumnCells(q + [r], w - 1)),
      SumColumns(q, w - 1), Count(r[..w - 1]), Count(ColumnCells(q, w - 1)), CellCounter(r[w - 1]));
  }

  lemma SumColumnsLast(rows: seq<seq<Cell>>, w: nat)
    requires 0 < w
    ensures SumColumns(rows, w) == Add(SumColumns(rows, w - 1), Count(ColumnCells(rows, w - 1)))
  {
  }

  lemma CountLast(cells: seq<Cell>)
    requires 0 < |cells|
    ensures Count(cells) == Add(Count(cells[..|cells| - 1]), CellCounter(cells[|cells| - 1]))
  {
  }

  /** Sums of four counters regrouped: (a + b) + (c + d) = (a + c) + (b + d). */
  lemma Regroup(sum: Counter, rows: Counter, column: Counter, a: Counter, b: Counter, c: Counter, d: Counter)
    requires sum == Add(rows, column) && rows == Add(a, b) && column == Add(c, d)
    ensures sum == Add(Add(a, c), Add(b, d))
  {
  }

  /** The step of ColumnsAddRow for a column w - 1 that r does not reach. */
  lemma AddRowPastColumn(q: seq<seq<Cell>>, r: seq<Cell>, w: nat)
    requires 0 < w && |r| < w
    requires SumColumns(q + [r], w - 1) == Add(SumColumns(q, w - 1), Count(r))
    ensures SumColumns(q + [r], w) == Add(SumColumns(q, w), Count(r))
  {
    ColumnWithoutCell(q, r, w - 1);
    var c := Count(ColumnCells(q, w - 1));
    assert SumColumns(q + [r], w) == Add(SumColumns(q + [r], w - 1), c);
    assert SumColumns(q, w) == Add(SumColumns(q, w - 1), c);
    AddShuffle(SumColumns(q, w - 1), Count(r), c, NewCounter());
    AddZero(Count(r));
    AddZero(c);
  }


  lemma AddShuffle(a: Counter, b: Counter, c: Counter, d: Counter)
    ensures Add(Add(a, b), Add(c, d)) == Add(Add(a, c), Add(b, d))
  {
  }

  /** Column c of the table grows by the cell r[c] when row r is added. */
  lemma ColumnWithCell(q: seq<seq<Cell>>, r: seq<Cell>, c: nat)
    requires c < |r|
    ensures Count(ColumnCells(q + [r], c)) == Add(Count(ColumnCells(q, c)), CellCounter(r[c]))
  {
    var p := q + [r];
    assert p[..|p| - 1] == q;
    CountSnoc(ColumnCells(q, c), r[c]);
  }

  /** Column c of the table is unchanged by a row too short to reach it. */
  lemma ColumnWithoutCell(q: seq<seq<Cell>>, r: seq<Cell>, c: nat)
    requires |r| <= c
    ensures ColumnCells(q + [r], c) == ColumnCells(q, c)
  {
    var p := q + [r];
    assert p[..|p| - 1] == q;
    assert ColumnCells(p, c) == ColumnCells(q, c) + [];
  }

  /** Cutting the last row at column w does not change the first w column sums. */
  lemma {:induction false} ColumnsPrefixRow(q: seq<seq<Cell>>, r: seq<Cell>, w: nat)
    requires w <= |r|
    ensures SumColumns(q + [r], w) == SumColumns(q + [r[..w]], w)
  {
    var p := q + [r];
    var p' := q + [r[..w]];
    assert p[..|p| - 1] == q && p'[..|p'| - 1] == q;
    forall c: nat | c < w
      ensures ColumnCells(p, c) == ColumnCells(p', c)
    {
      assert r[..w][c] == r[c];
    }
    SameColumnSums(p, p', w);
  }

  lemma {:induction false} SameColumnSums(p: seq<seq<Cell>>, p': seq<seq<Cell>>, w: nat)
    requires forall c: nat :: c < w ==> ColumnCells(p, c) == ColumnCells(p', c)
    ensures SumColumns(p, w) == SumColumns(p', w)
  {
    if w > 0 {
      SameColumnSums(p, p', w - 1);
    }
  }

  lemma AddZero(a: Counter)
    ensures Add(a, NewCounter()) == a
  {
  }

  /** Past the last column every column is empty, so summing more columns changes nothing. */
  lemma {:induction false} ColumnsWiden(rows: seq<seq<Cell>>, v: nat, w: nat)
    requires Width(rows) <= v <= w
    ensures SumColumns(rows, w) == SumColumns(rows, v)
    decreases w
  {
    if w != v {
      EmptyColumn(rows, w);
      ColumnsWiden(rows, v, w - 1);
    }
  }

  lemma EmptyColumn(rows: seq<seq<Cell>>, w: nat)
    requires Width(rows) < w
    ensures SumColumns(rows, w) == SumColumns(rows, w - 1)
  {
    ColumnBeyondWidth(rows, w - 1);
    AddZero(SumColumns(rows, w - 1));
  }

  /** Summing every column counts every cell once. */
  lemma {:induction false} ColumnSumsCountAll(rows: seq<seq<Cell>>)
    ensures SumColumns(rows, Width(rows)) == Count(Flatten(rows))
  {
    if |rows| > 0 {
      var q := rows[..|rows| - 1];
      var r := rows[|rows| - 1];
      assert rows == q + [r];
      ColumnSumsCountAll(q);
      var w := Width(rows);
      ColumnsAddRow(q, r, w);
      ColumnsWiden(q, Width(q), w);
      CountAppend(Flatten(q), r);
    }
  }

  /** The column counters add up to the overall counter. */
  lemma ColumnsSumToTotal(rows: seq<seq<Cell>>)
    ensures SumCounters(SpecStats(rows).byColumn) == SpecStats(rows).total
  {
    SumColumnCounters(rows, Width(rows));
    ColumnSumsCountAll(rows);
  }
}
