/** src/libs/tombala/card.js: a card drawn from the seeded Park–Miller generator. First the
    number of numbers per column (1 to 3, 15 in all), then which rows of each column hold
    them (five per row), then the numbers of each column, ascending from top to bottom. */
module TombalaCard {
  import opened Wrappers
  import opened Seqs
  import opened Cards
  import opened TombalaRng

  /** `COLUMN_RANGES`: 1-9, 10-19, ..., 70-79, 80-90. */
  const COLUMN_RANGES: seq<(int, int)> :=
    [(1, 9), (10, 19), (20, 29), (30, 39), (40, 49), (50, 59), (60, 69), (70, 79), (80, 90)]

  /** The source's `while (remaining > 0)` draw loop has no bound; the model stops after this
      many draws and reports it, so that every run of the model terminates. */
  const COLUMN_DRAW_LIMIT: nat := 100000

  /** `buildPlacement` gives up after this many attempts. */
  const PLACEMENT_ATTEMPTS: nat := 250

  datatype CardError =
    | ColumnDrawLimitReached
      /** `new Error('Could not generate a valid tombala card placement')`. */
    | PlacementFailed

  lemma ColumnRangesOrdered()
    ensures OrderedRanges(COLUMN_RANGES)
    ensures forall c :: 0 <= c < CARD_COLS ==> COLUMN_RANGES[c].1 - COLUMN_RANGES[c].0 + 1 >= 3
  {
  }

  /** `[0, 1, 2].filter((row) => mask[row])`: the rows a three-entry mask selects, top to bottom. */
  function RowsWhere(mask: seq<bool>): (rows: seq<int>)
    requires |mask| == CARD_ROWS
    ensures StrictlyIncreasing(rows)
    ensures forall row :: row in rows <==> 0 <= row < CARD_ROWS && mask[row]
    ensures forall k :: 0 <= k < |rows| ==> 0 <= rows[k] < CARD_ROWS
    ensures |rows| == CountTrue(mask)
  {
    assert mask == [mask[0], mask[1], mask[2]];
    CountTrueThree(mask[0], mask[1], mask[2]);
    (if mask[0] then [0] else []) + (if mask[1] then [1] else []) + (if mask[2] then [2] else [])
  }

  /** Rows still below five numbers: the candidates for the next column. */
  function OpenRows(rowCounts: seq<int>): seq<bool>
    requires |rowCounts| == CARD_ROWS
  {
    [rowCounts[0] < NUMBERS_PER_ROW, rowCounts[1] < NUMBERS_PER_ROW, rowCounts[2] < NUMBERS_PER_ROW]
  }

  /** A placement: 3 rows of 9 flags, `true` where the card will hold a number. */
  predicate PlacementShape(p: seq<seq<bool>>)
  {
    |p| == CARD_ROWS && forall row :: 0 <= row < |p| ==> |p[row]| == CARD_COLS
  }

  /** The flags of column `c`, top to bottom. */
  function ColumnMask(p: seq<seq<bool>>, c: int): (m: seq<bool>)
    requires PlacementShape(p) && 0 <= c < CARD_COLS
    ensures |m| == CARD_ROWS && forall row :: 0 <= row < CARD_ROWS ==> m[row] == p[row][c]
  {
    [p[0][c], p[1][c], p[2][c]]
  }

  /** The placement `tryBuildPlacement` accepts: column `c` holds `counts[c]` numbers and
      every row holds five. */
  predicate ValidPlacement(p: seq<seq<bool>>, counts: seq<int>)
    requires |counts| == CARD_COLS
  {
    && PlacementShape(p)
    && (forall c :: 0 <= c < CARD_COLS ==> CountTrue(ColumnMask(p, c)) == counts[c])
    && (forall row :: 0 <= row < CARD_ROWS ==> CountTrue(p[row]) == NUMBERS_PER_ROW)
  }

  /** A column whose flags mark exactly the distinct selected rows holds as many numbers as
      were selected. */
  lemma SelectedColumnCount(mask: seq<bool>, sel: seq<int>)
    requires Distinct(sel) && forall k :: 0 <= k < |sel| ==> 0 <= sel[k] < CARD_ROWS
    requires |mask| == CARD_ROWS && forall row :: 0 <= row < CARD_ROWS ==> mask[row] == (row in sel)
    ensures CountTrue(mask) == |sel|
  {
    DistinctRowsCount(sel);
    assert mask == [0 in sel, 1 in sel, 2 in sel];
  }

  /** The first `n` of a shuffle of distinct rows are distinct rows. */
  lemma SelectionOfRows(rows: seq<int>, shuffled: seq<int>, n: nat)
    requires StrictlyIncreasing(rows) && forall row :: row in rows ==> 0 <= row < CARD_ROWS
    requires multiset(shuffled) == multiset(rows) && n <= |shuffled|
    ensures Distinct(shuffled[..n]) && forall k :: 0 <= k < n ==> 0 <= shuffled[..n][k] < CARD_ROWS
  {
    DistinctPermutation(rows, shuffled);
    DistinctPrefix(shuffled, n);
    forall k | 0 <= k < n ensures 0 <= shuffled[..n][k] < CARD_ROWS {
      assert shuffled[..n][k] == shuffled[k] && shuffled[k] in multiset(shuffled);
      assert shuffled[k] in rows;
    }
  }

  /** `generateColumnCounts`: every column starts with one number; six more go to columns
      drawn with `nextInt(9)`, skipping columns that already hold three. */
  method GenerateColumnCounts(rng: SeededRng) returns (r: Option<seq<int>>)
    requires rng.Valid()
    modifies rng
    ensures rng.Valid()
    ensures r.Some? ==> ValidColumnCounts(r.value)
  {
    var counts := new int[CARD_COLS](_ => 1);
    assert counts[..] == seq(CARD_COLS, _ => 1);
    SumFill(CARD_COLS, 1);
    var remaining := 6;
    var draws := 0;
    while remaining > 0
      invariant rng.Valid()
      invariant 0 <= remaining && draws <= COLUMN_DRAW_LIMIT
      invariant forall c :: 0 <= c < CARD_COLS ==> 1 <= counts[c] <= 3
      invariant Sum(counts[..]) + remaining == CARD_ROWS * NUMBERS_PER_ROW
      decreases COLUMN_DRAW_LIMIT - draws
    {
      if draws == COLUMN_DRAW_LIMIT {
        return None;
      }
      var col := rng.NextInt(CARD_COLS);
      draws := draws + 1;
      if counts[col] < 3 {
        SumUpdate(counts[..], col, counts[col] + 1);
        counts[col] := counts[col] + 1;
        remaining := remaining - 1;
      }
    }
    return Some(counts[..]);
  }

  /** `tryBuildPlacement`: column by column, shuffle the rows that still hold fewer than five
      numbers and mark the first `counts[col]` of them; `None` when a column finds too few
      open rows or a row ends with other than five numbers. */
  method TryBuildPlacement(columnCounts: seq<int>, rng: SeededRng) returns (r: Option<seq<seq<bool>>>)
    requires rng.Valid()
    requires |columnCounts| == CARD_COLS && forall c :: 0 <= c < CARD_COLS ==> 0 <= columnCounts[c]
    modifies rng
    ensures rng.Valid()
    ensures r.Some? ==> ValidPlacement(r.value, columnCounts)
  {
    var rowCounts := [0, 0, 0];
    var placement := EmptyPlacement();
    for col := 0 to CARD_COLS
      invariant rng.Valid()
      invariant PlacedThrough(placement, rowCounts, columnCounts, col)
    {
      var needed := columnCounts[col];
      var candidateRows := RowsWhere(OpenRows(rowCounts));
      if |candidateRows| < needed {
        return None;
      }
      var shuffled := rng.Shuffle(candidateRows);
      var selected := shuffled[..needed];
      SelectionOfRows(candidateRows, shuffled, needed);
      placement, rowCounts := MarkSelected(placement, rowCounts, columnCounts, col, selected);
    }
    if rowCounts[0] != NUMBERS_PER_ROW || rowCounts[1] != NUMBERS_PER_ROW || rowCounts[2] != NUMBERS_PER_ROW {
      return None;
    }
    return Some(placement);
  }

  /** `Array.from({ length: 3 }, () => Array(9).fill(false))`: no flag set, no row counted. */
  function EmptyPlacement(): (p: seq<seq<bool>>)
    ensures PlacementShape(p)
    ensures forall row, c :: 0 <= row < CARD_ROWS && 0 <= c < CARD_COLS ==> !p[row][c]
    ensures forall row :: 0 <= row < CARD_ROWS ==> CountTrue(p[row]) == 0
  {
    var empty := seq(CARD_COLS, _ => false);
    CountTrueNone(empty);
    seq(CARD_ROWS, _ => empty)
  }

  /** The placement after `col` columns: the row counts follow the flags, the columns before
      `col` hold their counts and the rest are empty. */
  predicate PlacedThrough(p: seq<seq<bool>>, rowCounts: seq<int>, columnCounts: seq<int>, col: int)
    requires |columnCounts| == CARD_COLS
  {
    && PlacementShape(p) && |rowCounts| == CARD_ROWS && 0 <= col <= CARD_COLS
    && (forall row :: 0 <= row < CARD_ROWS ==> rowCounts[row] == CountTrue(p[row]))
    && (forall c :: 0 <= c < col ==> CountTrue(ColumnMask(p, c)) == columnCounts[c])
    && (forall row, c :: 0 <= row < CARD_ROWS && col <= c < CARD_COLS ==> !p[row][c])
  }

  /** Marking `columnCounts[col]` distinct rows in the empty column `col` extends the placement by one column. */
  lemma MarkedColumnStep(before: seq<seq<bool>>, after: seq<seq<bool>>, rowCounts: seq<int>,
                         columnCounts: seq<int>, col: int, selected: seq<int>)
    requires |columnCounts| == CARD_COLS && 0 <= col < CARD_COLS
    requires PlacementShape(before) && PlacementShape(after) && |rowCounts| == CARD_ROWS
    requires forall c :: 0 <= c < col ==> CountTrue(ColumnMask(before, c)) == columnCounts[c]
    requires forall row, c :: 0 <= row < CARD_ROWS && col <= c < CARD_COLS ==> !before[row][c]
    requires Distinct(selected) && forall k :: 0 <= k < |selected| ==> 0 <= selected[k] < CARD_ROWS
    requires |selected| == columnCounts[col]
    requires forall row :: 0 <= row < CARD_ROWS ==> rowCounts[row] == CountTrue(after[row])
    requires forall row :: 0 <= row < CARD_ROWS ==> after[row][col] == (row in selected)
    requires forall row, c :: 0 <= row < CARD_ROWS && 0 <= c < CARD_COLS && c != col ==> after[row][c] == before[row][c]
    ensures PlacedThrough(after, rowCounts, columnCounts, col + 1)
  {
    SelectedColumnCount(ColumnMask(after, col), selected);
    forall c | 0 <= c < col ensures CountTrue(ColumnMask(after, c)) == columnCounts[c] {
      assert ColumnMask(after, c) == ColumnMask(before, c);
    }
  }

  /** `selected.forEach((row) => { placement[row][col] = true; rowCounts[row] += 1; })` on an
      empty column: the selected rows, and only they, get the column, and each row's count
      stays its number of flags. */
  method MarkSelected(placement: seq<seq<bool>>, rowCounts: seq<int>, columnCounts: seq<int>, col: int, selected: seq<int>)
    returns (r: seq<seq<bool>>, counts: seq<int>)
    requires |columnCounts| == CARD_COLS && 0 <= col < CARD_COLS
    requires PlacedThrough(placement, rowCounts, columnCounts, col)
    requires Distinct(selected) && forall k :: 0 <= k < |selected| ==> 0 <= selected[k] < CARD_ROWS
    requires |selected| == columnCounts[col]
    ensures PlacedThrough(r, counts, columnCounts, col + 1)
    ensures forall row :: 0 <= row < CARD_ROWS ==> r[row][col] == (row in selected)
    ensures forall row, c :: 0 <= row < CARD_ROWS && 0 <= c < CARD_COLS && c != col ==> r[row][c] == placement[row][c]
  {
    r, counts := placement, rowCounts;
    for k := 0 to |selected|
      invariant PlacementShape(r) && |counts| == CARD_ROWS
      invariant forall row :: 0 <= row < CARD_ROWS ==> counts[row] == CountTrue(r[row])
      invariant forall row :: 0 <= row < CARD_ROWS ==> r[row][col] == (row in selected[..k])
      invariant forall row, c :: 0 <= row < CARD_ROWS && 0 <= c < CARD_COLS && c != col ==>
        r[row][c] == placement[row][c]
    {
      var row := selected[k];
      assert selected[..k + 1] == selected[..k] + [row];
      assert row !in selected[..k];
      CountTrueSet(r[row], col);
      r := r[row := r[row][col := true]];
      counts := counts[row := counts[row] + 1];
    }
    assert selected[..|selected|] == selected;
    MarkedColumnStep(placement, r, counts, columnCounts, col, selected);
  }

  /** `buildPlacement`: up to 250 attempts, then the error. `attempts` counts the calls of
      `tryBuildPlacement`: a placement is returned from the first attempt that yields one, and
      the error only once all 250 have failed. */
  method BuildPlacement(columnCounts: seq<int>, rng: SeededRng) returns (r: Result<seq<seq<bool>>, CardError>, attempts: nat)
    requires rng.Valid()
    requires |columnCounts| == CARD_COLS && forall c :: 0 <= c < CARD_COLS ==> 0 <= columnCounts[c]
    modifies rng
    ensures rng.Valid()
    ensures 1 <= attempts <= PLACEMENT_ATTEMPTS
    ensures r.Ok? ==> ValidPlacement(r.value, columnCounts)
    ensures r.Err? <==> attempts == PLACEMENT_ATTEMPTS && r == Err(PlacementFailed)
  {
    attempts := 0;
    while attempts < PLACEMENT_ATTEMPTS
      invariant rng.Valid() && attempts <= PLACEMENT_ATTEMPTS
    {
      var placement := TryBuildPlacement(columnCounts, rng);
      attempts := attempts + 1;
      if placement.Some? {
        return Ok(placement.value), attempts;
      }
    }
    return Err(PlacementFailed), attempts;
  }

  /** `sampleWithoutReplacement`: the values `min..max`, shuffled by the descending
      Fisher–Yates pass (the same pass `SeededRng.Shuffle` makes), the first `count` of
      them, ascending. */
  method SampleWithoutReplacement(min: int, max: int, count: nat, rng: SeededRng) returns (r: seq<int>)
    requires rng.Valid()
    modifies rng
    ensures rng.Valid()
    ensures |r| == Min(count, |Range(min, max)|)
    ensures StrictlyIncreasing(r)
    ensures forall x :: x in r ==> min <= x <= max
    ensures var top := TopIndex(|Range(min, max)|);
      && r == SortAscending(SwapDown(Range(min, max), top, PMIndices(old(rng.state), top))[..Min(count, |Range(min, max)|)])
      && rng.state == PMAfter(old(rng.state), top)
  {
    var values: seq<int> := [];
    var n := min;
    while n <= max
      invariant n <= max + 1 || (n == min && max < min)
      invariant values == Range(min, n - 1)
      decreases max - n
    {
      values := values + [n];
      n := n + 1;
    }
    assert values == Range(min, max);
    values := rng.Shuffle(values);
    r := SortAscending(values[..Min(count, |values|)]);
    RangeDistinct(min, max);
    DistinctPermutation(Range(min, max), values);
    SameMembers(Range(min, max), values);
    SortedPrefix(values, Min(count, |values|));
  }

  /** `createEmptyCard`: 3 rows of 9 empty cells. */
  function CreateEmptyCard(): (card: Card)
    ensures IsGrid(card)
    ensures forall row, c :: 0 <= row < CARD_ROWS && 0 <= c < CARD_COLS ==> card[row][c].None?
  {
    seq(CARD_ROWS, _ => seq(CARD_COLS, _ => None))
  }

  /** A row holds as many numbers as its placement flags. */
  lemma {:induction false} RowNumbersCount(row: seq<Cell>, flags: seq<bool>)
    requires |row| == |flags| && forall c :: 0 <= c < |row| ==> (row[c].Some? <==> flags[c])
    ensures |RowNumbers(row)| == CountTrue(flags)
    decreases |row|
  {
    if row != [] {
      RowNumbersCount(row[..|row| - 1], flags[..|flags| - 1]);
    }
  }

  /** The card after `col` columns: exactly the placed cells of those columns hold a number,
      each within its column's range, columns ascending. */
  predicate FilledThrough(grid: Card, placement: seq<seq<bool>>, ranges: seq<(int, int)>, col: int)
    requires PlacementShape(placement) && |ranges| == CARD_COLS
  {
    && IsGrid(grid) && 0 <= col <= CARD_COLS
    && (forall row, c :: 0 <= row < CARD_ROWS && 0 <= c < CARD_COLS ==>
         (grid[row][c].Some? <==> c < col && placement[row][c]))
    && InColumnRanges(grid, ranges)
    && ColumnsAscending(grid)
  }

  /** `generateCard`: column counts, a placement, then for each column the sampled numbers,
      ascending, into the placed rows from the top. */
  method GenerateCard(rng: SeededRng) returns (r: Result<Card, CardError>)
    requires rng.Valid()
    modifies rng
    ensures rng.Valid()
    ensures r.Ok? ==> WellFormedCard(r.value, COLUMN_RANGES)
    ensures r.Ok? ==> |CardNumbers(r.value)| == CARD_ROWS * NUMBERS_PER_ROW && Distinct(CardNumbers(r.value))
    ensures r.Ok? ==> forall x :: x in CardNumbers(r.value) ==> 1 <= x <= 90
  {
    var grid := CreateEmptyCard();
    var counts := GenerateColumnCounts(rng);
    if counts.None? {
      return Err(ColumnDrawLimitReached);
    }
    var columnCounts := counts.value;
    var built, _ := BuildPlacement(columnCounts, rng);
    if built.Err? {
      return Err(built.error);
    }
    var placement := built.value;
    ColumnRangesOrdered();
    for col := 0 to CARD_COLS
      invariant rng.Valid()
      invariant FilledThrough(grid, placement, COLUMN_RANGES, col)
    {
      var (min, max) := COLUMN_RANGES[col];
      var values := SampleWithoutReplacement(min, max, columnCounts[col], rng);
      var rows := RowsWhere(ColumnMask(placement, col));
      grid := PlaceColumn(grid, placement, COLUMN_RANGES, col, rows, values);
    }
    forall row | 0 <= row < CARD_ROWS ensures |RowNumbers(grid[row])| == NUMBERS_PER_ROW {
      RowNumbersCount(grid[row], placement[row]);
    }
    WellFormedCardNumbers(grid, COLUMN_RANGES);
    CardNumbersBounded(grid, COLUMN_RANGES);
    return Ok(grid);
  }

  /** `rows.forEach((row, index) => { grid[row][col] = values[index]; })` on the empty column
      `col`: the placed rows, from the top, receive the ascending values in order, and the
      card is then filled through `col + 1`. */
  method PlaceColumn(grid: Card, placement: seq<seq<bool>>, ranges: seq<(int, int)>, col: int,
                     rows: seq<int>, values: seq<int>)
    returns (r: Card)
    requires PlacementShape(placement) && |ranges| == CARD_COLS && 0 <= col < CARD_COLS
    requires FilledThrough(grid, placement, ranges, col)
    requires StrictlyIncreasing(rows) && forall row :: row in rows <==> 0 <= row < CARD_ROWS && placement[row][col]
    requires forall k :: 0 <= k < |rows| ==> 0 <= rows[k] < CARD_ROWS
    requires |values| == |rows| && StrictlyIncreasing(values)
    requires forall x :: x in values ==> ranges[col].0 <= x <= ranges[col].1
    ensures FilledThrough(r, placement, ranges, col + 1)
    ensures forall k :: 0 <= k < |rows| ==> r[rows[k]][col] == Some(values[k])
    ensures forall row, c :: 0 <= row < CARD_ROWS && 0 <= c < CARD_COLS && c != col ==> r[row][c] == grid[row][c]
  {
    r := grid;
    for index := 0 to |rows|
      invariant IsGrid(r)
      invariant forall row, c :: 0 <= row < CARD_ROWS && 0 <= c < CARD_COLS && c != col ==> r[row][c] == grid[row][c]
      invariant forall k :: 0 <= k < index ==> r[rows[k]][col] == Some(values[k])
      invariant forall row :: 0 <= row < CARD_ROWS && row !in rows[..index] ==> r[row][col].None?
    {
      var row := rows[index];
      assert rows[..index + 1] == rows[..index] + [row];
      r := r[row := r[row][col := Some(values[index])]];
    }
    assert rows[..|rows|] == rows;
    FilledColumnStep(grid, r, placement, ranges, col, rows, values);
  }

  /** Filling column `col` with ascending in-range values at the placed rows extends the
      filled part of the card by one column. */
  lemma FilledColumnStep(grid: Card, r: Card, placement: seq<seq<bool>>, ranges: seq<(int, int)>, col: int,
                         rows: seq<int>, values: seq<int>)
    requires PlacementShape(placement) && |ranges| == CARD_COLS && 0 <= col < CARD_COLS
    requires FilledThrough(grid, placement, ranges, col) && IsGrid(r)
    requires StrictlyIncreasing(rows) && forall row :: row in rows <==> 0 <= row < CARD_ROWS && placement[row][col]
    requires forall k :: 0 <= k < |rows| ==> 0 <= rows[k] < CARD_ROWS
    requires |values| == |rows| && StrictlyIncreasing(values)
    requires forall x :: x in values ==> ranges[col].0 <= x <= ranges[col].1
    requires forall row, c :: 0 <= row < CARD_ROWS && 0 <= c < CARD_COLS && c != col ==> r[row][c] == grid[row][c]
    requires forall k :: 0 <= k < |rows| ==> r[rows[k]][col] == Some(values[k])
    requires forall row :: 0 <= row < CARD_ROWS && row !in rows ==> r[row][col].None?
    ensures FilledThrough(r, placement, ranges, col + 1)
  {
    ColumnFillKeepsOrder(grid, r, ranges, col, rows, values);
  }
}
