/** The card as both engine variants represent it: a grid of rows whose cells hold a
    number or `null`, and the structural rules a generated card satisfies. */
module Cards {
  import opened Wrappers
  import opened Seqs

  type Cell = Option<int>
  type Card = seq<seq<Cell>>

  const CARD_ROWS: int := 3
  const CARD_COLS: int := 9
  const NUMBERS_PER_ROW: int := 5

  /** `row.filter((n) => n !== null)`: the numbers of a row, left to right. */
  function RowNumbers(row: seq<Cell>): (r: seq<int>)
    ensures |r| <= |row|
  {
    if row == [] then []
    else RowNumbers(row[..|row| - 1]) + (if row[|row| - 1].Some? then [row[|row| - 1].value] else [])
  }

  /** A row of empty cells holds no number. */
  lemma {:induction false} RowNumbersNone(row: seq<Cell>)
    requires forall c :: 0 <= c < |row| ==> row[c].None?
    ensures RowNumbers(row) == []
    decreases |row|
  {
    if row != [] {
      RowNumbersNone(row[..|row| - 1]);
    }
  }

  lemma {:induction false} RowNumbersMember(row: seq<Cell>, x: int)
    ensures x in RowNumbers(row) <==> exists c :: 0 <= c < |row| && row[c] == Some(x)
    decreases |row|
  {
    if row != [] {
      var init := row[..|row| - 1];
      RowNumbersMember(init, x);
      if exists c :: 0 <= c < |init| && init[c] == Some(x) {
        var c :| 0 <= c < |init| && init[c] == Some(x);
        assert row[c] == Some(x);
      }
      if exists c :: 0 <= c < |row| && row[c] == Some(x) {
        var c :| 0 <= c < |row| && row[c] == Some(x);
        if c < |row| - 1 {
          assert init[c] == Some(x);
        }
      }
    }
  }

  /** `card.flat().filter((n) => n !== null)`: every number on the card, row by row. */
  function CardNumbers(card: Card): seq<int>
  {
    if card == [] then [] else RowNumbers(card[0]) + CardNumbers(card[1..])
  }

  lemma {:induction false} CardNumbersMember(card: Card, x: int)
    ensures x in CardNumbers(card) <==>
      exists r, c :: 0 <= r < |card| && 0 <= c < |card[r]| && card[r][c] == Some(x)
    decreases |card|
  {
    if card != [] {
      var rest := card[1..];
      CardNumbersMember(rest, x);
      RowNumbersMember(card[0], x);
      if exists r, c :: 0 <= r < |rest| && 0 <= c < |rest[r]| && rest[r][c] == Some(x) {
        var r, c :| 0 <= r < |rest| && 0 <= c < |rest[r]| && rest[r][c] == Some(x);
        assert card[r + 1][c] == Some(x);
      }
      if exists r, c :: 0 <= r < |card| && 0 <= c < |card[r]| && card[r][c] == Some(x) {
        var r, c :| 0 <= r < |card| && 0 <= c < |card[r]| && card[r][c] == Some(x);
        if r > 0 {
          assert rest[r - 1][c] == Some(x);
        }
      }
    }
  }

  /** The three rows of a card, in order. */
  lemma ThreeRowNumbers(card: Card)
    requires |card| == 3
    ensures CardNumbers(card) == RowNumbers(card[0]) + RowNumbers(card[1]) + RowNumbers(card[2])
  {
    var two := card[1..];
    var one := two[1..];
    assert one[1..] == [];
    assert CardNumbers(one) == RowNumbers(card[2]);
    assert CardNumbers(two) == RowNumbers(card[1]) + CardNumbers(one);
  }

  /** 3 rows of 9 cells. */
  predicate IsGrid(card: Card)
  {
    |card| == CARD_ROWS && forall r :: 0 <= r < |card| ==> |card[r]| == CARD_COLS
  }

  /** Nine column ranges, each non-empty, every value of an earlier column below every
      value of a later one. */
  predicate OrderedRanges(ranges: seq<(int, int)>)
  {
    && |ranges| == CARD_COLS
    && (forall c :: 0 <= c < |ranges| ==> ranges[c].0 <= ranges[c].1)
    && (forall c1, c2 :: 0 <= c1 < c2 < |ranges| ==> ranges[c1].1 < ranges[c2].0)
  }

  predicate InColumnRanges(card: Card, ranges: seq<(int, int)>)
    requires IsGrid(card) && |ranges| == CARD_COLS
  {
    forall r, c :: 0 <= r < CARD_ROWS && 0 <= c < CARD_COLS && card[r][c].Some? ==>
      ranges[c].0 <= card[r][c].value <= ranges[c].1
  }

  /** Within a column the numbers grow from top to bottom. */
  predicate ColumnsAscending(card: Card)
    requires IsGrid(card)
  {
    forall r1, r2, c ::
      (0 <= r1 < r2 < CARD_ROWS && 0 <= c < CARD_COLS && card[r1][c].Some? && card[r2][c].Some?)
      ==> card[r1][c].value < card[r2][c].value
  }

  predicate FivePerRow(card: Card)
    requires IsGrid(card)
  {
    forall r :: 0 <= r < CARD_ROWS ==> |RowNumbers(card[r])| == NUMBERS_PER_ROW
  }

  /** What a generated card satisfies: 3x9, five numbers per row, each number within its
      column's range, columns ascending. */
  predicate WellFormedCard(card: Card, ranges: seq<(int, int)>)
  {
    && IsGrid(card)
    && |ranges| == CARD_COLS
    && FivePerRow(card)
    && InColumnRanges(card, ranges)
    && ColumnsAscending(card)
  }

  lemma {:induction false} RowIncreasing(row: seq<Cell>, ranges: seq<(int, int)>)
    requires OrderedRanges(ranges) && |row| <= |ranges|
    requires forall c :: 0 <= c < |row| && row[c].Some? ==> ranges[c].0 <= row[c].value <= ranges[c].1
    ensures StrictlyIncreasing(RowNumbers(row))
    decreases |row|
  {
    if row != [] {
      var init := row[..|row| - 1];
      var last := |row| - 1;
      RowIncreasing(init, ranges);
      var p := RowNumbers(init);
      if row[last].Some? {
        var v := row[last].value;
        forall y | y in p ensures y < v {
          RowNumbersMember(init, y);
          var c :| 0 <= c < |init| && init[c] == Some(y);
          assert ranges[c].1 < ranges[last].0;
        }
        assert RowNumbers(row) == p + [v];
        var pv := p + [v];
        forall i, j | 0 <= i < j < |pv| ensures pv[i] < pv[j] {
          if j < |p| {
            assert pv[i] == p[i] && pv[j] == p[j];
          } else {
            assert pv[i] == p[i] && p[i] in p;
          }
        }
      }
    }
  }

  /** A number in one row of a well-formed card is not in a lower row: in another column
      its range differs, and in the same column the lower row holds a larger number. */
  lemma RowsDisjoint(card: Card, ranges: seq<(int, int)>, r1: int, r2: int, x: int)
    requires OrderedRanges(ranges) && WellFormedCard(card, ranges)
    requires 0 <= r1 < r2 < CARD_ROWS && x in RowNumbers(card[r1])
    ensures x !in RowNumbers(card[r2])
  {
    RowNumbersMember(card[r1], x);
    RowNumbersMember(card[r2], x);
    var c1 :| 0 <= c1 < |card[r1]| && card[r1][c1] == Some(x);
    forall c2 | 0 <= c2 < CARD_COLS ensures card[r2][c2] != Some(x) {
      if card[r2][c2].Some? {
        var y := card[r2][c2].value;
        if c2 < c1 {
          assert y <= ranges[c2].1 < ranges[c1].0 <= x;
        } else if c1 < c2 {
          assert x <= ranges[c1].1 < ranges[c2].0 <= y;
        } else {
          assert x < y;
        }
      }
    }
  }

  /** A well-formed card holds exactly 15 numbers, all different. */
  lemma WellFormedCardNumbers(card: Card, ranges: seq<(int, int)>)
    requires OrderedRanges(ranges) && WellFormedCard(card, ranges)
    ensures |CardNumbers(card)| == CARD_ROWS * NUMBERS_PER_ROW
    ensures Distinct(CardNumbers(card))
  {
    ThreeRowNumbers(card);
    var a, b, c := RowNumbers(card[0]), RowNumbers(card[1]), RowNumbers(card[2]);
    forall r | 0 <= r < 3 ensures Distinct(RowNumbers(card[r])) {
      RowIncreasing(card[r], ranges);
    }
    forall r1, r2, x | 0 <= r1 < r2 < 3 && x in RowNumbers(card[r1])
      ensures x !in RowNumbers(card[r2])
    {
      RowsDisjoint(card, ranges, r1, r2, x);
    }
    DistinctConcat(a, b);
    forall x | x in a + b ensures x !in c {
      if x in a {
        assert x in RowNumbers(card[0]);
      } else {
        assert x in RowNumbers(card[1]);
      }
    }
    DistinctConcat(a + b, c);
  }

  /** Every number of a well-formed card lies between the first column's low end and the
      last column's high end. */
  lemma CardNumbersBounded(card: Card, ranges: seq<(int, int)>)
    requires OrderedRanges(ranges) && WellFormedCard(card, ranges)
    ensures forall x :: x in CardNumbers(card) ==> ranges[0].0 <= x <= ranges[CARD_COLS - 1].1
  {
    forall x | x in CardNumbers(card) ensures ranges[0].0 <= x <= ranges[CARD_COLS - 1].1 {
      CardNumbersMember(card, x);
      var r, c :| 0 <= r < |card| && 0 <= c < |card[r]| && card[r][c] == Some(x);
      assert ranges[c].0 <= x <= ranges[c].1;
      assert ranges[0].0 <= ranges[c].0 && ranges[c].1 <= ranges[CARD_COLS - 1].1;
    }
  }

  /** Nine column counts, each 1 to 3, 15 in all. */
  predicate ValidColumnCounts(counts: seq<int>)
  {
    && |counts| == CARD_COLS
    && (forall c :: 0 <= c < |counts| ==> 1 <= counts[c] <= 3)
    && Sum(counts) == CARD_ROWS * NUMBERS_PER_ROW
  }

  /** Distinct rows among 0, 1, 2 are as many as the rows they mark. */
  lemma {:induction false} DistinctRowsCount(sel: seq<int>)
    requires Distinct(sel) && forall k :: 0 <= k < |sel| ==> 0 <= sel[k] < CARD_ROWS
    ensures CountTrue([0 in sel, 1 in sel, 2 in sel]) == |sel|
    decreases |sel|
  {
    if sel == [] {
      CountTrueThree(false, false, false);
    } else {
      var t := sel[..|sel| - 1];
      var y := sel[|sel| - 1];
      assert sel == t + [y];
      assert Distinct(t);
      DistinctRowsCount(t);
      assert y !in t;
      var m := [0 in t, 1 in t, 2 in t];
      assert [0 in sel, 1 in sel, 2 in sel] == m[y := true];
      CountTrueSet(m, y);
    }
  }

  /** The numbers of `xs` that are in `drawn`, in order. */
  function DrawnOf(xs: seq<int>, drawn: set<int>): (r: seq<int>)
    ensures |r| <= |xs| && forall x :: x in r <==> x in xs && x in drawn
  {
    if xs == [] then []
    else DrawnOf(xs[..|xs| - 1], drawn) + (if xs[|xs| - 1] in drawn then [xs[|xs| - 1]] else [])
  }

  /** Every number is drawn exactly when none is filtered out. */
  lemma {:induction false} DrawnOfAll(xs: seq<int>, drawn: set<int>)
    ensures |DrawnOf(xs, drawn)| == |xs| <==> forall x :: x in xs ==> x in drawn
    decreases |xs|
  {
    if xs != [] {
      var init := xs[..|xs| - 1];
      DrawnOfAll(init, drawn);
      assert xs == init + [xs[|xs| - 1]];
      if forall x :: x in xs ==> x in drawn {
        assert forall x :: x in init ==> x in drawn;
      }
    }
  }

  /** A larger set of drawn numbers filters out no more. */
  lemma {:induction false} DrawnOfMonotone(xs: seq<int>, d1: set<int>, d2: set<int>)
    requires d1 <= d2
    ensures |DrawnOf(xs, d1)| <= |DrawnOf(xs, d2)|
    decreases |xs|
  {
    if xs != [] {
      DrawnOfMonotone(xs[..|xs| - 1], d1, d2);
    }
  }

  lemma {:induction false} DrawnOfConcat(a: seq<int>, b: seq<int>, drawn: set<int>)
    ensures DrawnOf(a + b, drawn) == DrawnOf(a, drawn) + DrawnOf(b, drawn)
    decreases |b|
  {
    if b == [] {
      assert a + b == a;
    } else {
      var k := |b| - 1;
      assert (a + b)[..|a + b| - 1] == a + b[..k];
      assert (a + b)[|a + b| - 1] == b[k];
      DrawnOfConcat(a, b[..k], drawn);
    }
  }

  /** Writing a number into an empty cell adds one number to the row. */
  lemma {:induction false} RowNumbersSet(row: seq<Cell>, c: nat, v: int)
    requires c < |row| && row[c].None?
    ensures |RowNumbers(row[c := Some(v)])| == |RowNumbers(row)| + 1
    decreases |row|
  {
    var t := row[c := Some(v)];
    if c < |row| - 1 {
      assert t[..|t| - 1] == row[..|row| - 1][c := Some(v)];
      RowNumbersSet(row[..|row| - 1], c, v);
    } else {
      assert t[..|t| - 1] == row[..|row| - 1];
    }
  }

  /** Filling the empty column `col` at ascending rows with ascending values from the
      column's range keeps every number within its range and every column ascending. */
  lemma ColumnFillKeepsOrder(grid: Card, r: Card, ranges: seq<(int, int)>, col: int, rows: seq<int>, values: seq<int>)
    requires IsGrid(grid) && IsGrid(r) && |ranges| == CARD_COLS && 0 <= col < CARD_COLS
    requires InColumnRanges(grid, ranges) && ColumnsAscending(grid)
    requires forall row :: 0 <= row < CARD_ROWS ==> grid[row][col].None?
    requires StrictlyIncreasing(rows) && forall k :: 0 <= k < |rows| ==> 0 <= rows[k] < CARD_ROWS
    requires |values| == |rows| && StrictlyIncreasing(values)
    requires forall x :: x in values ==> ranges[col].0 <= x <= ranges[col].1
    requires forall row, c :: 0 <= row < CARD_ROWS && 0 <= c < CARD_COLS && c != col ==> r[row][c] == grid[row][c]
    requires forall k :: 0 <= k < |rows| ==> r[rows[k]][col] == Some(values[k])
    requires forall row :: 0 <= row < CARD_ROWS && row !in rows ==> r[row][col].None?
    ensures InColumnRanges(r, ranges) && ColumnsAscending(r)
  {
    forall row | 0 <= row < CARD_ROWS && r[row][col].Some?
      ensures exists k :: 0 <= k < |rows| && rows[k] == row && r[row][col] == Some(values[k])
    {
      var k :| 0 <= k < |rows| && rows[k] == row;
    }
    forall r1, r2 | 0 <= r1 < r2 < CARD_ROWS && r[r1][col].Some? && r[r2][col].Some?
      ensures r[r1][col].value < r[r2][col].value
    {
      var i :| 0 <= i < |rows| && rows[i] == r1 && r[r1][col] == Some(values[i]);
      var j :| 0 <= j < |rows| && rows[j] == r2 && r[r2][col] == Some(values[j]);
      assert i < j;
    }
    forall row | 0 <= row < CARD_ROWS && r[row][col].Some?
      ensures ranges[col].0 <= r[row][col].value <= ranges[col].1
    {
      var k :| 0 <= k < |rows| && rows[k] == row && r[row][col] == Some(values[k]);
      assert values[k] in values;
    }
  }
}
