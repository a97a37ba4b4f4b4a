/** src/libs/tombala/win-check.js: marking a card against the drawn numbers and reading off
    the completed rows (çinko) and the full card (tombala). */
module WinCheck {
  import opened Seqs
  import opened Cards

  /** What a caller passes as the drawn numbers: an array, or a `Set` that is used as is. */
  datatype Drawn = DrawnList(numbers: seq<int>) | DrawnSet(members: set<int>)

  /** `drawnNumbers instanceof Set ? drawnNumbers : new Set(drawnNumbers)`. */
  function DrawnMembers(d: Drawn): set<int>
  {
    match d
    case DrawnList(numbers) => set n | n in numbers
    case DrawnSet(members) => members
  }

  /** `autoMarkCard`: a card of flags, `true` where the cell holds a drawn number. */
  function AutoMarkCard(card: Card, drawn: Drawn): (marks: seq<seq<bool>>)
    ensures |marks| == |card| && forall r :: 0 <= r < |card| ==> |marks[r]| == |card[r]|
    ensures forall r, c :: 0 <= r < |card| && 0 <= c < |card[r]| ==>
      (marks[r][c] <==> card[r][c].Some? && card[r][c].value in DrawnMembers(drawn))
  {
    var members := DrawnMembers(drawn);
    seq(|card|, r requires 0 <= r < |card| =>
      seq(|card[r]|, c requires 0 <= c < |card[r]| => card[r][c].Some? && card[r][c].value in members))
  }

  /** `row.every((isMarked, colIndex) => card[rowIndex][colIndex] === null || isMarked)`. */
  predicate RowComplete(row: seq<Cell>, marks: seq<bool>)
    requires |row| == |marks|
  {
    forall c :: 0 <= c < |row| ==> row[c].None? || marks[c]
  }

  /** The indices below `n` of complete rows, ascending. */
  function CompletedRowsBelow(card: Card, marks: seq<seq<bool>>, n: nat): (rows: seq<int>)
    requires n <= |card| == |marks| && forall r :: 0 <= r < |card| ==> |marks[r]| == |card[r]|
    ensures StrictlyIncreasing(rows) && |rows| <= n
    ensures forall k :: 0 <= k < |rows| ==> 0 <= rows[k] < n
    ensures forall r :: r in rows <==> 0 <= r < n && RowComplete(card[r], marks[r])
  {
    if n == 0 then []
    else
      var earlier := CompletedRowsBelow(card, marks, n - 1);
      if RowComplete(card[n - 1], marks[n - 1]) then earlier + [n - 1] else earlier
  }

  /** `marks.flat().reduce((sum, isMarked) => sum + (isMarked ? 1 : 0), 0)`. */
  function MarkedCount(marks: seq<seq<bool>>): nat
  {
    if marks == [] then 0 else MarkedCount(marks[..|marks| - 1]) + CountTrue(marks[|marks| - 1])
  }

  /** The marked cells of a row are its drawn numbers. */
  lemma {:induction false} RowMarkedCount(row: seq<Cell>, marks: seq<bool>, drawn: set<int>)
    requires |row| == |marks|
    requires forall c :: 0 <= c < |row| ==> (marks[c] <==> row[c].Some? && row[c].value in drawn)
    ensures CountTrue(marks) == |DrawnOf(RowNumbers(row), drawn)|
    decreases |row|
  {
    if row != [] {
      var k := |row| - 1;
      RowMarkedCount(row[..k], marks[..k], drawn);
      var tail := if row[k].Some? then [row[k].value] else [];
      DrawnOfConcat(RowNumbers(row[..k]), tail, drawn);
      if row[k].Some? {
        assert tail[..0] == [];
      }
    }
  }

  /** A row is complete exactly when all of its numbers are drawn. */
  lemma RowCompleteIffDrawn(row: seq<Cell>, marks: seq<bool>, drawn: set<int>)
    requires |row| == |marks|
    requires forall c :: 0 <= c < |row| ==> (marks[c] <==> row[c].Some? && row[c].value in drawn)
    ensures RowComplete(row, marks) <==> forall x :: x in RowNumbers(row) ==> x in drawn
  {
    forall x | x in RowNumbers(row) ensures x in drawn <== RowComplete(row, marks) {
      RowNumbersMember(row, x);
    }
    if forall x :: x in RowNumbers(row) ==> x in drawn {
      forall c | 0 <= c < |row| && row[c].Some? ensures marks[c] {
        RowNumbersMember(row, row[c].value);
      }
    }
  }

  /** The marked cells of a card are its drawn numbers. */
  lemma {:induction false} CardMarkedCount(card: Card, marks: seq<seq<bool>>, drawn: set<int>)
    requires |card| == |marks| && forall r :: 0 <= r < |card| ==> |marks[r]| == |card[r]|
    requires forall r, c :: 0 <= r < |card| && 0 <= c < |card[r]| ==>
      (marks[r][c] <==> card[r][c].Some? && card[r][c].value in drawn)
    ensures MarkedCount(marks) == |DrawnOf(CardNumbers(card), drawn)|
    decreases |card|
  {
    if card != [] {
      var k := |card| - 1;
      CardMarkedCount(card[..k], marks[..k], drawn);
      RowMarkedCount(card[k], marks[k], drawn);
      CardNumbersSnoc(card);
      DrawnOfConcat(CardNumbers(card[..k]), RowNumbers(card[k]), drawn);
    }
  }

  /** The numbers of a card are those of all rows but the last, then the last row's. */
  lemma {:induction false} CardNumbersSnoc(card: Card)
    requires card != []
    ensures CardNumbers(card) == CardNumbers(card[..|card| - 1]) + RowNumbers(card[|card| - 1])
    decreases |card|
  {
    if |card| > 1 {
      var rest := card[1..];
      CardNumbersSnoc(rest);
      assert rest[..|rest| - 1] == card[..|card| - 1][1..];
      assert card[..|card| - 1][0] == card[0];
    } else {
      assert card[..0] == [];
    }
  }

  /** `evaluateCard`'s result. */
  datatype Evaluation = Evaluation(
    marks: seq<seq<bool>>,
    completedRows: seq<int>,
    matchedCount: int,
    cinko1: bool,
    cinko2: bool,
    tombala: bool)

  /** `evaluateCard`: the complete rows are those whose every number is drawn, the matched
      count is the number of drawn numbers on the card, one complete row is a first çinko,
      two a second, and exactly 15 matched numbers a tombala. */
  function EvaluateCard(card: Card, drawn: Drawn): (e: Evaluation)
    ensures e.marks == AutoMarkCard(card, drawn)
    ensures StrictlyIncreasing(e.completedRows)
    ensures forall r :: r in e.completedRows <==>
      0 <= r < |card| && forall x :: x in RowNumbers(card[r]) ==> x in DrawnMembers(drawn)
    ensures e.matchedCount == |DrawnOf(CardNumbers(card), DrawnMembers(drawn))|
    ensures e.cinko1 <==> |e.completedRows| >= 1
    ensures e.cinko2 <==> |e.completedRows| >= 2
    ensures e.tombala <==> e.matchedCount == CARD_ROWS * NUMBERS_PER_ROW
  {
    var marks := AutoMarkCard(card, drawn);
    var completedRows := CompletedRowsBelow(card, marks, |card|);
    var matchedCount := MarkedCount(marks);
    forall r | 0 <= r < |card|
      ensures RowComplete(card[r], marks[r]) <==> forall x :: x in RowNumbers(card[r]) ==> x in DrawnMembers(drawn)
    {
      RowCompleteIffDrawn(card[r], marks[r], DrawnMembers(drawn));
    }
    CardMarkedCount(card, marks, DrawnMembers(drawn));
    Evaluation(marks, completedRows, matchedCount, |completedRows| >= 1, |completedRows| >= 2,
      matchedCount == CARD_ROWS * NUMBERS_PER_ROW)
  }

  /** An array of drawn numbers and the `Set` of the same numbers evaluate alike. */
  lemma ListAndSetAgree(card: Card, numbers: seq<int>)
    ensures EvaluateCard(card, DrawnList(numbers)) == EvaluateCard(card, DrawnSet(set n | n in numbers))
  {
  }

  /** On a card of 15 numbers, tombala is exactly "every number of the card is drawn". */
  lemma TombalaIffAllDrawn(card: Card, drawn: Drawn)
    requires |CardNumbers(card)| == CARD_ROWS * NUMBERS_PER_ROW
    ensures EvaluateCard(card, drawn).tombala <==> forall x :: x in CardNumbers(card) ==> x in DrawnMembers(drawn)
  {
    DrawnOfAll(CardNumbers(card), DrawnMembers(drawn));
  }

  /** Drawing more numbers never takes a çinko away, nor, on a card of 15 numbers, a tombala. */
  lemma EvaluationMonotone(card: Card, d1: Drawn, d2: Drawn)
    requires DrawnMembers(d1) <= DrawnMembers(d2)
    ensures forall r :: r in EvaluateCard(card, d1).completedRows ==> r in EvaluateCard(card, d2).completedRows
    ensures EvaluateCard(card, d1).matchedCount <= EvaluateCard(card, d2).matchedCount
    ensures EvaluateCard(card, d1).cinko1 ==> EvaluateCard(card, d2).cinko1
    ensures EvaluateCard(card, d1).cinko2 ==> EvaluateCard(card, d2).cinko2
    ensures |CardNumbers(card)| == CARD_ROWS * NUMBERS_PER_ROW ==>
      (EvaluateCard(card, d1).tombala ==> EvaluateCard(card, d2).tombala)
  {
    var e1, e2 := EvaluateCard(card, d1), EvaluateCard(card, d2);
    DrawnOfMonotone(CardNumbers(card), DrawnMembers(d1), DrawnMembers(d2));
    assert forall r :: r in e1.completedRows ==> r in e2.completedRows;
    if e1.cinko1 {
      assert e1.completedRows[0] in e2.completedRows;
    }
    if e1.cinko2 {
      var a, b := e1.completedRows[0], e1.completedRows[1];
      assert a in e1.completedRows && b in e1.completedRows && a != b;
      IncreasingWithTwo(e2.completedRows, a, b);
    }
    if |CardNumbers(card)| == CARD_ROWS * NUMBERS_PER_ROW && e1.tombala {
      TombalaIffAllDrawn(card, d1);
      TombalaIffAllDrawn(card, d2);
    }
  }

  /** A list holding two different values has at least two entries. */
  lemma IncreasingWithTwo(s: seq<int>, a: int, b: int)
    requires a in s && b in s && a != b
    ensures |s| >= 2
  {
    var i :| 0 <= i < |s| && s[i] == a;
    var j :| 0 <= j < |s| && s[j] == b;
    assert i != j;
  }

  /** On a three-row card of 15 numbers, a tombala completes every row, so both çinkos hold too. */
  lemma TombalaCompletesRows(card: Card, drawn: Drawn)
    requires |card| == CARD_ROWS && |CardNumbers(card)| == CARD_ROWS * NUMBERS_PER_ROW
    requires EvaluateCard(card, drawn).tombala
    ensures forall r :: 0 <= r < CARD_ROWS ==> r in EvaluateCard(card, drawn).completedRows
    ensures EvaluateCard(card, drawn).cinko1 && EvaluateCard(card, drawn).cinko2
  {
    var e := EvaluateCard(card, drawn);
    TombalaIffAllDrawn(card, drawn);
    RowsOfDrawnCard(card, DrawnMembers(drawn));
    assert 0 in e.completedRows && 1 in e.completedRows;
    IncreasingWithTwo(e.completedRows, 0, 1);
  }

  /** When every number of a three-row card is drawn, so is every number of each row. */
  lemma RowsOfDrawnCard(card: Card, members: set<int>)
    requires |card| == CARD_ROWS
    requires forall x :: x in CardNumbers(card) ==> x in members
    ensures forall r, x :: 0 <= r < CARD_ROWS && x in RowNumbers(card[r]) ==> x in members
  {
    ThreeRowNumbers(card);
    var a, b, c := RowNumbers(card[0]), RowNumbers(card[1]), RowNumbers(card[2]);
    forall r, x | 0 <= r < CARD_ROWS && x in RowNumbers(card[r]) ensures x in members {
      assert x in a + b + c;
    }
  }
}
