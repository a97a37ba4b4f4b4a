/** src/libs/tombala.js: the second engine, used by the bot. A 32-bit mixing generator
    seeded from a string, cards filled greedily row by row, a seeded draw order of 1..90,
    and the row and full-card checks behind a claim. */
module TombalaLib {
  import opened Wrappers
  import opened Seqs
  import opened Cards
  import Utf16

  const MAX_PER_COLUMN: int := 3
  const TWO_TO_32: int := 0x1_0000_0000

  /** The column-count loop has no bound in the source; the model stops after this many
      draws and reports it, so that every run of the model terminates. */
  const COLUMN_DRAW_LIMIT: nat := 100000

  // ----- createSeededRng -----

  /** `(h << 13) | (h >>> 19)`. */
  function RotateLeft13(h: bv32): bv32
  {
    (h << 13) | (h >> 19)
  }

  /** One pass of the seeding loop: the code unit is xor-ed in, the product with
      3432918353 kept to 32 bits (`Math.imul`), then rotated left by 13. */
  function SeedStep(h: bv32, unit: Utf16.CodeUnit): bv32
  {
    RotateLeft13((h ^ (unit as bv32)) * 3432918353)
  }

  /** The seeding loop of `createSeededRng`, continued from `h` over the code units `units`. */
  function SeedMix(h: bv32, units: seq<Utf16.CodeUnit>): bv32
    decreases |units|
  {
    if units == [] then h else SeedMix(SeedStep(h, units[0]), units[1..])
  }

  /** The generator's state once `createSeededRng(seed)` returns: `length` and the loop both
      count UTF-16 code units. */
  function InitialHash(seed: string): bv32
  {
    var units := Utf16.Encode(seed);
    SeedMix(1779033703 ^ ((|units| % TWO_TO_32) as bv32), units)
  }

  /** A character above U+FFFF counts twice: the seed "\U{1F600}" starts from length 2 and
      mixes in both halves of its surrogate pair. */
  lemma SurrogateSeedMix()
    ensures InitialHash("\U{1F600}") == SeedMix(1779033703 ^ 2, [0xD83D, 0xDE00])
  {
    var units := Utf16.Encode("\U{1F600}");
    assert units == [0xD83D, 0xDE00];
    assert (|units| % TWO_TO_32) as bv32 == 2;
  }

  /** One call of the returned `rng()`: the new state, which is also the 32-bit numerator of
      the float it returns (`Math.imul` is the 32-bit product, `>>>` the logical shift). */
  function Mix(h: bv32): bv32
  {
    var a := (h ^ (h >> 16)) * 2246822507;
    var b := (a ^ (a >> 13)) * 3266489909;
    b ^ (b >> 16)
  }

  /** `h >>> 0`: the state read as an unsigned number, the numerator of the float `rng()` returns. */
  function Numerator(h: bv32): (t: int)
    ensures 0 <= t < TWO_TO_32
  {
    h as int
  }

  /** `Math.floor(t / 2^32 * n)`: `t / 2^32` is exact, and so is its product with a range
      width below 2^21, so the float floor is the integer quotient. */
  function Scale32(t: int, n: int): (r: int)
    requires 0 <= t < TWO_TO_32
    ensures 1 <= n ==> 0 <= r < n
  {
    if 1 <= n then ScaledBelow(t, TWO_TO_32, n); (t * n) / TWO_TO_32
    else (t * n) / TWO_TO_32
  }

  /** The state after `n` calls. */
  function MixAfter(h: bv32, n: nat): bv32
    decreases n
  {
    if n == 0 then h else Mix(MixAfter(h, n - 1))
  }

  /** The partners `randomInt(rng, 0, i)`, ..., `randomInt(rng, 0, 1)` that a descending
      Fisher–Yates pass from index `i` draws, starting from state `h`. */
  function MixIndices(h: bv32, i: nat): (js: seq<int>)
    ensures IndicesFit(i, js)
    decreases i
  {
    if i == 0 then []
    else
      var next := Mix(h);
      [Scale32(Numerator(next), i + 1)] + MixIndices(next, i - 1)
  }

  /** One index of the pass: swapping `i` with the partner drawn from the next state and
      continuing from there is the pass from `i`. */
  lemma MixShuffleStep(a: seq<int>, i: nat, h: bv32, j: int)
    requires 0 < i < |a| && j == Scale32(Numerator(Mix(h)), i + 1)
    ensures 0 <= j <= i
    ensures SwapDown(Swap(a, i, j), i - 1, MixIndices(Mix(h), i - 1)) == SwapDown(a, i, MixIndices(h, i))
  {
  }

  /** The closure `createSeededRng` returns, with its captured `h` as a field. */
  class MixRng {
    var h: bv32

    /** `createSeededRng(seed)` for the seed's string form. */
    constructor (seed: string)
      ensures h == InitialHash(seed)
    {
      var units := Utf16.Encode(seed);
      var hash: bv32 := 1779033703 ^ ((|units| % TWO_TO_32) as bv32);
      ghost var start := hash;
      assert units[0..] == units;
      for i := 0 to |units|
        invariant SeedMix(hash, units[i..]) == SeedMix(start, units)
      {
        assert units[i..][1..] == units[i + 1..];
        hash := SeedStep(hash, units[i]);
      }
      assert units[|units|..] == [];
      h := hash;
    }

    /** `rng()`: advances the state and returns the numerator `t` of `t / 2^32`. */
    method Next() returns (t: int)
      modifies this
      ensures h == Mix(old(h))
      ensures t == Numerator(h)
    {
      h := Mix(h);
      t := Numerator(h);
    }
  }

  /** `randomInt(rng, min, max)`: one call of the generator, scaled into `[min, max]`. */
  method RandomInt(rng: MixRng, min: int, max: int) returns (r: int)
    modifies rng
    ensures rng.h == Mix(old(rng.h))
    ensures r == min + Scale32(Numerator(rng.h), max - min + 1)
    ensures min <= max ==> min <= r <= max
  {
    var t := rng.Next();
    r := min + (t * ((max - min) + 1)) / TWO_TO_32;
  }

  /** `for (let i = nums.length - 1; i > 0; i -= 1) { const j = randomInt(rng, 0, i); swap }`,
      the in-place pass of `sampleUniqueNumbers` and `drawOrder`. */
  method ShuffleInPlace(nums: array<int>, rng: MixRng)
    modifies nums, rng
    ensures nums[..] == SwapDown(old(nums[..]), TopIndex(nums.Length), MixIndices(old(rng.h), TopIndex(nums.Length)))
    ensures rng.h == MixAfter(old(rng.h), TopIndex(nums.Length))
  {
    if nums.Length == 0 {
      return;
    }
    ghost var items := nums[..];
    ghost var top := nums.Length - 1;
    ghost var start := rng.h;
    var i := nums.Length - 1;
    ghost var steps := 0;
    while i > 0
      invariant 0 <= i < nums.Length
      invariant SwapDown(nums[..], i, MixIndices(rng.h, i)) == SwapDown(items, top, MixIndices(start, top))
      invariant steps + i == top && rng.h == MixAfter(start, steps)
    {
      SwapWithRandom(nums, rng, i);
      i := i - 1;
      steps := steps + 1;
    }
    assert steps == top == TopIndex(nums.Length);
  }

  /** One pass of the loop: index `i` swapped with `randomInt(rng, 0, i)`, which leaves the
      rest of the pass to run from `i - 1` and the advanced generator. */
  method SwapWithRandom(nums: array<int>, rng: MixRng, i: int)
    requires 0 < i < nums.Length
    modifies nums, rng
    ensures rng.h == Mix(old(rng.h))
    ensures SwapDown(nums[..], i - 1, MixIndices(rng.h, i - 1)) == SwapDown(old(nums[..]), i, MixIndices(old(rng.h), i))
  {
    ghost var before := nums[..];
    ghost var prev := rng.h;
    var j := RandomInt(rng, 0, i);
    assert j == Scale32(Numerator(rng.h), i + 1);
    MixShuffleStep(before, i, prev, j);
    SwapElements(nums, i, j);
  }

  // ----- columnRange, sampleUniqueNumbers -----

  /** The column a number 1..90 belongs to: its tens digit, with 90 in the last column. */
  function TensColumn(x: int): int
  {
    if x == 90 then 8 else x / 10
  }

  /** `columnRange(c)`: column `c` holds exactly the numbers 1..90 whose tens column is `c`. */
  function ColumnRange(c: int): (r: (int, int))
    ensures 0 <= c < CARD_COLS ==> 1 <= r.0 && r.0 + 8 <= r.1 <= 90
    ensures 0 <= c < CARD_COLS ==> forall x :: r.0 <= x <= r.1 <==> 1 <= x <= 90 && TensColumn(x) == c
  {
    var min := if c == 0 then 1 else c * 10;
    var max := if c == 8 then 90 else c * 10 + 9;
    (min, max)
  }

  /** The nine column ranges, in column order. */
  function ColumnRanges(): (ranges: seq<(int, int)>)
    ensures |ranges| == CARD_COLS && forall c :: 0 <= c < CARD_COLS ==> ranges[c] == ColumnRange(c)
    ensures OrderedRanges(ranges) && ranges[0].0 == 1 && ranges[CARD_COLS - 1].1 == 90
  {
    seq(CARD_COLS, c => ColumnRange(c))
  }

  /** `sampleUniqueNumbers`: the values `min..max`, shuffled in place, the first `count` of
      them, ascending. */
  method SampleUniqueNumbers(rng: MixRng, min: int, max: int, count: nat) returns (r: seq<int>)
    modifies rng
    ensures |r| == Min(count, |Range(min, max)|)
    ensures StrictlyIncreasing(r)
    ensures forall x :: x in r ==> min <= x <= max
    ensures var top := TopIndex(|Range(min, max)|);
      && r == SortAscending(SwapDown(Range(min, max), top, MixIndices(old(rng.h), top))[..Min(count, |Range(min, max)|)])
      && rng.h == MixAfter(old(rng.h), top)
  {
    var values: seq<int> := [];
    var n := min;
    while n <= max
      invariant n <= max + 1 || (n == min && max < min)
      invariant values == Range(min, n - 1)
      decreases max - n
    {
      values := values + [n];
      n := n + 1;
    }
    assert values == Range(min, max);
    var nums := new int[|values|](k requires 0 <= k < |values| => values[k]);
    assert nums[..] == values;
    ShuffleInPlace(nums, rng);
    var shuffled := nums[..];
    r := SortAscending(shuffled[..Min(count, nums.Length)]);
    SwapDownPermutes(values, TopIndex(|values|), MixIndices(old(rng.h), TopIndex(|values|)));
    RangeDistinct(min, max);
    DistinctPermutation(values, shuffled);
    SameMembers(values, shuffled);
    SortedPrefix(shuffled, Min(count, nums.Length));
  }

  // ----- generateCard -----

  /** The rows that still have a free slot, top to bottom. */
  function OpenRows(slots: seq<int>): (rows: seq<int>)
    requires |slots| == CARD_ROWS
    ensures StrictlyIncreasing(rows)
    ensures forall k :: 0 <= k < |rows| ==> 0 <= rows[k] < CARD_ROWS
    ensures forall row :: row in rows <==> 0 <= row < CARD_ROWS && slots[row] > 0
    ensures |rows| == Bit(slots[0] > 0) + Bit(slots[1] > 0) + Bit(slots[2] > 0)
  {
    (if slots[0] > 0 then [0] else []) + (if slots[1] > 0 then [1] else []) + (if slots[2] > 0 then [2] else [])
  }

  /** The comparator `b.slots - a.slots || a.row - b.row` puts `a` first: it has more free
      slots, or as many and a lower index. */
  predicate Before(a: int, b: int, slots: seq<int>)
  {
    && 0 <= a < |slots| && 0 <= b < |slots|
    && (slots[a] > slots[b] || (slots[a] == slots[b] && a < b))
  }

  predicate RowIndices(s: seq<int>, slots: seq<int>)
  {
    forall x :: x in s ==> 0 <= x < |slots|
  }

  predicate OrderedBySlots(s: seq<int>, slots: seq<int>)
  {
    forall p, q :: 0 <= p < q < |s| ==> Before(s[p], s[q], slots)
  }

  /** Inserts row `x` before the first row it comes before. */
  function InsertBySlots(x: int, s: seq<int>, slots: seq<int>): (r: seq<int>)
    ensures multiset(r) == multiset(s) + multiset{x} && |r| == |s| + 1
  {
    if s == [] || Before(x, s[0], slots) then [x] + s
    else
      assert s == [s[0]] + s[1..];
      [s[0]] + InsertBySlots(x, s[1..], slots)
  }

  lemma {:induction false} InsertBySlotsOrdered(x: int, s: seq<int>, slots: seq<int>)
    requires 0 <= x < |slots| && RowIndices(s, slots) && OrderedBySlots(s, slots) && x !in s
    ensures OrderedBySlots(InsertBySlots(x, s, slots), slots)
  {
    if s != [] && !Before(x, s[0], slots) {
      var rest := s[1..];
      assert s == [s[0]] + rest;
      assert OrderedBySlots(rest, slots) by {
        forall p, q | 0 <= p < q < |rest| ensures Before(rest[p], rest[q], slots) {
          assert rest[p] == s[p + 1] && rest[q] == s[q + 1];
        }
      }
      assert s[0] in s;
      InsertBySlotsOrdered(x, rest, slots);
      assert Before(s[0], x, slots);
      var t := InsertBySlots(x, rest, slots);
      var r := [s[0]] + t;
      forall p, q | 0 <= p < q < |r| ensures Before(r[p], r[q], slots) {
        assert r[q] == t[q - 1];
        if p > 0 {
          assert r[p] == t[p - 1];
        } else {
          var y := t[q - 1];
          assert y in multiset(t);
          if y != x {
            assert y in multiset(rest);
            var k :| 0 <= k < |rest| && rest[k] == y;
            assert s[k + 1] == y;
          }
        }
      }
    }
  }

  /** `.sort((a, b) => b.slots - a.slots || a.row - b.row)` on distinct rows: the comparator
      is a strict total order on them, so every correct sort returns this order. */
  function SortBySlots(s: seq<int>, slots: seq<int>): (r: seq<int>)
    requires RowIndices(s, slots) && Distinct(s)
    ensures OrderedBySlots(r, slots)
    ensures multiset(r) == multiset(s) && |r| == |s|
  {
    if s == [] then []
    else
      assert s == [s[0]] + s[1..];
      assert Distinct(s[1..]) by {
        forall p, q | 0 <= p < q < |s| - 1 ensures s[1..][p] != s[1..][q] {
          assert s[1..][p] == s[p + 1] && s[1..][q] == s[q + 1];
        }
      }
      assert RowIndices(s[1..], slots) by {
        forall x | x in s[1..] ensures x in s {
          var k :| 0 <= k < |s| - 1 && s[1..][k] == x;
          assert s[k + 1] == x;
        }
      }
      var t := SortBySlots(s[1..], slots);
      SameMembers(t, s[1..]);
      assert s[0] !in s[1..] by {
        forall k | 0 <= k < |s| - 1 ensures s[1..][k] != s[0] {
          assert s[1..][k] == s[k + 1];
        }
      }
      assert s[0] !in t by {
        assert s[0] !in multiset(s[1..]);
      }
      assert s[0] in s;
      InsertBySlotsOrdered(s[0], t, slots);
      InsertBySlots(s[0], t, slots)
  }

  /** In a list ordered by free slots, every row of a prefix comes before every row after it. */
  lemma GreedyPrefix(ordered: seq<int>, k: nat, slots: seq<int>)
    requires OrderedBySlots(ordered, slots) && k <= |ordered|
    ensures forall a, b :: a in ordered[..k] && b in ordered && b !in ordered[..k] ==> Before(a, b, slots)
  {
    forall a, b | a in ordered[..k] && b in ordered && b !in ordered[..k] ensures Before(a, b, slots) {
      var p :| 0 <= p < k && ordered[..k][p] == a;
      var q :| 0 <= q < |ordered| && ordered[q] == b;
      assert ordered[p] == a;
    }
  }

  /** The first `need` open rows in the comparator's order, before the final ascending sort. */
  function Picked(slots: seq<int>, need: nat): seq<int>
    requires |slots| == CARD_ROWS
  {
    SortBySlots(OpenRows(slots), slots)[..Min(need, |OpenRows(slots)|)]
  }

  lemma PickedRows(slots: seq<int>, need: nat)
    requires |slots| == CARD_ROWS
    ensures var r := SortAscending(Picked(slots, need));
      && StrictlyIncreasing(r) && |r| == Min(need, |OpenRows(slots)|)
      && (forall row :: row in r ==> 0 <= row < CARD_ROWS && slots[row] > 0)
      && forall k :: 0 <= k < |r| ==> 0 <= r[k] < CARD_ROWS
  {
    var open := OpenRows(slots);
    var ordered := SortBySlots(open, slots);
    DistinctPermutation(open, ordered);
    SortedPrefix(ordered, Min(need, |open|));
    SameMembers(ordered, open);
  }

  lemma PickedFirst(slots: seq<int>, need: nat)
    requires |slots| == CARD_ROWS
    ensures var r := SortAscending(Picked(slots, need));
      forall a, b :: a in r && 0 <= b < CARD_ROWS && slots[b] > 0 && b !in r ==> Before(a, b, slots)
  {
    var open := OpenRows(slots);
    var ordered := SortBySlots(open, slots);
    var taken := Picked(slots, need);
    SameMembers(SortAscending(taken), taken);
    SameMembers(ordered, open);
    GreedyPrefix(ordered, Min(need, |open|), slots);
  }

  /** The rows column `need` numbers go to: the open rows ordered by most free slots, then
      by index, the first `need` of them, ascending. Every chosen row comes before every
      open row left out. */
  function PossibleRows(slots: seq<int>, need: nat): (rows: seq<int>)
    requires |slots| == CARD_ROWS
    ensures StrictlyIncreasing(rows) && |rows| == Min(need, |OpenRows(slots)|)
    ensures forall row :: row in rows ==> 0 <= row < CARD_ROWS && slots[row] > 0
    ensures forall k :: 0 <= k < |rows| ==> 0 <= rows[k] < CARD_ROWS
    ensures forall a, b :: a in rows && 0 <= b < CARD_ROWS && slots[b] > 0 && b !in rows ==> Before(a, b, slots)
  {
    PickedRows(slots, need);
    PickedFirst(slots, need);
    SortAscending(Picked(slots, need))
  }

  /** `possibleRows.forEach((row) => { rowSlots[row] -= 1; })`: one slot fewer in each chosen row. */
  function TakeSlots(slots: seq<int>, rows: seq<int>): (r: seq<int>)
    requires |slots| == CARD_ROWS
    ensures |r| == CARD_ROWS
  {
    seq(CARD_ROWS, row requires 0 <= row < CARD_ROWS => if row in rows then slots[row] - 1 else slots[row])
  }

  /** What the greedy choice keeps: no row has a negative number of free slots, no two rows
      are more than one slot apart, and the free slots add up to the numbers still to place. */
  predicate Balanced(slots: seq<int>, remaining: int)
  {
    && |slots| == CARD_ROWS
    && (forall row :: 0 <= row < CARD_ROWS ==> 0 <= slots[row])
    && (forall r1, r2 :: 0 <= r1 < CARD_ROWS && 0 <= r2 < CARD_ROWS ==> slots[r1] - slots[r2] <= 1)
    && slots[0] + slots[1] + slots[2] == remaining
  }

  /** A column of 1 to 3 numbers, no more than are still to place, always finds enough open
      rows, and taking a slot from each chosen row keeps the slots balanced. */
  lemma GreedyStep(slots: seq<int>, remaining: int, need: int)
    requires Balanced(slots, remaining) && 1 <= need <= MAX_PER_COLUMN && need <= remaining
    ensures |PossibleRows(slots, need)| == need
    ensures Balanced(TakeSlots(slots, PossibleRows(slots, need)), remaining - need)
  {
    var rows := PossibleRows(slots, need);
    var open := OpenRows(slots);
    assert |open| >= need by {
      if slots[0] == 0 || slots[1] == 0 || slots[2] == 0 {
        assert slots[0] <= 1 && slots[1] <= 1 && slots[2] <= 1;
      }
    }
    var after := TakeSlots(slots, rows);
    DistinctRowsCount(rows);
    CountTrueThree(0 in rows, 1 in rows, 2 in rows);
    assert after[0] + after[1] + after[2] == remaining - need;
    TakenStaysBalanced(slots, rows);
  }

  /** Taking a slot from rows that come before every open row left out keeps the rows at
      most one slot apart, and no row goes below zero. */
  lemma TakenStaysBalanced(slots: seq<int>, rows: seq<int>)
    requires |slots| == CARD_ROWS
    requires forall row :: 0 <= row < CARD_ROWS ==> 0 <= slots[row]
    requires forall r1, r2 :: 0 <= r1 < CARD_ROWS && 0 <= r2 < CARD_ROWS ==> slots[r1] - slots[r2] <= 1
    requires forall row :: row in rows ==> 0 <= row < CARD_ROWS && slots[row] > 0
    requires forall a, b :: a in rows && 0 <= b < CARD_ROWS && slots[b] > 0 && b !in rows ==> Before(a, b, slots)
    ensures forall row :: 0 <= row < CARD_ROWS ==> 0 <= TakeSlots(slots, rows)[row]
    ensures forall r1, r2 :: 0 <= r1 < CARD_ROWS && 0 <= r2 < CARD_ROWS ==>
      TakeSlots(slots, rows)[r1] - TakeSlots(slots, rows)[r2] <= 1
  {
    var after := TakeSlots(slots, rows);
    forall r1, r2 | 0 <= r1 < CARD_ROWS && 0 <= r2 < CARD_ROWS ensures after[r1] - after[r2] <= 1 {
      if r1 !in rows && r2 in rows && slots[r1] > 0 {
        assert Before(r2, r1, slots);
      }
    }
  }

  /** The card after `col` columns: later columns are empty, each row holds five numbers
      less its free slots, numbers lie in their column's range and columns ascend. */
  predicate GreedyFilled(card: Card, slots: seq<int>, ranges: seq<(int, int)>, col: int)
    requires |ranges| == CARD_COLS
  {
    && IsGrid(card) && |slots| == CARD_ROWS && 0 <= col <= CARD_COLS
    && (forall row, c :: 0 <= row < CARD_ROWS && col <= c < CARD_COLS ==> card[row][c].None?)
    && (forall row :: 0 <= row < CARD_ROWS ==> |RowNumbers(card[row])| + slots[row] == NUMBERS_PER_ROW)
    && InColumnRanges(card, ranges)
    && ColumnsAscending(card)
  }

  /** `rowSlots[row] -= 1` for each chosen row. */
  method DecrementSlots(slots: seq<int>, rows: seq<int>) returns (r: seq<int>)
    requires |slots| == CARD_ROWS
    requires Distinct(rows) && forall k :: 0 <= k < |rows| ==> 0 <= rows[k] < CARD_ROWS
    ensures r == TakeSlots(slots, rows)
  {
    r := slots;
    for k := 0 to |rows|
      invariant |r| == CARD_ROWS
      invariant forall row :: 0 <= row < CARD_ROWS ==> r[row] == if row in rows[..k] then slots[row] - 1 else slots[row]
    {
      assert rows[..k + 1] == rows[..k] + [rows[k]];
      assert rows[k] !in rows[..k];
      r := r[rows[k] := r[rows[k]] - 1];
    }
    assert rows[..|rows|] == rows;
  }

  /** `possibleRows.forEach((row, idx) => { card[row][col] = values[idx]; })`: the k-th
      chosen row receives the k-th value in column `col`; every other row is unchanged. */
  method FillColumn(card: Card, col: int, rows: seq<int>, values: seq<int>) returns (r: Card)
    requires IsGrid(card) && 0 <= col < CARD_COLS
    requires Distinct(rows) && forall k :: 0 <= k < |rows| ==> 0 <= rows[k] < CARD_ROWS
    requires |rows| <= |values|
    ensures IsGrid(r)
    ensures forall k :: 0 <= k < |rows| ==> r[rows[k]] == card[rows[k]][col := Some(values[k])]
    ensures forall row :: 0 <= row < CARD_ROWS && row !in rows ==> r[row] == card[row]
  {
    r := card;
    for k := 0 to |rows|
      invariant IsGrid(r)
      invariant forall i :: 0 <= i < k ==> r[rows[i]] == card[rows[i]][col := Some(values[i])]
      invariant forall row :: 0 <= row < CARD_ROWS && row !in rows[..k] ==> r[row] == card[row]
    {
      var row := rows[k];
      assert rows[..k + 1] == rows[..k] + [row];
      assert row !in rows[..k];
      r := r[row := r[row][col := Some(values[k])]];
    }
    assert rows[..|rows|] == rows;
  }

  /** Filling the chosen rows of column `col` and taking their slots extends the filled card
      by one column. */
  lemma GreedyColumnStep(card: Card, r: Card, slots: seq<int>, ranges: seq<(int, int)>, col: int,
                         rows: seq<int>, values: seq<int>)
    requires |ranges| == CARD_COLS && 0 <= col < CARD_COLS
    requires GreedyFilled(card, slots, ranges, col) && IsGrid(r)
    requires StrictlyIncreasing(rows) && forall k :: 0 <= k < |rows| ==> 0 <= rows[k] < CARD_ROWS
    requires |values| == |rows| && StrictlyIncreasing(values)
    requires forall x :: x in values ==> ranges[col].0 <= x <= ranges[col].1
    requires forall k :: 0 <= k < |rows| ==> r[rows[k]] == card[rows[k]][col := Some(values[k])]
    requires forall row :: 0 <= row < CARD_ROWS && row !in rows ==> r[row] == card[row]
    ensures GreedyFilled(r, TakeSlots(slots, rows), ranges, col + 1)
  {
    forall row | 0 <= row < CARD_ROWS
      ensures |RowNumbers(r[row])| + TakeSlots(slots, rows)[row] == NUMBERS_PER_ROW
    {
      if row in rows {
        var k :| 0 <= k < |rows| && rows[k] == row;
        RowNumbersSet(card[row], col, values[k]);
      }
    }
    ColumnFillKeepsOrder(card, r, ranges, col, rows, values);
  }

  /** The column-count loop of `generateCard`: every column starts with one number; six more
      go to columns drawn with `randomInt(rng, 0, 8)`, skipping columns that hold three. */
  method DrawColumnCounts(rng: MixRng) returns (r: Option<seq<int>>)
    modifies rng
    ensures r.Some? ==> ValidColumnCounts(r.value)
  {
    var columnCounts := new int[CARD_COLS](_ => 1);
    assert columnCounts[..] == seq(CARD_COLS, _ => 1);
    SumFill(CARD_COLS, 1);
    var remaining := CARD_ROWS * NUMBERS_PER_ROW - CARD_COLS;
    var draws := 0;
    while remaining > 0
      invariant 0 <= remaining && draws <= COLUMN_DRAW_LIMIT
      invariant forall c :: 0 <= c < CARD_COLS ==> 1 <= columnCounts[c] <= MAX_PER_COLUMN
      invariant Sum(columnCounts[..]) + remaining == CARD_ROWS * NUMBERS_PER_ROW
      decreases COLUMN_DRAW_LIMIT - draws
    {
      if draws == COLUMN_DRAW_LIMIT {
        return None;
      }
      var col := RandomInt(rng, 0, CARD_COLS - 1);
      draws := draws + 1;
      if columnCounts[col] < MAX_PER_COLUMN {
        SumUpdate(columnCounts[..], col, columnCounts[col] + 1);
        columnCounts[col] := columnCounts[col] + 1;
        remaining := remaining - 1;
      }
    }
    return Some(columnCounts[..]);
  }

  /** `generateCard(seed)`: column counts, then column by column the rows with most free
      slots receive that column's sampled numbers. Every row ends with exactly five numbers:
      the card is well formed and holds 15 distinct numbers from 1..90. */
  method GenerateCard(seed: string) returns (r: Option<Card>)
    ensures r.Some? ==> WellFormedCard(r.value, ColumnRanges())
    ensures r.Some? ==> |CardNumbers(r.value)| == CARD_ROWS * NUMBERS_PER_ROW && Distinct(CardNumbers(r.value))
    ensures r.Some? ==> forall x :: x in CardNumbers(r.value) ==> 1 <= x <= 90
  {
    var rng := new MixRng(seed);
    var card := EmptyGrid();
    var counts := DrawColumnCounts(rng);
    if counts.None? {
      return None;
    }
    var columnCounts := counts.value;
    var ranges := ColumnRanges();
    var rowSlots := [NUMBERS_PER_ROW, NUMBERS_PER_ROW, NUMBERS_PER_ROW];
    GreedyStart(card, rowSlots, ranges, columnCounts);
    for col := 0 to CARD_COLS
      invariant GreedyFilled(card, rowSlots, ranges, col)
      invariant Balanced(rowSlots, CARD_ROWS * NUMBERS_PER_ROW - Sum(columnCounts[..col]))
    {
      card, rowSlots := PlaceGreedyColumn(card, rowSlots, columnCounts, ranges, col, rng);
    }
    GreedyDone(card, rowSlots, ranges, columnCounts);
    return Some(card);
  }

  /** The 3x9 grid of `null` cells `generateCard` starts from. */
  function EmptyGrid(): (card: Card)
    ensures IsGrid(card)
    ensures forall row, c :: 0 <= row < CARD_ROWS && 0 <= c < CARD_COLS ==> card[row][c].None?
  {
    seq(CARD_ROWS, _ => seq(CARD_COLS, _ => None))
  }

  /** Before the first column every row of the empty grid has its five slots free. */
  lemma GreedyStart(card: Card, slots: seq<int>, ranges: seq<(int, int)>, columnCounts: seq<int>)
    requires IsGrid(card) && forall row, c :: 0 <= row < CARD_ROWS && 0 <= c < CARD_COLS ==> card[row][c].None?
    requires slots == [NUMBERS_PER_ROW, NUMBERS_PER_ROW, NUMBERS_PER_ROW] && |ranges| == CARD_COLS
    ensures GreedyFilled(card, slots, ranges, 0)
    ensures Balanced(slots, CARD_ROWS * NUMBERS_PER_ROW - Sum(columnCounts[..0]))
  {
    assert columnCounts[..0] == [];
    forall row | 0 <= row < CARD_ROWS ensures RowNumbers(card[row]) == [] {
      RowNumbersNone(card[row]);
    }
  }

  /** After the last column every row holds its five numbers, so the card is well formed. */
  lemma GreedyDone(card: Card, slots: seq<int>, ranges: seq<(int, int)>, columnCounts: seq<int>)
    requires ValidColumnCounts(columnCounts) && ranges == ColumnRanges()
    requires GreedyFilled(card, slots, ranges, CARD_COLS)
    requires Balanced(slots, CARD_ROWS * NUMBERS_PER_ROW - Sum(columnCounts[..CARD_COLS]))
    ensures WellFormedCard(card, ColumnRanges())
    ensures |CardNumbers(card)| == CARD_ROWS * NUMBERS_PER_ROW && Distinct(CardNumbers(card))
    ensures forall x :: x in CardNumbers(card) ==> 1 <= x <= 90
  {
    assert columnCounts[..CARD_COLS] == columnCounts;
    WellFormedCardNumbers(card, ranges);
    CardNumbersBounded(card, ranges);
  }

  /** One pass of `generateCard`'s column loop. */
  method PlaceGreedyColumn(card: Card, rowSlots: seq<int>, columnCounts: seq<int>, ranges: seq<(int, int)>,
                           col: int, rng: MixRng)
    returns (r: Card, slots: seq<int>)
    requires ValidColumnCounts(columnCounts) && 0 <= col < CARD_COLS
    requires |ranges| == CARD_COLS && ranges[col] == ColumnRange(col)
    requires GreedyFilled(card, rowSlots, ranges, col)
    requires Balanced(rowSlots, CARD_ROWS * NUMBERS_PER_ROW - Sum(columnCounts[..col]))
    modifies rng
    ensures GreedyFilled(r, slots, ranges, col + 1)
    ensures Balanced(slots, CARD_ROWS * NUMBERS_PER_ROW - Sum(columnCounts[..col + 1]))
  {
    var need := columnCounts[col];
    SumPrefixStep(columnCounts, col);
    SumPrefixBound(columnCounts, col + 1);
    GreedyStep(rowSlots, CARD_ROWS * NUMBERS_PER_ROW - Sum(columnCounts[..col]), need);
    var possibleRows := PossibleRows(rowSlots, need);
    slots := DecrementSlots(rowSlots, possibleRows);
    var (min, max) := ColumnRange(col);
    var values := SampleUniqueNumbers(rng, min, max, need);
    r := FillColumn(card, col, possibleRows, values);
    GreedyColumnStep(card, r, rowSlots, ranges, col, possibleRows, values);
  }

  // ----- drawOrder -----

  /** `drawOrder(seed)`: 1..90 shuffled in place by the seeded generator, a permutation of 1..90. */
  method DrawOrder(seed: string) returns (r: seq<int>)
    ensures r == SwapDown(Range(1, 90), 89, MixIndices(InitialHash(seed), 89))
    ensures |r| == 90 && Distinct(r) && forall x :: x in r <==> 1 <= x <= 90
  {
    var rng := new MixRng(seed);
    var nums := new int[90](i => i + 1);
    NumberedFromOne(nums[..]);
    ShuffleInPlace(nums, rng);
    r := nums[..];
    ShuffledRangePermutes(InitialHash(seed));
  }

  /** `Array.from({ length: 90 }, (_, i) => i + 1)` is the range 1..90. */
  lemma NumberedFromOne(a: seq<int>)
    requires |a| == 90 && forall i :: 0 <= i < 90 ==> a[i] == i + 1
    ensures a == Range(1, 90)
  {
  }

  /** Any generator state shuffles 1..90 into an order of the ninety numbers. */
  lemma ShuffledRangePermutes(h: bv32)
    ensures var r := SwapDown(Range(1, 90), 89, MixIndices(h, 89));
      |r| == 90 && Distinct(r) && forall x :: x in r <==> 1 <= x <= 90
  {
    var r := SwapDown(Range(1, 90), 89, MixIndices(h, 89));
    SwapDownPermutes(Range(1, 90), 89, MixIndices(h, 89));
    PermutationOfRange(r, 1, 90);
  }

  // ----- evaluateCard, validateClaim -----

  /** Every number of the row (every non-null cell) is among the drawn numbers. */
  predicate RowDrawn(row: seq<Cell>, drawn: set<int>)
  {
    forall c :: 0 <= c < |row| && row[c].Some? ==> row[c].value in drawn
  }

  /** The row's hits equal its total exactly when the row is fully drawn. */
  lemma HitsEqualTotal(row: seq<Cell>, drawn: set<int>)
    ensures |DrawnOf(RowNumbers(row), drawn)| == |RowNumbers(row)| <==> RowDrawn(row, drawn)
  {
    DrawnOfAll(RowNumbers(row), drawn);
    if RowDrawn(row, drawn) {
      forall x | x in RowNumbers(row) ensures x in drawn {
        RowNumbersMember(row, x);
      }
    } else {
      var c :| 0 <= c < |row| && row[c].Some? && row[c].value !in drawn;
      RowNumbersMember(row, row[c].value);
    }
  }

  /** Every number of the card is drawn exactly when every row is fully drawn. */
  lemma CardDrawnByRows(card: Card, drawn: set<int>)
    ensures (forall x :: x in CardNumbers(card) ==> x in drawn) <==> forall r :: 0 <= r < |card| ==> RowDrawn(card[r], drawn)
  {
    if forall x :: x in CardNumbers(card) ==> x in drawn {
      forall r, c | 0 <= r < |card| && 0 <= c < |card[r]| && card[r][c].Some? ensures card[r][c].value in drawn {
        CardNumbersMember(card, card[r][c].value);
      }
    }
    if forall r :: 0 <= r < |card| ==> RowDrawn(card[r], drawn) {
      forall x | x in CardNumbers(card) ensures x in drawn {
        CardNumbersMember(card, x);
      }
    }
  }

  /** `evaluateCard`'s result. */
  datatype Evaluation = Evaluation(completedRows: nat, tombala: bool)

  /** `evaluateCard`: a row counts as complete when its hits equal its numbers, the card is a
      tombala when every number is drawn. Complete rows are the fully drawn ones, and a
      tombala is exactly every row complete. */
  function EvaluateCard(card: Card, drawnNumbers: seq<int>): (e: Evaluation)
    ensures e.completedRows == CountTrue(seq(|card|, r requires 0 <= r < |card| => RowDrawn(card[r], set n | n in drawnNumbers)))
    ensures e.completedRows <= |card|
    ensures e.tombala <==> forall r :: 0 <= r < |card| ==> RowDrawn(card[r], set n | n in drawnNumbers)
  {
    var drawn := set n | n in drawnNumbers;
    var rowHits := seq(|card|, r requires 0 <= r < |card| => |DrawnOf(RowNumbers(card[r]), drawn)|);
    var rowTotals := seq(|card|, r requires 0 <= r < |card| => |RowNumbers(card[r])|);
    var complete := seq(|card|, r requires 0 <= r < |card| => rowHits[r] == rowTotals[r]);
    var allNumbers := CardNumbers(card);
    assert complete == seq(|card|, r requires 0 <= r < |card| => RowDrawn(card[r], drawn)) by {
      forall r | 0 <= r < |card| ensures complete[r] == RowDrawn(card[r], drawn) {
        HitsEqualTotal(card[r], drawn);
      }
    }
    CountTrueBound(complete);
    CardDrawnByRows(card, drawn);
    Evaluation(CountTrue(complete), forall n :: n in allNumbers ==> n in drawn)
  }

  /** `validateClaim`: 'cinko' holds exactly when some row is fully drawn, 'tombala' exactly
      when every number of the card is drawn, any other claim never. */
  function ValidateClaim(card: Card, drawnNumbers: seq<int>, claimType: string): (ok: bool)
    ensures claimType == "cinko" ==> (ok <==> exists r :: 0 <= r < |card| && RowDrawn(card[r], set n | n in drawnNumbers))
    ensures claimType == "tombala" ==> (ok <==> forall r, c :: 0 <= r < |card| && 0 <= c < |card[r]| && card[r][c].Some? ==>
      card[r][c].value in drawnNumbers)
    ensures claimType != "cinko" && claimType != "tombala" ==> !ok
  {
    var state := EvaluateCard(card, drawnNumbers);
    var drawn := set n | n in drawnNumbers;
    var complete := seq(|card|, r requires 0 <= r < |card| => RowDrawn(card[r], drawn));
    CountTruePositive(complete);
    assert (exists k :: 0 <= k < |complete| && complete[k]) <==> exists r :: 0 <= r < |card| && RowDrawn(card[r], drawn) by {
      if exists r :: 0 <= r < |card| && RowDrawn(card[r], drawn) {
        var r :| 0 <= r < |card| && RowDrawn(card[r], drawn);
        assert complete[r];
      }
    }
    if claimType == "cinko" then state.completedRows >= 1
    else if claimType == "tombala" then state.tombala
    else false
  }

  /** The card of the validation test: rows 0 and 2 hold five numbers each, row 1 four. */
  function FixtureCard(): Card
  {
    [[Some(1), Some(12), Some(23), Some(34), Some(45), None, None, None, None],
     [None, None, None, None, None, Some(56), Some(67), Some(78), Some(89)],
     [Some(2), Some(13), Some(24), Some(35), Some(46), None, None, None, None]]
  }

  /** The validation test's first draw completes row 0: a çinko, but no tombala, since 56 in row 1 is not drawn. */
  lemma FixtureFirstRow()
    ensures ValidateClaim(FixtureCard(), [1, 12, 23, 34, 45], "cinko")
    ensures !ValidateClaim(FixtureCard(), [1, 12, 23, 34, 45], "tombala")
  {
    var card: Card := FixtureCard();
    var d: seq<int> := [1, 12, 23, 34, 45];
    assert RowDrawn(card[0], set n | n in d);
    assert card[1][5] == Some(56) && 56 !in d;
  }

  /** All numbers but 46 are no tombala. */
  lemma FixtureAlmostTombala()
    ensures !ValidateClaim(FixtureCard(), [1, 12, 23, 34, 45, 56, 67, 78, 89, 2, 13, 24, 35], "tombala")
  {
    var card: Card := FixtureCard();
    var d: seq<int> := [1, 12, 23, 34, 45, 56, 67, 78, 89, 2, 13, 24, 35];
    assert card[2][4] == Some(46) && 46 !in d;
  }

  /** All 14 numbers of the card are a tombala. */
  lemma FixtureFullTombala()
    ensures ValidateClaim(FixtureCard(), [1, 12, 23, 34, 45, 56, 67, 78, 89, 2, 13, 24, 35, 46], "tombala")
  {
    var card: Card := FixtureCard();
    var d: seq<int> := [1, 12, 23, 34, 45, 56, 67, 78, 89, 2, 13, 24, 35, 46];
    forall r: int, c: int | 0 <= r < |card| && 0 <= c < |card[r]| && card[r][c].Some? ensures card[r][c].value in d {
      assert r == 0 || r == 1 || r == 2;
    }
  }
}
