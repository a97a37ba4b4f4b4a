/** src/libs/tombala/rng.js: the seeded Park–Miller "minimal standard" generator.
    The state is an integer in [1, 2^31 - 2]; every product stays below 2^47, so the
    JavaScript double arithmetic of the source is exact integer arithmetic here. */
module TombalaRng {
  import opened Seqs
  import Utf16

  const MODULUS: int := 2147483647
  const MULTIPLIER: int := 48271
  /** The inverse of MULTIPLIER modulo the prime MODULUS: 48271 * 1899818559 == 42704 * MODULUS + 1. */
  const MULTIPLIER_INVERSE: int := 1899818559

  predicate ValidState(s: int) { 1 <= s < MODULUS }

  /** A non-zero state times the multiplier is never a multiple of the modulus. */
  lemma ProductNotMultiple(s: int)
    requires ValidState(s)
    ensures (s * MULTIPLIER) % MODULUS != 0
  {
    var q := (s * MULTIPLIER) / MODULUS;
    var rest := (s * MULTIPLIER) % MODULUS;
    assert s * MULTIPLIER == q * MODULUS + rest;
    assert MULTIPLIER * MULTIPLIER_INVERSE == 42704 * MODULUS + 1;
    // Multiplying by the inverse brings back s, up to a multiple of the modulus.
    calc {
      s;
      s * MULTIPLIER * MULTIPLIER_INVERSE - s * 42704 * MODULUS;
      (q * MODULUS + rest) * MULTIPLIER_INVERSE - s * 42704 * MODULUS;
      (q * MULTIPLIER_INVERSE - s * 42704) * MODULUS + rest * MULTIPLIER_INVERSE;
    }
  }

  /** One step `state = (state * 48271) % 2147483647` of `nextFloat`: it stays a valid, non-zero state. */
  function NextState(s: int): (r: int)
    requires ValidState(s)
    ensures ValidState(r)
  {
    ProductNotMultiple(s);
    (s * 48271) % 2147483647
  }

  /** `Math.floor(n / MODULUS * k)`: a state scaled to [0, k). */
  function Scale(n: int, k: int): (r: int)
    requires 0 <= n < MODULUS
    ensures 1 <= k ==> 0 <= r < k
  {
    if 1 <= k then ScaledBelow(n, MODULUS, k); (n * k) / MODULUS
    else (n * k) / MODULUS
  }

  /** The state after `i` steps. */
  function PMAfter(s: int, i: nat): (r: int)
    requires ValidState(s)
    ensures ValidState(r)
    decreases i
  {
    if i == 0 then s else NextState(PMAfter(s, i - 1))
  }

  lemma PMAfterNext(s: int, n: nat)
    requires ValidState(s)
    ensures PMAfter(s, n + 1) == NextState(PMAfter(s, n))
  {
  }

  /** The partners `nextInt(i + 1), nextInt(i), ..., nextInt(2)` that a descending
      Fisher–Yates pass from index `i` draws, starting from state `s`. */
  function PMIndices(s: int, i: nat): (js: seq<int>)
    requires ValidState(s)
    ensures IndicesFit(i, js)
    decreases i
  {
    if i == 0 then []
    else
      var next := NextState(s);
      [Scale(next, i + 1)] + PMIndices(next, i - 1)
  }

  /** One index of the pass: swapping `i` with the partner drawn from the next state and
      continuing from there is the pass from `i`. */
  lemma ShuffleStep(a: seq<int>, i: nat, s: int, j: int)
    requires ValidState(s) && 0 < i < |a| && j == Scale(NextState(s), i + 1)
    ensures 0 <= j <= i
    ensures SwapDown(Swap(a, i, j), i - 1, PMIndices(NextState(s), i - 1)) == SwapDown(a, i, PMIndices(s, i))
  {
  }

  /** The base-31 hash of `normalizeSeed`, continued from `h` over the code units `units`. */
  function Hash31From(h: int, units: seq<Utf16.CodeUnit>): (r: int)
    requires 0 <= h < MODULUS
    ensures 0 <= r < MODULUS
    decreases |units|
  {
    if units == [] then h else Hash31From((h * 31 + units[0]) % MODULUS, units[1..])
  }

  /** The initial state for a seed text: the hash of its UTF-16 code units, or 1 when that is 0. */
  function SeedState(text: string): (r: int)
    ensures ValidState(r)
    ensures var h := Hash31From(0, Utf16.Encode(text)); r == h || (r == 1 && h == 0)
  {
    var h := Hash31From(0, Utf16.Encode(text));
    if h <= 0 then 1 else h
  }

  /** A character above U+FFFF is hashed as its two code units: the seed "\U{1F600}" hashes
      0xD83D and then 0xDE00. */
  lemma SurrogateSeed()
    ensures SeedState("\U{1F600}") == 1772899
  {
    assert Utf16.Encode("\U{1F600}") == [0xD83D, 0xDE00];
    assert Hash31From(0, [0xD83D, 0xDE00]) == Hash31From(55357, [0xDE00]);
  }

  /** A seed as JavaScript passes it: a falsy value, or a truthy value whose `String(...)` is `text`. */
  datatype SeedArg = Falsy | Given(text: string)

  /** `String(seed || '')`. */
  function SeedText(arg: SeedArg): string
  {
    match arg
    case Falsy => ""
    case Given(text) => text
  }

  /** `normalizeSeed` on a string (for a string, `String(seed || '')` is the string itself). */
  method NormalizeSeed(text: string) returns (r: int)
    ensures ValidState(r)
    ensures r == SeedState(text)
  {
    var units := Utf16.Encode(text);
    var hash := 0;
    for i := 0 to |units|
      invariant 0 <= hash < MODULUS
      invariant Hash31From(hash, units[i..]) == Hash31From(0, units)
    {
      assert units[i..] == [units[i]] + units[i + 1..];
      hash := (hash * 31 + units[i]) % MODULUS;
    }
    assert units[|units|..] == [];
    if hash <= 0 {
      return 1;
    }
    return hash;
  }

  class SeededRng {
    var seed: string
    var state: int

    ghost predicate Valid()
      reads this
    {
      ValidState(state)
    }

    constructor (arg: SeedArg)
      ensures Valid()
      ensures seed == SeedText(arg) && state == SeedState(seed)
    {
      seed := "";
      state := 1;
      new;
      var _ := SetSeed(arg);
    }

    /** Stores `String(seed || '')`, restarts the state from its hash and returns the instance. */
    method SetSeed(arg: SeedArg) returns (self: SeededRng)
      modifies this
      ensures Valid()
      ensures seed == SeedText(arg) && state == SeedState(seed)
      ensures self == this
    {
      seed := SeedText(arg);
      state := NormalizeSeed(seed);
      self := this;
    }

    /** Advances the state; the float the source returns is `numerator / MODULUS`. */
    method NextFloat() returns (numerator: int)
      requires Valid()
      modifies this
      ensures Valid()
      ensures state == NextState(old(state)) && numerator == state
      ensures seed == old(seed)
    {
      state := (state * MULTIPLIER) % MODULUS;
      numerator := state;
    }

    /** `Math.floor(nextFloat() * maxExclusive)`, computed exactly: in [0, maxExclusive) for maxExclusive >= 1. */
    method NextInt(maxExclusive: int) returns (r: int)
      requires Valid()
      modifies this
      ensures Valid()
      ensures state == NextState(old(state)) && seed == old(seed)
      ensures r == Scale(state, maxExclusive)
      ensures maxExclusive >= 1 ==> 0 <= r < maxExclusive
    {
      var numerator := NextFloat();
      r := (numerator * maxExclusive) / MODULUS;
    }

    /** Fisher–Yates on a copy of `items`, from the last index down, one `nextInt(i + 1)` per index i >= 1. */
    method Shuffle(items: seq<int>) returns (r: seq<int>)
      requires Valid()
      modifies this
      ensures Valid()
      ensures multiset(r) == multiset(items) && |r| == |items|
      ensures r == SwapDown(items, TopIndex(|items|), PMIndices(old(state), TopIndex(|items|)))
      ensures state == PMAfter(old(state), TopIndex(|items|)) && seed == old(seed)
    {
      if |items| == 0 {
        return items;
      }
      var arr := new int[|items|](k requires 0 <= k < |items| => items[k]);
      ghost var top := |items| - 1;
      ghost var start := state;
      var i := |items| - 1;
      ghost var steps := 0;
      assert arr[..] == items;
      while i > 0
        invariant Valid()
        invariant arr.Length == |items|
        invariant 0 <= i < |items|
        invariant SwapDown(arr[..], i, PMIndices(state, i)) == SwapDown(items, top, PMIndices(start, top))
        invariant steps + i == top && state == PMAfter(start, steps)
        invariant seed == old(seed)
      {
        ghost var before := arr[..];
        ghost var prev := state;
        PMAfterNext(start, steps);
        var j := NextInt(i + 1);
        ShuffleStep(before, i, prev, j);
        SwapElements(arr, i, j);
        i := i - 1;
        steps := steps + 1;
      }
      assert steps == top == TopIndex(|items|);
      r := arr[..];
      SwapDownPermutes(items, top, PMIndices(start, top));
    }
  }
}
