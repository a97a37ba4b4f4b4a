# Tombala engine, modelled in Dafny

Tombala is the Turkish bingo game played over IRC:
- every player holds a 3 × 9 card with fifteen numbers between 1 and 90, five in each row;
- numbers are drawn one at a time from a shuffled pool of 1..90;
- the first row completed wins *çinko 1*, the second *çinko 2*, and the full card *tombala*.

The repository has two engines, and both are modelled.

**The first engine** is `src/libs/tombala/` together with `TombalaGame`, `TombalaManager` and `TombalaCommandParser`.
- `TombalaRng` is the Park–Miller generator of `rng.js`, with the base-31 seed hash. The hash runs over the seed's UTF-16 code units, as `charCodeAt` reads them.
  - Its state is an integer in `[1, 2^31 - 2]`, and every step keeps it there.
  - `nextInt(k)` is the exact quotient `(state * k) div (2^31 - 1)`.
  - `shuffle` is Fisher–Yates, stated through a specification function `Seqs.SwapDown(a, i, js)` over the stream of random indices the generator produces.
- `TombalaCard` follows `card.js`: column counts, placement of rows with up to 250 attempts, a sorted sample per column, and the finished card.
- `WinCheck` follows `win-check.js`: marking a card and evaluating it.
- `Game.TombalaGame` is the per-channel state machine. It holds the players, the draw pool, the draw history and the winners.
- `Manager.TombalaManager` routes parsed commands to the channel's game.
- `CommandParser` is the `!tombala` command parser together with its help text.

**The second engine** is `src/libs/tombala.js` (`TombalaLib`) and the bot that uses it (`Bot`).
- The generator is the 32-bit mixer of `createSeededRng`, modelled on `bv32`. Its seeding loop, and the seed length it starts from, count UTF-16 code units.
- `randomInt` is `min + (t * (max - min + 1)) >> 32`.
- The greedy card builder is proved to leave exactly five numbers in each row.
- `drawOrder` is a permutation of 1..90.
- The bot's games are values in a channel map of `Bot.TombalaBot`.
- Everything the bot would say on IRC is returned as a list of outputs.

Module `Variants` states where the two engines agree and where they part:
- they use the same column ranges;
- the manager's claim picks the lowest open prize and the bot's the highest;
- the first engine's tombala needs exactly fifteen marks, while the second only needs every number on the card drawn, so the 14-number card of `tests/tombala.test.js` is a tombala for the second engine and never for the first;
- the bot matches the prefix case-sensitively, while the parser does not.

Behaviours of the code that the model keeps as they are:
- A new `TombalaGame` keeps its pool in order 1..90 until `setSeed` runs.
- `setSeed` keeps the players' cards.
- `verifyClaim` ignores the manager's `singleWinnerPerStage`.
- The bot restricts `cek` to operators.
- The bot's `basla` does not check the status.
- The bot's `bitir` deletes the game.

Where the code and its description disagree, the model follows the code. The three defects under "## Findings" are each modelled twice. The as-written member is what the code does, and the corrected member proves the intended behaviour. `handleMessage` runs the as-written `kazan`, so its won tombala leaves the interval running, as the code does.

Shared modules:
- `Wrappers` holds `Option` and `Result`.
- `Utf16` holds JavaScript's view of a string as UTF-16 code units: a character above U+FFFF is a surrogate pair, and decoding gives the string back.
- `Seqs` holds ranges, counts, sums, distinctness, swaps, the Fisher–Yates specification and insertion sort.
- `Cards` holds the card shape, the numbers on a card, and the well-formedness predicate used by both engines.

## Model

| member | source | states |
|---|---|---|
| Utf16.DecodeEncode | src/libs/tombala/rng.js:5-6 | the code units `length` and `charCodeAt` expose determine the string: decoding them gives it back |
| Utf16.EncodeBasicPlane | src/libs/tombala/rng.js:5-6 | a string without characters above U+FFFF has one code unit per character, equal to the character's code |
| TombalaRng.ProductNotMultiple | src/libs/tombala/rng.js:28 | a state in [1, 2^31-2] times 48271 is never a multiple of the prime modulus |
| TombalaRng.NextState | src/libs/tombala/rng.js:27-30 | one `nextFloat` step keeps the state in [1, 2^31-2] |
| TombalaRng.Scale | src/libs/tombala/rng.js:32-34 | the scaled index `floor(state * k / M)` lies in [0, k) for k >= 1 |
| TombalaRng.PMAfter | src/libs/tombala/rng.js:27-30 | every state reached after i steps is still a valid state |
| TombalaRng.PMAfterNext | src/libs/tombala/rng.js:27-30 | i+1 steps are one more step after i steps |
| TombalaRng.PMIndices | src/libs/tombala/rng.js:38-41 | the swap partners a shuffle draws from a state: index i is swapped with some j in [0, i] |
| TombalaRng.ShuffleStep | src/libs/tombala/rng.js:38-41 | one loop iteration of `shuffle` (swap i with j = nextInt(i+1)) leaves exactly the rest of the Fisher–Yates specification to do from the next state |
| TombalaRng.Hash31From | src/libs/tombala/rng.js:5-7 | the running base-31 hash over UTF-16 code units stays in [0, 2^31-1) |
| TombalaRng.SeedState | src/libs/tombala/rng.js:1-14 | the normalised seed is a valid state: the hash of the seed's UTF-16 code units, or 1 when that hash is 0 |
| TombalaRng.SurrogateSeed | src/libs/tombala/rng.js:5-6 | a character above U+FFFF is hashed as its two code units: the seed U+1F600 normalises to 1772899 |
| TombalaRng.NormalizeSeed | src/libs/tombala/rng.js:1-14 | the hashing loop over `length` code units, reading each with `charCodeAt`, computes exactly `SeedState(text)`, always in [1, 2^31-2] |
| TombalaRng.SeededRng.constructor | src/libs/tombala/rng.js:17-19 | a new generator stores `String(seed \|\| '')` and starts from the hash of its UTF-16 code units, so equal seeds give equal generators |
| TombalaRng.SeededRng.SetSeed | src/libs/tombala/rng.js:21-25 | a falsy seed is stored as ''; the state restarts at the hash of the seed's UTF-16 code units; the instance itself is returned |
| TombalaRng.SeededRng.NextFloat | src/libs/tombala/rng.js:27-30 | the state advances by one Park–Miller step and stays valid; the returned numerator is the new state |
| TombalaRng.SeededRng.NextInt | src/libs/tombala/rng.js:32-34 | one step, then the result is the exact scaled index, in [0, k) for k >= 1 |
| TombalaRng.SeededRng.Shuffle | src/libs/tombala/rng.js:36-43 | the result is a permutation of the input of equal length, equal to the Fisher–Yates specification over the generator's n-1 indices, and the state has advanced n-1 steps |
| Seqs.SwapDownPermutes | src/libs/tombala/rng.js:38-41 | any sequence of swaps from the last index down yields a permutation of the input |
| Seqs.PermutationOfRange | src/libs/TombalaGame.js:5-7 | a permutation of lo..hi has the range's length, is duplicate-free and holds exactly lo..hi |
| Seqs.SortAscending | src/libs/tombala/card.js:22 | numeric sort: sorted, and a permutation of its input |
| TombalaCard.ColumnRangesOrdered | src/libs/tombala/card.js:1-11 | the nine column ranges are disjoint, ascending, and each holds at least three numbers |
| TombalaCard.RowsWhere | src/libs/tombala/card.js:93 | the row filter yields, in ascending order, exactly the rows whose flag is set |
| TombalaCard.GenerateColumnCounts | src/libs/tombala/card.js:25-38 | a returned count vector has 9 entries, each in [1, 3], summing to 15 |
| TombalaCard.TryBuildPlacement | src/libs/tombala/card.js:40-68 | a returned placement is 3 × 9 with exactly five cells per row and exactly `columnCounts[c]` cells in column c |
| TombalaCard.MarkSelected | src/libs/tombala/card.js:56-60 | marking the selected rows of one column sets exactly those cells and counts them in the row totals |
| TombalaCard.SelectionOfRows | src/libs/tombala/card.js:46-56 | a prefix of the shuffled candidate rows is a set of distinct valid rows |
| TombalaCard.BuildPlacement | src/libs/tombala/card.js:70-79 | at most 250 calls of `tryBuildPlacement`; a valid placement for the counts is returned as soon as one attempt yields it, and the error only after all 250 attempts have failed |
| TombalaCard.SampleWithoutReplacement | src/libs/tombala/card.js:13-23 | min(count, range size) distinct values in [min, max], ascending, equal to the sorted prefix of the Fisher–Yates shuffle of the range; the generator advanced by size-1 steps |
| TombalaCard.EmptyPlacement | src/libs/tombala/card.js:42 | the initial placement is 3 × 9 with no cell set and no row counted |
| TombalaCard.CreateEmptyCard | src/libs/tombala/card.js:81-83 | 3 rows of 9 empty cells |
| TombalaCard.PlaceColumn | src/libs/tombala/card.js:90-98 | writing one column's sorted values into its placed rows keeps the card inside the column ranges and ascending down each column; other columns are unchanged |
| TombalaCard.GenerateCard | src/libs/tombala/card.js:85-101 | a generated card is 3 × 9, five numbers per row, every value inside its column's range and increasing down each column, 15 distinct numbers in 1..90 |
| Cards.WellFormedCardNumbers | src/libs/tombala/card.js:1-11 | a well-formed card carries exactly 15 numbers without duplicates, since the column ranges are disjoint |
| Cards.CardNumbersMember | bot/tombala-bot.js:24-26 | a number is among the card's numbers iff some cell holds it |
| Cards.CardNumbersBounded | src/libs/tombala/card.js:1-11 | every number on a well-formed card lies between the first range's low end and the last range's high end |
| WinCheck.AutoMarkCard | src/libs/tombala/win-check.js:1-4 | the marks have the card's shape, and a cell is marked iff it holds a number that was drawn, whether the draws come as an array or as a set |
| WinCheck.CompletedRowsBelow | src/libs/tombala/win-check.js:8-16 | the completed rows are listed in ascending order, and a row is listed iff each of its non-empty cells is marked |
| WinCheck.RowCompleteIffDrawn | src/libs/tombala/win-check.js:11-13 | a row is complete iff all of its numbers were drawn, so a row without numbers is complete |
| WinCheck.CardMarkedCount | src/libs/tombala/win-check.js:18-20 | the number of marks is the number of the card's numbers that were drawn |
| WinCheck.EvaluateCard | src/libs/tombala/win-check.js:6-30 | `completedRows` ascending and exactly the fully drawn rows; `matchedCount` the drawn numbers on the card; cinko1 iff at least one completed row, cinko2 iff at least two, tombala iff exactly 15 matches |
| WinCheck.ListAndSetAgree | src/libs/tombala/win-check.js:2 | evaluating against the array of draws or against its set gives the same result |
| WinCheck.TombalaIffAllDrawn | src/libs/tombala/win-check.js:28 | on a card with 15 numbers, tombala holds iff every number on it was drawn |
| WinCheck.EvaluationMonotone | src/libs/tombala/win-check.js:6-30 | drawing more numbers never undoes a completed row, a match, a çinko, or (on 15-number cards) a tombala |
| WinCheck.TombalaCompletesRows | src/libs/tombala/win-check.js:26-28 | on a 3-row card with 15 numbers, a tombala completes every row and so also holds both çinkos |
| TombalaLib.Numerator | src/libs/tombala.js:16 | the unsigned value `t` of the 32-bit state is in [0, 2^32) |
| TombalaLib.Scale32 | src/libs/tombala.js:27-29 | `floor(t / 2^32 * n)` lies in [0, n) for n >= 1 |
| TombalaLib.MixIndices | src/libs/tombala.js:36-39 | the swap partners drawn from a state: index i is swapped with some j in [0, i] |
| TombalaLib.MixShuffleStep | src/libs/tombala.js:86-88 | one loop iteration (swap i with randomInt(0, i)) leaves exactly the rest of the Fisher–Yates specification to do from the next state |
| TombalaLib.MixRng.constructor | src/libs/tombala.js:6-12 | the closure's initial `h` is the seed's hash, started from its length in code units and mixing in each UTF-16 code unit |
| TombalaLib.SurrogateSeedMix | src/libs/tombala.js:8-10 | a character above U+FFFF counts as length 2 and mixes in both halves of its surrogate pair |
| TombalaLib.MixRng.Next | src/libs/tombala.js:13-18 | one call applies the mixer to `h` and returns its unsigned value t, with `rng() = t / 2^32` |
| TombalaLib.RandomInt | src/libs/tombala.js:27-29 | one generator call; the result is min plus the scaled index, in [min, max] when min <= max |
| TombalaLib.ShuffleInPlace | src/libs/tombala.js:36-39 | the array becomes the Fisher–Yates specification of its old contents over the generator's indices, and the generator has advanced length-1 calls |
| TombalaLib.SwapWithRandom | src/libs/tombala.js:37-38 | one in-place swap with a random partner leaves exactly the rest of the specification to do |
| TombalaLib.EmptyGrid | src/libs/tombala.js:45 | the initial card is 3 rows of 9 empty cells |
| TombalaLib.ColumnRange | src/libs/tombala.js:21-25 | for each of the 9 columns, x is in the column's range iff x is in 1..90 and its tens digit selects that column (80..90 together in the last) |
| TombalaLib.ColumnRanges | src/libs/tombala.js:21-25 | the nine ranges are ordered, start at 1 and end at 90 |
| TombalaLib.SampleUniqueNumbers | src/libs/tombala.js:31-41 | min(count, range size) distinct ascending values in [min, max], equal to the sorted prefix of the shuffled range; the generator advanced size-1 calls |
| TombalaLib.OpenRows | src/libs/tombala.js:61-63 | exactly the rows with free slots, in ascending order |
| TombalaLib.SortBySlots | src/libs/tombala.js:64 | the comparator sort (more free slots first, lower row on ties) orders the rows and keeps them as a permutation |
| TombalaLib.InsertBySlotsOrdered | src/libs/tombala.js:64 | inserting a row into a comparator-sorted list keeps it sorted |
| TombalaLib.PossibleRows | src/libs/tombala.js:61-67 | min(need, open rows) rows, ascending, each with a free slot, and each ranked before every open row left out |
| TombalaLib.GreedyStep | src/libs/tombala.js:59-71 | when free slots differ by at most one between rows and sum to the numbers still to place, a column of 1..3 gets all its rows, and the balance survives |
| TombalaLib.TakenStaysBalanced | src/libs/tombala.js:69-71 | taking one slot from each chosen row keeps the slot counts non-negative and within one of each other |
| TombalaLib.DecrementSlots | src/libs/tombala.js:69-71 | decrementing the chosen rows' slots equals `TakeSlots` |
| TombalaLib.FillColumn | src/libs/tombala.js:75-77 | the chosen rows get the column's values in order, and other rows are untouched |
| TombalaLib.DrawColumnCounts | src/libs/tombala.js:47-55 | the column-count loop ends with 9 counts, each in [1, 3], summing to 15 |
| TombalaLib.PlaceGreedyColumn | src/libs/tombala.js:59-78 | one column of the greedy loop keeps the card's filled prefix well-formed and the row slots balanced |
| TombalaLib.GreedyDone | src/libs/tombala.js:57-80 | after all nine columns with balanced slots, the card is well-formed: five numbers per row, 15 distinct numbers in 1..90 |
| TombalaLib.GenerateCard | src/libs/tombala.js:43-81 | a generated card has 3 rows of 9 cells, five numbers per row, each number inside `columnRange(c)`, 15 distinct numbers in 1..90 |
| TombalaLib.ShuffledRangePermutes | src/libs/tombala.js:85-89 | under any generator state the shuffled 1..90 holds 90 distinct values covering exactly 1..90 |
| TombalaLib.DrawOrder | src/libs/tombala.js:83-91 | the draw order is the Fisher–Yates shuffle of 1..90 under the seed's generator, so equal seeds give equal orders; it is 90 distinct values covering exactly 1..90 |
| TombalaLib.HitsEqualTotal | src/libs/tombala.js:95-97 | a row's hits equal its total iff every number in the row was drawn |
| TombalaLib.CardDrawnByRows | src/libs/tombala.js:98-99 | every number on the card is drawn iff every row is fully drawn |
| TombalaLib.EvaluateCard | src/libs/tombala.js:93-102 | `completedRows` counts the fully drawn rows; tombala iff every row is fully drawn |
| TombalaLib.ValidateClaim | src/libs/tombala.js:104-113 | 'cinko' holds iff some row is fully drawn; 'tombala' holds iff every non-empty cell was drawn; any other claim type is false |
| TombalaLib.FixtureFirstRow | tests/tombala.test.js:51-56 | the fixture card with its first row drawn validates 'cinko' and not 'tombala' |
| TombalaLib.FixtureAlmostTombala | tests/tombala.test.js:52-57 | the fixture card with one number missing is not a tombala |
| TombalaLib.FixtureFullTombala | tests/tombala.test.js:53-58 | the fixture card with all 14 numbers drawn is a tombala |
| Game.WinnerList | src/libs/TombalaManager.js:47-49 | a winner slot is listed as an empty list when open and as a one-element list when taken |
| Game.ListWinners | src/libs/TombalaManager.js:46-50 | each stage's winner list has at most one element and reflects its slot |
| Game.ClaimOutcome | src/libs/TombalaGame.js:79-117 | the awarded prize is open and achieved, and no lower-ranked prize is (checked cinko1 → cinko2 → tombala); nothing is awarded iff no prize is both open and achieved |
| Game.Award | src/libs/TombalaGame.js:79-102 | the won stage now names the claimant and every other stage is unchanged |
| Game.SetClaim | src/libs/TombalaGame.js:79-104 | the won stage's claim flag is set and the other flags are unchanged |
| Game.IssuedCardNumbers | src/libs/tombala/card.js:85-101 | a card the game issues carries 15 distinct numbers in 1..90 |
| Game.DrawPoolIsRange | src/libs/TombalaGame.js:5-7 | the initial pool is 1..90 in order: 90 distinct values, exactly 1..90 |
| Game.HistoryDistinct | src/libs/TombalaGame.js:14-16 | under the pool invariant, history and pool together hold 90 numbers, each list is duplicate-free, and no drawn number remains in the pool |
| Game.SeededPoolPermutes | src/libs/TombalaGame.js:30 | the seeded shuffle of the pool is a permutation of 1..90 |
| Game.ReseedAndShuffle | src/libs/TombalaGame.js:27-33 | reseeding stores the seed in the generator; the pool becomes exactly the Park–Miller Fisher–Yates shuffle of 1..90 for that seed, with the generator 89 steps on |
| Game.ReseedFreshPool | src/libs/TombalaGame.js:27-33 | a reseeded pool with an empty history satisfies the pool invariant |
| Game.AwardKeepsConsistent | src/libs/TombalaGame.js:79-111 | awarding a registered claimant keeps every recorded winner registered and every player keyed by their own nick |
| Game.StagesInOrder | src/libs/TombalaGame.js:79-111 | on an issued card, çinko 2 is awarded only after çinko 1 is taken, and tombala only after both |
| Game.TombalaGame.constructor | src/libs/TombalaGame.js:10-25 | a new game is idle, has no players, pool 1..90 in order, empty history, no last draw, no winners, no timer, and a generator on the empty seed |
| Game.TombalaGame.SetSeed | src/libs/TombalaGame.js:27-33 | the seed is stored; the pool is a fresh permutation of 1..90; the history is empty and there is no last draw; status, players (with their cards), winners and timer are untouched |
| Game.TombalaGame.SetStatus | src/libs/TombalaGame.js:35-37 | only the status changes |
| Game.TombalaGame.RegisterPlayer | src/libs/TombalaGame.js:39-52 | a known nick gets its existing record back and the generator is untouched; a new nick gets a well-formed card and all claims false; a failed card generation registers nobody; nothing else changes |
| Game.TombalaGame.DrawNumber | src/libs/TombalaGame.js:54-62 | an empty pool yields nothing and changes nothing; otherwise the front of the pool moves to the end of the history and becomes the last draw; history followed by pool is unchanged |
| Game.TombalaGame.DrawnSet | src/libs/TombalaGame.js:64-66 | the set of drawn numbers holds exactly the history's numbers |
| Game.TombalaGame.VerifyClaim | src/libs/TombalaGame.js:68-118 | an unregistered nick gets ok=false and nothing changes; otherwise the card is evaluated against the draws, the prize is `ClaimOutcome`, a won prize records the winner and the claim flag, tombala finishes the game, and a claim that wins nothing changes nothing |
| Game.TombalaGame.RecordWin | src/libs/TombalaGame.js:80-104 | records the winner and the player's claim flag; tombala sets 'finished'; the draw state is untouched |
| Game.DrawnSetSize | src/libs/TombalaGame.js:64-66 | the drawn set has as many members as the history has entries, at most 90 |
| CommandParser.LookupAlias | src/libs/TombalaCommandParser.js:3-13 | an alias found for a key is the command whose name is that key |
| CommandParser.LookupName | src/libs/TombalaCommandParser.js:3-13 | every command's name looks up to that command |
| CommandParser.TrimStart | src/libs/TombalaCommandParser.js:20 | the left-trimmed string does not start with white space |
| CommandParser.TrimEnd | src/libs/TombalaCommandParser.js:20 | the right-trimmed string does not end with white space |
| CommandParser.TrimPadded | src/libs/TombalaCommandParser.js:20 | trimming ignores any white-space padding on either side |
| CommandParser.LowerChar | src/libs/TombalaCommandParser.js:21-30 | A–Z become a–z and every other character is kept |
| CommandParser.Lower | src/libs/TombalaCommandParser.js:21-30 | lower-casing keeps the length and lowers each character |
| CommandParser.Parse | src/libs/TombalaCommandParser.js:15-47 | a line is a command iff it is a string whose trimmed lower case starts with '!tombala'; the resulting command is always one of the nine |
| CommandParser.ParsePadded | src/libs/TombalaCommandParser.js:20 | white space around a line does not change how it parses |
| CommandParser.SplitJoin | src/libs/TombalaCommandParser.js:25 | splitting words joined by single spaces gives back the words |
| CommandParser.ParseWords | src/libs/TombalaCommandParser.js:25-46 | for a line of words: the bare prefix is yardim with no args; an unknown subcommand is yardim with every token after the prefix as args; seed gets 0 or 1 args (the rest joined by spaces); other commands get exactly the tokens after the subcommand |
| CommandParser.TokensOfWords | src/libs/TombalaCommandParser.js:20-25 | the tokens of a prefixed line of words are those words |
| CommandParser.SeedArgsOfWords | src/libs/TombalaCommandParser.js:36-41 | seed's argument list is empty for no words and otherwise the words joined by single spaces |
| CommandParser.UsageParses | src/libs/TombalaCommandParser.js:49-61 | every usage line of the help text parses as its own command |
| CommandParser.Usages | src/libs/TombalaCommandParser.js:50-59 | the nine usage lines in the help order |
| CommandParser.HelpOrderComplete | src/libs/TombalaCommandParser.js:50-59 | the help lists every command exactly once |
| CommandParser.HelpListsEveryCommand | src/libs/TombalaCommandParser.js:49-61 | every command's usage occurs in the help text |
| CommandParser.InheritedKeyParsesAsWritten | src/libs/TombalaCommandParser.js:31 | "!tombala constructor" as written yields the inherited `constructor` member as its command; the corrected parser yields yardim |
| CommandParser.InheritedWordParses | src/libs/TombalaCommandParser.js:30-34 | for any line whose second word is an inherited key, the lookup as written finds that inherited member, while the corrected parser asks for help with every word after the prefix |
| CommandParser.AsWrittenAgreesElsewhere | src/libs/TombalaCommandParser.js:15-47 | away from the inherited keys, the parser as written and the corrected parser agree |
| Manager.UiView | src/libs/TombalaManager.js:37-51 | `hasCard` iff the nick is registered; a registered player's own card, the drawn numbers among its numbers, and its marks; an empty card and empty lists otherwise; each winners list has at most one element |
| Manager.NewSession | src/libs/TombalaManager.js:73-74 | a fresh game for the channel in 'registering' |
| Manager.TombalaManager.constructor | src/libs/TombalaManager.js:8-12 | no games; the interval falls back to 30000 for a missing, zero or non-numeric option; singleWinnerPerStage holds unless the option is false |
| Manager.TombalaManager.GetOrCreate | src/libs/TombalaManager.js:14-19 | the channel's existing game is returned unchanged; otherwise a fresh idle game is added; other channels are untouched |
| Manager.TombalaManager.StopTimer | src/libs/TombalaManager.js:21-26 | the timer is cleared and nothing else changes |
| Manager.TombalaManager.EndGame | src/libs/TombalaManager.js:28-32 | the channel's game (created when missing) is finished with no timer; other games are untouched |
| Manager.TombalaManager.Finish | src/libs/TombalaManager.js:28-32 | an existing game is finished with its timer cleared, and nothing else of it changes |
| Manager.TombalaManager.Replace | src/libs/TombalaManager.js:73-74 | the channel gets a fresh game in 'registering'; other channels are untouched |
| Manager.TombalaManager.Register | src/libs/TombalaManager.js:83 | registration as `registerPlayer` states it: idempotent for a known nick, a new player with a well-formed card and no claims, and no registration on failure |
| Manager.TombalaManager.Reseed | src/libs/TombalaManager.js:93 | the seed is stored, the pool becomes a fresh permutation of 1..90, the history is cleared; status, players, winners and timer are kept |
| Manager.TombalaManager.Start | src/libs/TombalaManager.js:106-117 | the status becomes running, and a timer is set only when none is running |
| Manager.TombalaManager.Draw | src/libs/TombalaManager.js:109-125 | `drawNumber` on the channel's game: nothing on an empty pool, otherwise the front number moves to the history |
| Manager.TombalaManager.Claim | src/libs/TombalaManager.js:142 | `verifyClaim` on the channel's game; tombala finishes it; the timer and the draws are untouched |
| Manager.TombalaManager.Baslat | src/libs/TombalaManager.js:71-76 | the old game's timer is stopped and the channel gets a fresh game in 'registering' |
| Manager.TombalaManager.Katil | src/libs/TombalaManager.js:77-86 | refused and nothing changes while the game is idle or finished; otherwise the nick joins |
| Manager.TombalaManager.Join | src/libs/TombalaManager.js:83-84 | a known nick leaves the players as they were; a new nick is added with a well-formed card and no claims, and nothing else changes; the reply gives the player count; a failed card generation is reported as thrown and adds nobody |
| Manager.TombalaManager.SeedCmd | src/libs/TombalaManager.js:87-96 | an empty seed replies with the usage and changes nothing; otherwise the trimmed, space-joined seed reseeds the game and clears its draws |
| Manager.TombalaManager.Basla | src/libs/TombalaManager.js:97-119 | refused unless registering; refused without players; otherwise running, with a timer started only when none is set |
| Manager.TombalaManager.DrawOrEnd | src/libs/TombalaManager.js:125-131 | an empty pool ends the game (finished, no timer); otherwise the front number is drawn and announced |
| Manager.TombalaManager.TimerTick | src/libs/TombalaManager.js:108-116 | a tick draws and announces the next number or ends the game when the pool is empty; history and pool still hold 90 numbers |
| Manager.TombalaManager.Cek | src/libs/TombalaManager.js:120-133 | refused unless running; an empty pool finishes the game; otherwise the front number is drawn and announced |
| Manager.TombalaManager.Durum | src/libs/TombalaManager.js:134-136 | the status line reports the status, player count, number of draws and last draw, which is the history's last entry |
| Manager.TombalaManager.Kazan | src/libs/TombalaManager.js:137-148 | refused unless running or finished; otherwise the claim's message is replied, and a won tombala ends the game with its timer cleared |
| Manager.TombalaManager.KazanAsWritten | src/libs/TombalaManager.js:144 | as written, the timer always survives a claim, even a won tombala; this is the `kazan` that `handleMessage` runs |
| Manager.TombalaManager.Bitir | src/libs/TombalaManager.js:149-152 | the game is finished with its timer cleared, and players, draws and winners are kept |
| Manager.TombalaManager.Dispatch | src/libs/TombalaManager.js:61-155 | baslat/basla/bitir/seed from a non-operator only reply; yardim replies with the help text and changes nothing; only katil can throw; kazan runs as written, so the game's timer survives every claim |
| Manager.TombalaManager.HandleParsed | src/libs/TombalaManager.js:60-155 | a parsed command creates the channel's game if need be and only that channel's game can change; only katil can throw; a kazan leaves the timer as it was, or none on a new game |
| Manager.TombalaManager.HandleMessage | src/libs/TombalaManager.js:54-158 | handled iff the message parses; an unparsed message touches no game and sends nothing; only the addressed channel's game can change |
| Manager.TombalaManager.GetUiState | src/libs/TombalaManager.js:34-52 | the channel's game (created when missing) is otherwise unchanged, and the view is `UiView` of its state for the nick |
| Manager.TombalaManager.GetUiStateAsWritten | src/libs/TombalaManager.js:36 | as written, the view always fails, because the game has no `getPlayer` |
| Bot.CardResultOf | bot/tombala-bot.js:28-37 | cinko1 iff some row is fully drawn; cinko2 iff at least two are; tombala iff every row is; cinko2 implies cinko1 |
| Bot.TombalaWithCinkos | bot/tombala-bot.js:28-37 | on a 3-row card, tombala implies both çinkos |
| Bot.CardResultMatchesEvaluate | bot/tombala-bot.js:28-37 | `cardResult` agrees with the engine's `evaluateCard` on the same draws |
| Bot.BotClaimOutcome | bot/tombala-bot.js:215-243 | the awarded prize is open and achieved, and no higher-ranked prize is (checked tombala → cinko2 → cinko1); nothing is awarded iff no prize is both open and achieved |
| Bot.FreshGamePool | bot/tombala-bot.js:39-55 | a new game's pool is a duplicate-free permutation holding exactly 1..90, with an empty history |
| Bot.NewGame | bot/tombala-bot.js:39-55 | the in-place shuffle yields the Fisher–Yates shuffle of 1..90 over the given indices, with status registering, no draws, no players, no winners and no timer |
| Bot.LastShown | bot/tombala-bot.js:204 | the last draw is shown only when the history is non-empty and its last entry is truthy |
| Bot.Route | bot/tombala-bot.js:122-129 | a line is addressed iff its trimmed text starts with '!tombala' case-sensitively; no subcommand means yardim; otherwise the command is the one whose name is the lower-cased second token |
| Bot.PoolHasNoZero | bot/tombala-bot.js:87-88 | in a consistent game the front of a non-empty pool is never 0, so the falsy test only fires on an empty pool |
| Bot.DrawKeepsConsistent | bot/tombala-bot.js:87-95 | moving the front number to the history keeps the game consistent |
| Bot.FreshGameConsistent | bot/tombala-bot.js:39-55 | a new game is consistent |
| Bot.ReseededConsistent | bot/tombala-bot.js:157-159 | a new game carrying over an old game's players and status is consistent |
| Bot.JoinKeepsConsistent | bot/tombala-bot.js:172-173 | adding a well-formed card under the lower-cased nick keeps the game consistent |
| Bot.AwardKeepsConsistent | bot/tombala-bot.js:216-240 | awarding a registered claimant keeps the game consistent, whatever the status and timer |
| Bot.ServesUpdate | bot/tombala-bot.js:57 | replacing one served channel's game by a consistent game keeps every game consistent |
| Bot.TombalaBot.constructor | bot/tombala-bot.js:21-57 | no games, the configured channels and interval |
| Bot.TombalaBot.DrawNumber | bot/tombala-bot.js:81-98 | nothing unless the channel's game is running; an empty pool finishes the game without recording anything; otherwise the shifted number is appended, then drawn and published |
| Bot.TombalaBot.Baslat | bot/tombala-bot.js:141-147 | the channel gets a new game from the automatic seed, which is then announced and published |
| Bot.TombalaBot.SeedCmd | bot/tombala-bot.js:155-164 | a new game from the given seed (or the automatic one when empty) that keeps the old players and status, so draws and winners are reset |
| Bot.TombalaBot.Katil | bot/tombala-bot.js:166-181 | refused unless registering; players are keyed by the lower-cased nick, and an existing player is never replaced; a new nick gets a card |
| Bot.TombalaBot.Enrol | bot/tombala-bot.js:172-173 | the new player gets a well-formed card under the lower-cased nick, and nothing else changes |
| Bot.TombalaBot.Basla | bot/tombala-bot.js:183-196 | refused without players; otherwise running with a new timer, whatever the status was |
| Bot.TombalaBot.Durum | bot/tombala-bot.js:203-206 | the status line reports status, player count, number of draws and the shown last draw |
| Bot.TombalaBot.Kazan | bot/tombala-bot.js:208-244 | an unregistered nick is refused; otherwise the prize is `BotClaimOutcome` of the card; tombala finishes the game and clears the timer; nothing won changes nothing |
| Bot.TombalaBot.Bitir | bot/tombala-bot.js:246-254 | the channel's game is removed and a reset is emitted |
| Bot.TombalaBot.HandleMessage | bot/tombala-bot.js:120-255 | other channels and unaddressed lines are ignored; yardim replies with help; restricted commands from non-operators are refused with no change; baslat installs a new game; without a game only a refusal is sent; bitir removes the game |
| Variants.ColumnRangesAgree | src/libs/tombala.js:21-25 | both engines use the same nine column ranges, so a card well-formed for one is well-formed for the other |
| Variants.FixtureTombalaDiverges | src/libs/tombala/win-check.js:28 | the 14-number fixture card fully drawn is a tombala for `validateClaim` and for the bot, but not for `evaluateCard`, which needs 15 matches |
| Variants.FixtureHasFourteen | tests/tombala.test.js:45-49 | the fixture card carries 14 numbers |
| Variants.ClaimOrders | src/libs/TombalaGame.js:79-111 | on the same achievements both engines award iff some prize is open and achieved; the manager's pick never outranks the bot's, and they pick the same prize iff at most one prize is open and achieved |
| Variants.BotLinesParse | bot/tombala-bot.js:124 | every line the bot answers also parses as a command for the manager |
| Variants.ShoutedPrefixIgnored | bot/tombala-bot.js:124 | the converse fails: "!TOMBALA durum" parses for the manager, but the bot, which tests the prefix case-sensitively, ignores it |

## Left out

- Floating point: `nextFloat()` and `rng()` return `state / M` and `t / 2^32`. The model keeps the integer numerators, and `nextInt` and `randomInt` are their exact integer forms. For `randomInt`, `t / 2^32` is exact and its product with a range width below 2^21 stays below 2^53, so JavaScript computes `floor(t * n / 2^32)` exactly. For `nextInt`, JavaScript never forms the exact product: it floors the rounded double `state / M` times k. The integer quotient is still the right value. M is prime and the state lies in [1, M-1], so `state * k` is never a multiple of M for 1 <= k < M. The exact quotient therefore lies at least 1/M from an integer, which is far more than the rounding error of the double. The model does not prove this argument about doubles. TombalaRng.ProductNotMultiple proves only the case k = 48271, the one that keeps the state non-zero.
- Timers: `setInterval` and `clearInterval` are not modelled. A timer is an opaque optional handle on the game. One tick of the manager's interval is `Manager.TombalaManager.TimerTick`. One tick of the bot's interval is a call of `Bot.TombalaBot.DrawNumber`. Timing itself is not modelled.
- Manager.TombalaManager.TimerTick: acts on the channel's current game. The source's closure holds the game object it was created for. The two differ only after baslat replaces the game, and baslat stops the timer before that.
- Bot.TombalaBot.Baslat: the bot's baslat and seed do not clear a running interval. That orphaned interval's ticks remain possible as `DrawNumber` calls on the channel's new game.
- `Date.now()` seeds become the `autoSeed` parameter.
- `seedrandom` is not modelled. It is a foreign library, so the bot's shuffle takes its stream of swap indices `js` as a parameter.
- IRC transport is not modelled: connection, joins and `isOp` mode probing. Operator status is a boolean input. What the bot would say or emit is returned as a list of `Output` values.
- The message wording and the JSON encoding of events are not modelled; the model keeps their data only.
- The manager's `reply` and `announceDraw` callbacks become returned outputs.
- A non-string `event.message` in the bot is not modelled. The bot takes the message as a string.
- Lower-casing maps only A–Z. `toLowerCase` also maps letters outside ASCII, and the model does not cover those.
- `Number(options.drawIntervalMs)` is taken as an already parsed option. The option is a number or not-a-number, and non-integer intervals are not modelled.
- TombalaCard.GenerateColumnCounts: the source loop runs until the generator cooperates. The model allows at most 100000 draws and then returns no counts, which `generateCard` reports as an error. The same bound applies to TombalaLib.DrawColumnCounts and TombalaLib.GenerateCard, which then return no card.
- Bot.TombalaBot.Katil: when card generation gives up under that bound, the model sends nothing and changes nothing.
- TombalaCard.TryBuildPlacement: the contract states only what a returned placement satisfies. It does not state when the attempt fails.
- TombalaCard.GenerateCard: does not state which card a given generator state yields, only the card's properties. The same holds for TombalaLib.GenerateCard.
- Game.TombalaGame.SetSeed: states that the pool is a fresh permutation of 1..90 and gives the generator's new state. The exact shuffled order is stated on Game.ReseedAndShuffle, which SetSeed runs.
- Manager.TombalaManager.HandleMessage: states routing and which parts of the state can change. The per-command effects are stated on the command methods it dispatches to. The same holds for Manager.TombalaManager.Dispatch and Bot.TombalaBot.HandleMessage.
- `singleWinnerPerStage` is stored by the manager and passed to `verifyClaim`, which ignores it; the model ignores it too.
- `getDrawnSet`, the unused `getColumnRanges`, and the Vue UI are not modelled.
- src/plugin.js and src/libs/Utils.js are not part of this model. They are IRC client wiring and a global dictionary wrapper.

## Findings

| source | as written | input that shows it | evidently intended | confidence | as-written member | corrected member |
|---|---|---|---|---|---|---|
| src/libs/TombalaCommandParser.js:31 | the subcommand is looked up in a plain object literal, so inherited `Object.prototype` members match | "!tombala constructor" yields the `constructor` function as the command | only the nine own keys are commands, and anything else is yardim | not executed | CommandParser.InheritedKeyParsesAsWritten | CommandParser.Parse |
| src/libs/TombalaManager.js:36 | `getUiState` calls `game.getPlayer(nick)`, which `TombalaGame` does not define | any call, e.g. channel "#a", nick "ali" | look the nick up in the game's players | not executed | Manager.TombalaManager.GetUiStateAsWritten | Manager.TombalaManager.GetUiState |
| src/libs/TombalaManager.js:144 | after a claim it tests `result.stage === 'tombala'`, but `verifyClaim` returns `prize`, so `endGame` never runs | a running game with a timer and both çinkos taken; a registered player whose 15 numbers are all drawn sends "!tombala kazan"; the game is finished but its interval keeps running | end the game and stop its timer after a won tombala | not executed | Manager.TombalaManager.KazanAsWritten | Manager.TombalaManager.Kazan |
