/** src/libs/TombalaGame.js: the state of one channel's game, namely its status, the registered
    players and their cards, the draw pool and draw history, the three prize winners and
    the handle of the timer that draws numbers. */
module Game {
  import opened Wrappers
  import opened Seqs
  import opened Cards
  import opened TombalaRng
  import TombalaCard
  import WinCheck

  datatype Status = Idle | Registering | Running | Finished

  /** What `setInterval` returns; it is always truthy. */
  type TimerHandle = x: int | x > 0 witness 1

  datatype Claims = Claims(cinko1: bool, cinko2: bool, tombala: bool)

  datatype Player = Player(nick: string, card: Card, claims: Claims)

  /** Each slot holds `null` or the nick that won the prize. */
  datatype Winners = Winners(cinko1: Option<string>, cinko2: Option<string>, tombala: Option<string>)

  const NO_WINNERS: Winners := Winners(None, None, None)
  const NO_CLAIMS: Claims := Claims(false, false, false)


  /** The prizes, in the order `verifyClaim` tries them. */
  datatype Prize = Cinko1 | Cinko2 | Tombala

  function Rank(p: Prize): nat
  {
    match p
    case Cinko1 => 0
    case Cinko2 => 1
    case Tombala => 2
  }

  datatype ClaimMessage =
    | NoCard(nick: string)
    | Won(nick: string, prize: Prize)
    | NothingWon(nick: string)

  /** `verifyClaim`'s result; `prize` and `result` are absent where the source leaves them out. */
  datatype ClaimResult = ClaimResult(ok: bool, prize: Option<Prize>, result: Option<WinCheck.Evaluation>,
                                     message: ClaimMessage)

  function WinnerOf(w: Winners, p: Prize): Option<string>
  {
    match p
    case Cinko1 => w.cinko1
    case Cinko2 => w.cinko2
    case Tombala => w.tombala
  }

  function ClaimOf(c: Claims, p: Prize): bool
  {
    match p
    case Cinko1 => c.cinko1
    case Cinko2 => c.cinko2
    case Tombala => c.tombala
  }

  function Achieved(e: WinCheck.Evaluation, p: Prize): bool
  {
    match p
    case Cinko1 => e.cinko1
    case Cinko2 => e.cinko2
    case Tombala => e.tombala
  }

  /** `!this.winners[p]`: a slot is still open while it is `null` or holds the (falsy) empty nick. */
  predicate Open(slot: Option<string>)
  {
    slot.None? || slot.value == ""
  }

  /** `game.winners[p] ? [game.winners[p]] : []`. */
  function WinnerList(slot: Option<string>): (r: seq<string>)
    ensures |r| <= 1
    ensures r != [] <==> !Open(slot)
    ensures r != [] ==> r == [slot.value]
  {
    if Open(slot) then [] else [slot.value]
  }

  datatype WinnerLists = WinnerLists(cinko1: seq<string>, cinko2: seq<string>, tombala: seq<string>)

  /** The `winners` object of a published state: each prize's winner, as a list of at most one. */
  function ListWinners(w: Winners): (r: WinnerLists)
    ensures |r.cinko1| <= 1 && |r.cinko2| <= 1 && |r.tombala| <= 1
    ensures r.cinko1 == WinnerList(w.cinko1) && r.cinko2 == WinnerList(w.cinko2) && r.tombala == WinnerList(w.tombala)
  {
    WinnerLists(WinnerList(w.cinko1), WinnerList(w.cinko2), WinnerList(w.tombala))
  }

  /** The prize a claim wins: the first prize, in the order çinko 1, çinko 2, tombala, whose slot is
      open and which the card achieves; none when there is no such prize. */
  function ClaimOutcome(w: Winners, e: WinCheck.Evaluation): (r: Option<Prize>)
    ensures r.Some? ==> Open(WinnerOf(w, r.value)) && Achieved(e, r.value)
    ensures r.Some? ==> forall q :: Rank(q) < Rank(r.value) ==> !(Open(WinnerOf(w, q)) && Achieved(e, q))
    ensures r.None? <==> forall q :: !(Open(WinnerOf(w, q)) && Achieved(e, q))
  {
    if Open(w.cinko1) && e.cinko1 then Some(Cinko1)
    else if Open(w.cinko2) && e.cinko2 then Some(Cinko2)
    else if Open(w.tombala) && e.tombala then Some(Tombala)
    else None
  }

  /** Records `nick` as the winner of `p`; the other slots keep their winners. */
  function Award(w: Winners, p: Prize, nick: string): (r: Winners)
    ensures WinnerOf(r, p) == Some(nick)
    ensures forall q :: q != p ==> WinnerOf(r, q) == WinnerOf(w, q)
  {
    match p
    case Cinko1 => w.(cinko1 := Some(nick))
    case Cinko2 => w.(cinko2 := Some(nick))
    case Tombala => w.(tombala := Some(nick))
  }

  /** Sets a player's flag for `p`; the other flags keep their values. */
  function SetClaim(c: Claims, p: Prize): (r: Claims)
    ensures ClaimOf(r, p)
    ensures forall q :: q != p ==> ClaimOf(r, q) == ClaimOf(c, q)
  {
    match p
    case Cinko1 => c.(cinko1 := true)
    case Cinko2 => c.(cinko2 := true)
    case Tombala => c.(tombala := true)
  }

  /** What `generateCard` promises of the cards it returns: a well-formed card over the
      standard column ranges. */
  ghost predicate IssuedCard(card: Card)
  {
    WellFormedCard(card, TombalaCard.COLUMN_RANGES)
  }

  /** An issued card holds fifteen distinct numbers, all between 1 and 90. */
  lemma IssuedCardNumbers(card: Card)
    requires IssuedCard(card)
    ensures |CardNumbers(card)| == CARD_ROWS * NUMBERS_PER_ROW
    ensures Distinct(CardNumbers(card))
    ensures forall x :: x in CardNumbers(card) ==> 1 <= x <= 90
  {
    TombalaCard.ColumnRangesOrdered();
    WellFormedCardNumbers(card, TombalaCard.COLUMN_RANGES);
    CardNumbersBounded(card, TombalaCard.COLUMN_RANGES);
  }

  /** `buildDrawPool`: the numbers 1..90 in ascending order. */
  function BuildDrawPool(): (r: seq<int>)
    ensures |r| == 90
  {
    seq(90, i => i + 1)
  }

  /** The fresh pool is the range 1..90: each number once. */
  lemma DrawPoolIsRange()
    ensures BuildDrawPool() == Range(1, 90)
    ensures Distinct(BuildDrawPool()) && forall x :: x in BuildDrawPool() <==> 1 <= x <= 90
  {
    RangeDistinct(1, 90);
  }

  /** The drawn numbers followed by the pool are the numbers 1..90, each once. */
  ghost predicate PoolInvariant(drawn: seq<int>, pool: seq<int>)
  {
    multiset(drawn + pool) == multiset(BuildDrawPool())
  }

  /** Under the pool invariant, no number is drawn twice, the pool never offers a drawn number
      again, and exactly 90 numbers are drawn or still to come. */
  lemma HistoryDistinct(drawn: seq<int>, pool: seq<int>)
    requires PoolInvariant(drawn, pool)
    ensures |drawn| + |pool| == 90
    ensures Distinct(drawn) && Distinct(pool)
    ensures forall x :: x in drawn ==> 1 <= x <= 90 && x !in pool
    ensures forall x :: x in pool ==> 1 <= x <= 90
  {
    var all := drawn + pool;
    DrawPoolIsRange();
    PermutationOfRange(all, 1, 90);
    forall x | x in drawn ensures 1 <= x <= 90 && x !in pool {
      var i :| 0 <= i < |drawn| && drawn[i] == x;
      assert all[i] == x && x in all;
      forall j | 0 <= j < |pool| ensures pool[j] != x {
        assert all[|drawn| + j] == pool[j];
      }
    }
    forall x | x in pool ensures 1 <= x <= 90 {
      var j :| 0 <= j < |pool| && pool[j] == x;
      assert all[|drawn| + j] == x && x in all;
    }
    forall p, q | 0 <= p < q < |drawn| ensures drawn[p] != drawn[q] {
      assert all[p] == drawn[p] && all[q] == drawn[q];
    }
    forall p, q | 0 <= p < q < |pool| ensures pool[p] != pool[q] {
      assert all[|drawn| + p] == pool[p] && all[|drawn| + q] == pool[q];
    }
  }

  /** `buildDrawPool` shuffled by the generator seeded with `text`. */
  function SeededPool(text: string): seq<int>
  {
    SwapDown(BuildDrawPool(), 89, PMIndices(SeedState(text), 89))
  }

  /** A seeded pool holds every number 1..90 exactly once. */
  lemma SeededPoolPermutes(text: string)
    ensures |SeededPool(text)| == 90
    ensures PoolInvariant([], SeededPool(text))
    ensures Distinct(SeededPool(text)) && forall x :: x in SeededPool(text) <==> 1 <= x <= 90
  {
    var r := SeededPool(text);
    SwapDownPermutes(BuildDrawPool(), 89, PMIndices(SeedState(text), 89));
    assert [] + r == r;
    DrawPoolIsRange();
    PermutationOfRange(r, 1, 90);
  }

  lemma SeededPoolInvariant(text: string, drawn: seq<int>, pool: seq<int>)
    requires drawn == [] && pool == SeededPool(text)
    ensures PoolInvariant(drawn, pool)
  {
    SeededPoolPermutes(text);
    assert drawn + pool == pool;
  }

  /** `rng.setSeed(text)` followed by `rng.shuffle(buildDrawPool())`. */
  method ReseedAndShuffle(rng: SeededRng, text: string) returns (pool: seq<int>)
    modifies rng
    ensures rng.Valid() && rng.seed == text
    ensures pool == SeededPool(text) && PoolInvariant([], pool)
    ensures rng.state == PMAfter(SeedState(text), 89)
  {
    var _ := rng.SetSeed(Given(text));
    var ordered := BuildDrawPool();
    assert TopIndex(|ordered|) == 89;
    pool := rng.Shuffle(ordered);
    SeededPoolInvariant(text, [], pool);
  }

  /** `ReseedAndShuffle` seen from the game: the new pool holds each number once and the
      generator has advanced by one step per swap. */
  method ReseedFreshPool(rng: SeededRng, text: string) returns (pool: seq<int>)
    modifies rng
    ensures rng.Valid() && rng.seed == text
    ensures PoolInvariant([], pool)
    ensures rng.state == PMAfter(SeedState(text), 89)
  {
    pool := ReseedAndShuffle(rng, text);
  }

  /** The winners of a consistent game are registered players whose flag for that prize is set. */
  ghost predicate WinnersRecorded(w: Winners, players: map<string, Player>)
  {
    forall p :: WinnerOf(w, p).Some? ==>
      WinnerOf(w, p).value in players && ClaimOf(players[WinnerOf(w, p).value].claims, p)
  }

  /** A registered player is stored under its own nick and holds an issued card. */
  ghost predicate Registered(n: string, player: Player)
  {
    player.nick == n && IssuedCard(player.card)
  }

  ghost predicate PlayersConsistent(players: map<string, Player>)
  {
    forall n :: n in players ==> Registered(n, players[n])
  }

  /** Every registered player holds an issued card under its own nick, and every winner is one of them. */
  ghost predicate Roster(players: map<string, Player>, w: Winners)
  {
    PlayersConsistent(players) && WinnersRecorded(w, players)
  }

  /** A won claim keeps the game consistent: the winner is a registered player and now carries the
      flag for the prize, and the flags the other winners rely on are untouched. */
  lemma AwardKeepsConsistent(players: map<string, Player>, w: Winners, nick: string, p: Prize)
    requires Roster(players, w) && nick in players
    ensures Roster(players[nick := players[nick].(claims := SetClaim(players[nick].claims, p))], Award(w, p, nick))
  {
    var players' := players[nick := players[nick].(claims := SetClaim(players[nick].claims, p))];
    var w' := Award(w, p, nick);
    forall q | WinnerOf(w', q).Some?
      ensures WinnerOf(w', q).value in players' && ClaimOf(players'[WinnerOf(w', q).value].claims, q)
    {
      if q != p && WinnerOf(w', q).value == nick {
        assert ClaimOf(players[nick].claims, q);
      }
    }
  }

  /** On a well-formed card a claim never skips a prize: çinko 2 is only won once çinko 1 is
      taken, and tombala only once both çinkos are taken. */
  lemma StagesInOrder(card: Card, drawn: WinCheck.Drawn, w: Winners)
    requires IssuedCard(card)
    ensures var p := ClaimOutcome(w, WinCheck.EvaluateCard(card, drawn));
      (p == Some(Cinko2) ==> !Open(w.cinko1)) &&
      (p == Some(Tombala) ==> !Open(w.cinko1) && !Open(w.cinko2))
  {
    var e := WinCheck.EvaluateCard(card, drawn);
    if e.tombala {
      IssuedCardNumbers(card);
      WinCheck.TombalaCompletesRows(card, drawn);
    }
  }

  class TombalaGame {
    const channelName: string
    const rng: SeededRng
    var status: Status
    var players: map<string, Player>
    var drawPool: seq<int>
    var drawnNumbers: seq<int>
    var lastDrawn: Option<int>
    var seed: string
    var winners: Winners
    var timerId: Option<TimerHandle>

    ghost predicate Valid()
      reads this, rng
    {
      && rng.Valid()
      && PoolInvariant(drawnNumbers, drawPool)
      && lastDrawn == (if drawnNumbers == [] then None else Some(drawnNumbers[|drawnNumbers| - 1]))
      && Roster(players, winners)
    }

    /** A new game: idle, no players, the pool 1..90 in order, no winners, no timer, an unseeded generator. */
    constructor (name: string)
      ensures Valid() && fresh(rng)
      ensures channelName == name && status == Idle && players == map[]
      ensures drawPool == BuildDrawPool() && drawnNumbers == [] && lastDrawn == None
      ensures seed == "" && winners == NO_WINNERS && timerId == None
      ensures rng.seed == "" && rng.state == SeedState("")
    {
      channelName := name;
      status := Idle;
      players := map[];
      drawPool := BuildDrawPool();
      drawnNumbers := [];
      lastDrawn := None;
      seed := "";
      rng := new SeededRng(Falsy);
      winners := NO_WINNERS;
      timerId := None;
      new;
      assert drawnNumbers + drawPool == BuildDrawPool();
    }

    /** Reseeds the generator, replaces the pool by the seeded shuffle of 1..90 and clears the draw
        history; players, their cards and the winners stay. Every caller passes a string, and
        `String(seed || '')` is that string itself. */
    method SetSeed(text: string)
      requires Valid()
      modifies this, rng
      ensures Valid()
      ensures seed == text && rng.seed == text
      ensures PoolInvariant([], drawPool) && drawnNumbers == [] && lastDrawn == None
      ensures rng.state == PMAfter(SeedState(text), 89)
      ensures status == old(status) && players == old(players) && winners == old(winners)
      ensures timerId == old(timerId)
    {
      var pool := ReseedFreshPool(rng, text);
      seed, drawPool, drawnNumbers, lastDrawn := text, pool, [], None;
    }

    /** The players, pool, history, seed and winners are those of the previous state. */
    twostate predicate Kept()
      reads this
    {
      && players == old(players) && drawPool == old(drawPool) && drawnNumbers == old(drawnNumbers)
      && lastDrawn == old(lastDrawn) && seed == old(seed) && winners == old(winners)
    }

    /** Nothing in the game differs from the previous state. */
    twostate predicate Same()
      reads this
    {
      Kept() && status == old(status) && timerId == old(timerId)
    }

    /** `game.status = s`; the game stays consistent. */
    method SetStatus(s: Status)
      modifies this
      ensures status == s && timerId == old(timerId) && Kept()
      ensures old(Valid()) ==> Valid()
    {
      status := s;
    }

    /** `game.timerId = t`; the game stays consistent. */
    method SetTimer(t: Option<TimerHandle>)
      modifies this
      ensures timerId == t && status == old(status) && Kept()
      ensures old(Valid()) ==> Valid()
    {
      timerId := t;
    }

    /** Registers `nick` with a fresh card unless already registered, and returns the player.
        A registered nick keeps its card and claims; a failed card generation registers nobody. */
    method RegisterPlayer(nick: string) returns (r: Result<Player, TombalaCard.CardError>)
      requires Valid()
      modifies this, rng
      ensures Valid()
      ensures nick in old(players) ==> r == Ok(old(players)[nick]) && players == old(players)
      ensures nick in old(players) ==> rng.state == old(rng.state)
      ensures nick !in old(players) && r.Ok? ==>
        && players == old(players)[nick := r.value]
        && r.value.nick == nick && r.value.claims == NO_CLAIMS && IssuedCard(r.value.card)
      ensures r.Err? ==> players == old(players)
      ensures status == old(status) && drawPool == old(drawPool) && drawnNumbers == old(drawnNumbers)
      ensures lastDrawn == old(lastDrawn) && seed == old(seed) && winners == old(winners)
      ensures timerId == old(timerId)
    {
      if nick !in players {
        var card := TombalaCard.GenerateCard(rng);
        if card.Err? {
          return Err(card.error);
        }
        players := players[nick := Player(nick, card.value, NO_CLAIMS)];
      }
      r := Ok(players[nick]);
    }

    /** Takes the next number from the front of the pool into the history, or returns `None`
        once the pool is empty. The order of all 90 numbers never changes. */
    method DrawNumber() returns (r: Option<int>)
      requires Valid()
      modifies this
      ensures Valid()
      ensures drawnNumbers + drawPool == old(drawnNumbers + drawPool)
      ensures old(drawPool) == [] <==> r.None?
      ensures r.None? ==> drawPool == old(drawPool) && drawnNumbers == old(drawnNumbers) && lastDrawn == old(lastDrawn)
      ensures r.Some? ==>
        && r.value == old(drawPool)[0] && drawPool == old(drawPool)[1..]
        && drawnNumbers == old(drawnNumbers) + [r.value] && lastDrawn == r
      ensures status == old(status) && players == old(players) && seed == old(seed)
      ensures winners == old(winners) && timerId == old(timerId)
    {
      if |drawPool| == 0 {
        return None;
      }
      var number := drawPool[0];
      drawnNumbers := drawnNumbers + [number];
      drawPool := drawPool[1..];
      lastDrawn := Some(number);
      r := Some(number);
      assert old(drawnNumbers) + old(drawPool) == drawnNumbers + drawPool by {
        assert old(drawPool) == [number] + drawPool;
      }
    }

    /** `new Set(this.drawnNumbers)`. */
    function DrawnSet(): (s: set<int>)
      reads this
      ensures forall x :: x in s <==> x in drawnNumbers
    {
      set x | x in drawnNumbers
    }

    /** Checks `nick`'s card against the drawn numbers and awards the first open prize it achieves
        (see `ClaimOutcome`), recording the winner and the player's flag; tombala finishes the game.
        An unknown nick or a claim that wins nothing changes nothing. */
    method VerifyClaim(nick: string) returns (r: ClaimResult)
      requires Valid()
      modifies this
      ensures Valid()
      ensures nick !in old(players) ==>
        r == ClaimResult(false, None, None, NoCard(nick)) && winners == old(winners) && players == old(players)
      ensures nick in old(players) ==>
        var e := WinCheck.EvaluateCard(old(players)[nick].card, WinCheck.DrawnSet(old(DrawnSet())));
        && r.result == Some(e)
        && r.prize == ClaimOutcome(old(winners), e)
        && r.ok == r.prize.Some?
        && (r.prize.None? ==> r.message == NothingWon(nick) && winners == old(winners) && players == old(players))
        && (r.prize.Some? ==>
              && r.message == Won(nick, r.prize.value)
              && winners == Award(old(winners), r.prize.value, nick)
              && players == old(players)[nick := old(players)[nick].(claims := SetClaim(old(players)[nick].claims, r.prize.value))])
      ensures status == (if r.prize == Some(Tombala) then Finished else old(status))
      ensures drawPool == old(drawPool) && drawnNumbers == old(drawnNumbers) && lastDrawn == old(lastDrawn)
      ensures seed == old(seed) && timerId == old(timerId)
    {
      if nick !in players {
        return ClaimResult(false, None, None, NoCard(nick));
      }
      var player := players[nick];
      var result := WinCheck.EvaluateCard(player.card, WinCheck.DrawnSet(DrawnSet()));
      var prize := ClaimOutcome(winners, result);
      if prize.None? {
        return ClaimResult(false, None, Some(result), NothingWon(nick));
      }
      var p := prize.value;
      RecordWin(nick, p);
      r := ClaimResult(true, Some(p), Some(result), Won(nick, p));
    }

    /** The effect of a won claim: `nick` becomes the winner of `p`, the player's flag for `p` is
        set, and winning tombala finishes the game. */
    method RecordWin(nick: string, p: Prize)
      requires Valid() && nick in players
      modifies this
      ensures Valid()
      ensures winners == Award(old(winners), p, nick)
      ensures players == old(players)[nick := old(players)[nick].(claims := SetClaim(old(players)[nick].claims, p))]
      ensures status == (if p == Tombala then Finished else old(status))
      ensures drawPool == old(drawPool) && drawnNumbers == old(drawnNumbers) && lastDrawn == old(lastDrawn)
      ensures seed == old(seed) && timerId == old(timerId)
    {
      var player := players[nick];
      var players', winners' := players[nick := player.(claims := SetClaim(player.claims, p))], Award(winners, p, nick);
      AwardKeepsConsistent(players, winners, nick, p);
      winners, players, status := winners', players', if p == Tombala then Finished else status;
    }
  }

  /** In a consistent game the draw history never repeats a number and holds at most 90 numbers,
      so the drawn set has exactly as many members as there were draws. */
  lemma DrawnSetSize(g: TombalaGame)
    requires g.Valid()
    ensures |g.DrawnSet()| == |g.drawnNumbers| <= 90
  {
    HistoryDistinct(g.drawnNumbers, g.drawPool);
    DistinctSetSize(g.drawnNumbers);
  }

  lemma {:induction false} DistinctSetSize(s: seq<int>)
    requires Distinct(s)
    ensures |set x | x in s| == |s|
  {
    if s != [] {
      var rest := s[1..];
      assert Distinct(rest) by {
        forall p, q | 0 <= p < q < |rest| ensures rest[p] != rest[q] {
          assert rest[p] == s[p + 1] && rest[q] == s[q + 1];
        }
      }
      DistinctSetSize(rest);
      assert s[0] !in rest by {
        forall k | 0 <= k < |rest| ensures rest[k] != s[0] {
          assert rest[k] == s[k + 1];
        }
      }
      assert (set x | x in s) == (set x | x in rest) + {s[0]} by {
        assert s == [s[0]] + rest;
      }
    }
  }
}
