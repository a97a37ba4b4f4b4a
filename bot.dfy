/** bot/tombala-bot.js: the server-authoritative bot. Its games are plain records in a
    channel-keyed map that the message handler and `drawNumber` replace entry by entry. The
    `seedrandom` generator is a parameter (the partner indices it yields), operator status is a
    boolean input, and what the bot says or emits is returned as a list of outputs. */
module Bot {
  import opened Wrappers
  import opened Seqs
  import opened Cards
  import CommandParser
  import Game
  import TombalaLib

  /** A bot game is never idle: `newGame` opens it for registration. */
  datatype Status = Registering | Running | Finished

  /** A registered player: the nick as typed, and the card generated for it. */
  datatype Player = Player(nick: string, card: Card)

  /** The record `newGame` returns. */
  datatype BotGame = BotGame(
    status: Status,
    seed: string,
    drawPool: seq<int>,
    drawnNumbers: seq<int>,
    players: map<string, Player>,
    winners: Game.Winners,
    timer: Option<Game.TimerHandle>)

  // ----- cardResult -----

  /** `cardResult`'s result. */
  datatype CardResult = CardResult(cinko1: bool, cinko2: bool, tombala: bool)

  /** The number of rows whose numbers are all drawn. */
  function CompletedRows(card: Card, drawn: set<int>): nat
  {
    CountTrue(seq(|card|, r requires 0 <= r < |card| => TombalaLib.RowDrawn(card[r], drawn)))
  }

  /** `cardResult(card, drawnSet)`: çinko 1 once some row is fully drawn, çinko 2 once two rows
      are, tombala once every number of the card is drawn. */
  function CardResultOf(card: Card, drawn: set<int>): (res: CardResult)
    ensures res.cinko1 <==> exists r :: 0 <= r < |card| && TombalaLib.RowDrawn(card[r], drawn)
    ensures res.cinko2 <==> CompletedRows(card, drawn) >= 2
    ensures res.tombala <==> forall r :: 0 <= r < |card| ==> TombalaLib.RowDrawn(card[r], drawn)
    ensures res.cinko2 ==> res.cinko1
  {
    var complete := seq(|card|, r requires 0 <= r < |card| => TombalaLib.RowDrawn(card[r], drawn));
    CountTruePositive(complete);
    assert (exists k :: 0 <= k < |complete| && complete[k]) <==>
           exists r :: 0 <= r < |card| && TombalaLib.RowDrawn(card[r], drawn) by {
      if exists r :: 0 <= r < |card| && TombalaLib.RowDrawn(card[r], drawn) {
        var r :| 0 <= r < |card| && TombalaLib.RowDrawn(card[r], drawn);
        assert complete[r];
      }
    }
    TombalaLib.CardDrawnByRows(card, drawn);
    var completed := CompletedRows(card, drawn);
    CardResult(completed >= 1, completed >= 2, forall n :: n in CardNumbers(card) ==> n in drawn)
  }

  /** On a three-row card a tombala completes every row, so both çinkos hold with it. */
  lemma TombalaWithCinkos(card: Card, drawn: set<int>)
    requires |card| == CARD_ROWS
    ensures CardResultOf(card, drawn).tombala ==> CardResultOf(card, drawn).cinko1 && CardResultOf(card, drawn).cinko2
  {
    if CardResultOf(card, drawn).tombala {
      var complete := seq(|card|, r requires 0 <= r < |card| => TombalaLib.RowDrawn(card[r], drawn));
      CountTrueBound(complete);
    }
  }

  /** `cardResult` and `evaluateCard` of src/libs/tombala.js read a card alike: çinko 1 and 2
      are one and two complete rows, and the two tombala tests coincide. */
  lemma CardResultMatchesEvaluate(card: Card, drawnNumbers: seq<int>)
    ensures var res, e := CardResultOf(card, set n | n in drawnNumbers), TombalaLib.EvaluateCard(card, drawnNumbers);
      && (res.cinko1 <==> e.completedRows >= 1)
      && (res.cinko2 <==> e.completedRows >= 2)
      && (res.tombala <==> e.tombala)
  {
  }

  // ----- the claim order of `kazan` -----

  function Achieved(res: CardResult, p: Game.Prize): bool
  {
    match p
    case Cinko1 => res.cinko1
    case Cinko2 => res.cinko2
    case Tombala => res.tombala
  }

  /** The prize a `kazan` wins: the first prize, in the order tombala, çinko 2, çinko 1, whose
      slot is open and which the card achieves; none when there is no such prize. */
  function BotClaimOutcome(w: Game.Winners, res: CardResult): (r: Option<Game.Prize>)
    ensures r.Some? ==> Game.Open(Game.WinnerOf(w, r.value)) && Achieved(res, r.value)
    ensures r.Some? ==> forall q :: Game.Rank(q) > Game.Rank(r.value) ==>
      !(Game.Open(Game.WinnerOf(w, q)) && Achieved(res, q))
    ensures r.None? <==> forall q :: !(Game.Open(Game.WinnerOf(w, q)) && Achieved(res, q))
  {
    if res.tombala && Game.Open(w.tombala) then Some(Game.Tombala)
    else if res.cinko2 && Game.Open(w.cinko2) then Some(Game.Cinko2)
    else if res.cinko1 && Game.Open(w.cinko1) then Some(Game.Cinko1)
    else None
  }

  // ----- newGame -----

  /** The record `newGame(seed)` returns when the seeded generator yields the partners `js`. */
  function FreshGame(seed: string, js: seq<int>): BotGame
    requires IndicesFit(89, js)
  {
    BotGame(Registering, seed, SwapDown(Game.BuildDrawPool(), 89, js), [], map[], Game.NO_WINNERS, None)
  }

  /** A fresh game's pool holds each of 1..90 once: nothing drawn, everything still to come. */
  lemma FreshGamePool(seed: string, js: seq<int>)
    requires IndicesFit(89, js)
    ensures Game.PoolInvariant([], FreshGame(seed, js).drawPool)
    ensures Distinct(FreshGame(seed, js).drawPool)
    ensures forall x :: x in FreshGame(seed, js).drawPool <==> 1 <= x <= 90
  {
    ShuffledPool(js);
  }

  lemma ShuffledPool(js: seq<int>)
    requires IndicesFit(89, js)
    ensures var pool := SwapDown(Game.BuildDrawPool(), 89, js);
      && multiset([] + pool) == multiset(Game.BuildDrawPool())
      && Distinct(pool) && forall x :: x in pool <==> 1 <= x <= 90
  {
    var pool := SwapDown(Game.BuildDrawPool(), 89, js);
    SwapDownPermutes(Game.BuildDrawPool(), 89, js);
    assert [] + pool == pool;
    Game.HistoryDistinct([], pool);
    forall x | 1 <= x <= 90 ensures x in pool {
      assert Game.BuildDrawPool()[x - 1] == x;
      assert x in multiset(Game.BuildDrawPool());
    }
  }

  /** `newGame(seed)`: 1..90 shuffled in place by the descending Fisher–Yates pass, with
      `j = Math.floor(rng() * (i + 1))` taken from `js`; registering, nothing drawn, no players,
      no winners, no timer. */
  method NewGame(seed: string, js: seq<int>) returns (g: BotGame)
    requires IndicesFit(89, js)
    ensures g == FreshGame(seed, js)
  {
    var pool := new int[90](i => i + 1);
    ghost var start := pool[..];
    assert start == Game.BuildDrawPool();
    var i := 89;
    ghost var rest := js;
    while i > 0
      invariant 0 <= i <= 89 && rest == js[89 - i..] && IndicesFit(i, rest)
      invariant SwapDown(pool[..], i, rest) == SwapDown(start, 89, js)
    {
      var j := js[89 - i];
      SwapDownStep(pool[..], i, rest);
      SwapElements(pool, i, j);
      rest, i := rest[1..], i - 1;
    }
    g := BotGame(Registering, seed, pool[..], [], map[], Game.NO_WINNERS, None);
  }

  // ----- what the bot says and emits -----

  /** The lines `client.say` sends, by kind. */
  datatype Say =
    | Help
    | OperatorOnly(nick: string)
    | SessionOpened
    | NoActiveGame
    | SeedSet(seed: string)
    | SeedAutomatic
    | RegistrationClosed(nick: string)
    | Joined(nick: string, players: nat)
    | NeedPlayer
    | Started(intervalMs: int)
    | AllDrawn
    | StatusLine(status: Status, players: nat, drawn: nat, last: Option<int>)
    | JoinFirst(nick: string)
    | Won(nick: string, prize: Game.Prize)
    | NothingWon(nick: string)
    | Ended

  /** The payloads `emitEvent` sends. */
  datatype Event =
    | Reset
    | State(status: Status, drawnNumbers: seq<int>, winners: Game.WinnerLists)
    | Draw(number: int)
    | CardDealt(nick: string, card: Card)

  datatype Output = Said(line: Say) | Emitted(event: Event)

  /** `publishState` for a channel that has the game `g`. */
  function StateOf(g: BotGame): Event
  {
    State(g.status, g.drawnNumbers, Game.ListWinners(g.winners))
  }

  /** `game.drawnNumbers[game.drawnNumbers.length - 1] || '-'`. */
  function LastShown(drawn: seq<int>): (r: Option<int>)
    ensures r.Some? ==> drawn != [] && r.value == drawn[|drawn| - 1] && r.value != 0
    ensures r.None? ==> drawn == [] || drawn[|drawn| - 1] == 0
  {
    if drawn == [] || drawn[|drawn| - 1] == 0 then None else Some(drawn[|drawn| - 1])
  }

  // ----- routing a line -----

  /** What the handler makes of a line in a joined channel. */
  datatype Line = Ignored | Addressed(cmd: Option<CommandParser.Command>, parts: seq<string>)

  /** The trimmed line must start with the prefix, in this case exactly; the second token,
      lower-cased, names the command (`yardim` when there is none). */
  function Route(message: string): (l: Line)
    ensures l.Ignored? <==> !CommandParser.StartsWith(CommandParser.Trim(message), CommandParser.PREFIX)
    ensures l.Addressed? ==> l.parts == CommandParser.Split(CommandParser.Trim(message))
    ensures l.Addressed? && (|l.parts| < 2 || l.parts[1] == "") ==> l.cmd == Some(CommandParser.Yardim)
    ensures l.Addressed? && |l.parts| >= 2 && l.parts[1] != "" ==>
      forall c :: l.cmd == Some(c) <==> CommandParser.Name(c) == CommandParser.Lower(l.parts[1])
  {
    var text := CommandParser.Trim(message);
    if !CommandParser.StartsWith(text, CommandParser.PREFIX) then Ignored
    else
      var parts := CommandParser.Split(text);
      if |parts| < 2 || parts[1] == "" then Addressed(Some(CommandParser.Yardim), parts)
      else
        CommandParser.LookupAliasExact(CommandParser.Lower(parts[1]));
        Addressed(CommandParser.LookupAlias(CommandParser.Lower(parts[1])), parts)
  }

  /** `baslat`, `basla`, `bitir`, `seed` and `cek` are for channel operators only. */
  predicate Restricted(cmd: CommandParser.Command)
  {
    cmd == CommandParser.Baslat || cmd == CommandParser.Basla || cmd == CommandParser.Bitir
    || cmd == CommandParser.Seed || cmd == CommandParser.Cek
  }

  // ----- the consistency of a game -----

  /** Players are stored under their lower-cased nick with a well-formed card, every winner is
      one of them, and the drawn numbers followed by the pool are 1..90, each once. */
  ghost predicate Consistent(g: BotGame)
  {
    && Game.PoolInvariant(g.drawnNumbers, g.drawPool)
    && (forall k :: k in g.players ==>
          k == CommandParser.Lower(g.players[k].nick) && WellFormedCard(g.players[k].card, TombalaLib.ColumnRanges()))
    && (forall p :: Game.WinnerOf(g.winners, p).Some? ==>
          CommandParser.Lower(Game.WinnerOf(g.winners, p).value) in g.players)
  }

  /** The pool of a consistent game never holds 0, so `!n` after `shift()` means the pool was empty. */
  lemma PoolHasNoZero(g: BotGame)
    requires Consistent(g)
    ensures g.drawPool != [] ==> g.drawPool[0] != 0
  {
    Game.HistoryDistinct(g.drawnNumbers, g.drawPool);
    if g.drawPool != [] {
      assert g.drawPool[0] in g.drawPool;
    }
  }

  /** A draw moves the front of the pool to the end of the history, keeping it consistent. */
  lemma DrawKeepsConsistent(g: BotGame)
    requires Consistent(g) && g.drawPool != []
    ensures Consistent(g.(drawPool := g.drawPool[1..], drawnNumbers := g.drawnNumbers + [g.drawPool[0]]))
  {
    assert (g.drawnNumbers + [g.drawPool[0]]) + g.drawPool[1..] == g.drawnNumbers + g.drawPool;
  }

  /** A fresh game is consistent. */
  lemma FreshGameConsistent(seed: string, js: seq<int>)
    requires IndicesFit(89, js)
    ensures Consistent(FreshGame(seed, js))
  {
    FreshPoolInvariant(js);
  }

  /** A fresh game that takes over a consistent game's players and status, as `seed` makes
      it, is consistent. */
  lemma ReseededConsistent(seed: string, js: seq<int>, g: BotGame)
    requires IndicesFit(89, js) && Consistent(g)
    ensures Consistent(FreshGame(seed, js).(players := g.players, status := g.status))
  {
    FreshPoolInvariant(js);
  }

  /** The shuffled pool satisfies the pool invariant with nothing drawn. */
  lemma FreshPoolInvariant(js: seq<int>)
    requires IndicesFit(89, js)
    ensures Game.PoolInvariant([], SwapDown(Game.BuildDrawPool(), 89, js))
  {
    var pool := SwapDown(Game.BuildDrawPool(), 89, js);
    SwapDownPermutes(Game.BuildDrawPool(), 89, js);
    assert [] + pool == pool;
  }

  /** Games only for the served channels, each consistent. */
  ghost predicate Serves(games: map<string, BotGame>, channels: seq<string>)
  {
    forall c :: c in games ==> c in channels && Consistent(games[c])
  }

  lemma ServesUpdate(games: map<string, BotGame>, channels: seq<string>, channel: string, g: BotGame)
    requires Serves(games, channels) && channel in channels && Consistent(g)
    ensures Serves(games[channel := g], channels)
  {
  }

  /** A join adds a player under its lower-cased nick with a well-formed card. */
  lemma JoinKeepsConsistent(g: BotGame, key: string, p: Player)
    requires Consistent(g) && key == CommandParser.Lower(p.nick)
    requires WellFormedCard(p.card, TombalaLib.ColumnRanges())
    ensures Consistent(g.(players := g.players[key := p]))
  {
  }

  /** `after` is `before` with one more player, stored under `key` with the nick as typed. */
  predicate Enrolled(before: BotGame, after: BotGame, key: string, nick: string)
  {
    && key in after.players
    && after.players == before.players[key := after.players[key]]
    && after.players[key].nick == nick
    && after == before.(players := after.players)
  }

  /** A prize awarded to a registered nick keeps the game consistent, whatever its status
      and timer become. */
  lemma AwardKeepsConsistent(g: BotGame, p: Game.Prize, nick: string)
    requires Consistent(g) && CommandParser.Lower(nick) in g.players
    ensures forall s, t :: Consistent(g.(winners := Game.Award(g.winners, p, nick), status := s, timer := t))
  {
  }

  class TombalaBot {
    /** `CHANNELS`: the channels the bot serves. */
    const channels: seq<string>
    /** `INTERVAL_MS`. */
    const intervalMs: int
    /** The module-level `games` map. */
    var games: map<string, BotGame>

    ghost predicate Valid()
      reads this
    {
      Serves(games, channels)
    }

    constructor (channels: seq<string>, intervalMs: int)
      ensures Valid() && games == map[]
      ensures this.channels == channels && this.intervalMs == intervalMs
    {
      this.channels := channels;
      this.intervalMs := intervalMs;
      games := map[];
    }

    /** No channel but `channel` gained, lost or changed its game. */
    twostate predicate OnlyChannel(channel: string)
      reads this
    {
      forall c :: c != channel ==> (c in games <==> c in old(games)) && (c in games ==> games[c] == old(games[c]))
    }

    /** `drawNumber(client, channel)`: nothing unless the channel's game runs; then the front of
        the pool is drawn and announced, or, with the pool empty, the game finishes. */
    method DrawNumber(channel: string) returns (sent: seq<Output>)
      requires Valid()
      modifies this
      ensures Valid() && OnlyChannel(channel)
      ensures channel !in old(games) || old(games[channel]).status != Running ==> games == old(games) && sent == []
      ensures channel in old(games) && old(games[channel]).status == Running ==>
        var g := old(games[channel]);
        && channel in games
        && (g.drawPool == [] ==>
              games[channel] == g.(status := Finished)
              && sent == [Said(AllDrawn), Emitted(StateOf(games[channel]))])
        && (g.drawPool != [] ==>
              games[channel] == g.(drawPool := g.drawPool[1..], drawnNumbers := g.drawnNumbers + [g.drawPool[0]])
              && sent == [Emitted(Draw(g.drawPool[0])), Emitted(StateOf(games[channel]))])
    {
      if channel !in games || games[channel].status != Running {
        return [];
      }
      var g := games[channel];
      PoolHasNoZero(g);
      var n := if g.drawPool == [] then 0 else g.drawPool[0];
      var rest := if g.drawPool == [] then [] else g.drawPool[1..];
      if n == 0 {
        var done := g.(status := Finished, drawPool := rest);
        ServesUpdate(games, channels, channel, done);
        games := games[channel := done];
        return [Said(AllDrawn), Emitted(StateOf(done))];
      }
      DrawKeepsConsistent(g);
      var next := g.(drawPool := rest, drawnNumbers := g.drawnNumbers + [n]);
      ServesUpdate(games, channels, channel, next);
      games := games[channel := next];
      sent := [Emitted(Draw(n)), Emitted(StateOf(next))];
    }

    /** `baslat`: a new game, seeded from the channel and the clock, replaces the channel's. */
    method Baslat(channel: string, autoSeed: string, js: seq<int>) returns (sent: seq<Output>)
      requires Valid() && channel in channels && IndicesFit(89, js)
      modifies this
      ensures Valid() && OnlyChannel(channel)
      ensures channel in games && games[channel] == FreshGame(autoSeed, js)
      ensures sent == [Said(SessionOpened), Emitted(StateOf(games[channel]))]
    {
      var g := NewGame(autoSeed, js);
      FreshGameConsistent(autoSeed, js);
      ServesUpdate(games, channels, channel, g);
      games := games[channel := g];
      sent := [Said(SessionOpened), Emitted(StateOf(g))];
    }

    /** `seed`: a new game for the given seed (or the clock's when it is empty) takes over the
        old game's players and status; its draws, winners and timer start afresh. */
    method SeedCmd(channel: string, rest: seq<string>, autoSeed: string, js: seq<int>) returns (sent: seq<Output>)
      requires Valid() && channel in games && IndicesFit(89, js)
      modifies this
      ensures Valid() && OnlyChannel(channel) && channel in games
      ensures var seed := CommandParser.Trim(CommandParser.Join(rest, " "));
        var reseeded := FreshGame(if seed == "" then autoSeed else seed, js);
        && games[channel] == reseeded.(players := old(games[channel]).players, status := old(games[channel]).status)
        && sent == [Said(if seed == "" then SeedAutomatic else SeedSet(seed)), Emitted(StateOf(games[channel]))]
    {
      var seed := CommandParser.Trim(CommandParser.Join(rest, " "));
      var replacement := NewGame(if seed == "" then autoSeed else seed, js);
      ReseededConsistent(if seed == "" then autoSeed else seed, js, games[channel]);
      replacement := replacement.(players := games[channel].players, status := games[channel].status);
      ServesUpdate(games, channels, channel, replacement);
      games := games[channel := replacement];
      sent := [Said(if seed == "" then SeedAutomatic else SeedSet(seed)), Emitted(StateOf(replacement))];
    }

    /** `katil`: only while registering. A nick not yet registered under its lower case gets
        the card generated for `channel:nick`; an existing player is kept as it is. */
    method Katil(channel: string, nick: string) returns (sent: seq<Output>)
      requires Valid() && channel in games
      modifies this
      ensures Valid() && OnlyChannel(channel) && channel in games
      ensures var g, key := old(games[channel]), CommandParser.Lower(nick);
        && (g.status != Registering ==> games == old(games) && sent == [Said(RegistrationClosed(nick))])
        && (g.status == Registering && key in g.players ==>
              games == old(games)
              && sent == [Emitted(CardDealt(g.players[key].nick, g.players[key].card)),
                          Said(Joined(nick, |g.players|)), Emitted(StateOf(g))])
        && (g.status == Registering && key !in g.players ==>
              (games == old(games) && sent == [])
              || (Enrolled(g, games[channel], key, nick)
                  && sent == [Emitted(CardDealt(nick, games[channel].players[key].card)),
                              Said(Joined(nick, |games[channel].players|)), Emitted(StateOf(games[channel]))]))
    {
      var g := games[channel];
      if g.status != Registering {
        return [Said(RegistrationClosed(nick))];
      }
      var key := CommandParser.Lower(nick);
      if key !in g.players {
        var ok := Enrol(channel, nick);
        if !ok {
          return [];
        }
        g := games[channel];
      }
      var player := g.players[key];
      sent := [Emitted(CardDealt(player.nick, player.card)), Said(Joined(nick, |g.players|)), Emitted(StateOf(g))];
    }

    /** The new player of a `katil`: the card generated for `channel:nick`, stored under the
        lower-cased nick. Card generation that gives up leaves the game as it was. */
    method Enrol(channel: string, nick: string) returns (ok: bool)
      requires Valid() && channel in games && CommandParser.Lower(nick) !in games[channel].players
      modifies this
      ensures Valid() && OnlyChannel(channel) && channel in games
      ensures !ok ==> games == old(games)
      ensures ok ==> Enrolled(old(games[channel]), games[channel], CommandParser.Lower(nick), nick)
    {
      var g := games[channel];
      var key := CommandParser.Lower(nick);
      var card := TombalaLib.GenerateCard(channel + ":" + nick);
      if card.None? {
        return false;
      }
      JoinKeepsConsistent(g, key, Player(nick, card.value));
      g := g.(players := g.players[key := Player(nick, card.value)]);
      ServesUpdate(games, channels, channel, g);
      games := games[channel := g];
      ok := true;
    }

    /** `basla`: with at least one player the game runs, from whatever status, under a new
        interval that replaces any old one. */
    method Basla(channel: string, timer: Game.TimerHandle) returns (sent: seq<Output>)
      requires Valid() && channel in games
      modifies this
      ensures Valid() && OnlyChannel(channel) && channel in games
      ensures old(games[channel]).players == map[] ==> games == old(games) && sent == [Said(NeedPlayer)]
      ensures old(games[channel]).players != map[] ==>
        && games[channel] == old(games[channel]).(status := Running, timer := Some(timer))
        && sent == [Said(Started(intervalMs)), Emitted(StateOf(games[channel]))]
    {
      var g := games[channel];
      if g.players == map[] {
        return [Said(NeedPlayer)];
      }
      g := g.(status := Running, timer := Some(timer));
      ServesUpdate(games, channels, channel, g);
      games := games[channel := g];
      sent := [Said(Started(intervalMs)), Emitted(StateOf(g))];
    }

    /** `durum`: status, players, draws and the last number drawn. */
    method Durum(channel: string) returns (sent: seq<Output>)
      requires Valid() && channel in games
      ensures var g := games[channel];
        sent == [Said(StatusLine(g.status, |g.players|, |g.drawnNumbers|, LastShown(g.drawnNumbers)))]
    {
      var g := games[channel];
      sent := [Said(StatusLine(g.status, |g.players|, |g.drawnNumbers|, LastShown(g.drawnNumbers)))];
    }

    /** `kazan`: an unregistered nick is told to join; otherwise the card is read against the
        drawn numbers and the first open prize in the order tombala, çinko 2, çinko 1 is awarded
        to the nick. A tombala finishes the game and clears its timer. */
    method Kazan(channel: string, nick: string) returns (sent: seq<Output>)
      requires Valid() && channel in games
      modifies this
      ensures Valid() && OnlyChannel(channel) && channel in games
      ensures var g, key := old(games[channel]), CommandParser.Lower(nick);
        && (key !in g.players ==> games == old(games) && sent == [Said(JoinFirst(nick))])
        && (key in g.players ==>
              var prize := BotClaimOutcome(g.winners, CardResultOf(g.players[key].card, set n | n in g.drawnNumbers));
              && (prize.None? ==> games == old(games) && sent == [Said(NothingWon(nick))])
              && (prize == Some(Game.Tombala) ==>
                    games[channel] == g.(winners := Game.Award(g.winners, Game.Tombala, nick), status := Finished, timer := None))
              && (prize.Some? && prize != Some(Game.Tombala) ==>
                    games[channel] == g.(winners := Game.Award(g.winners, prize.value, nick)))
              && (prize.Some? ==> sent == [Said(Won(nick, prize.value)), Emitted(StateOf(games[channel]))]))
    {
      var g := games[channel];
      var key := CommandParser.Lower(nick);
      if key !in g.players {
        return [Said(JoinFirst(nick))];
      }
      var res := CardResultOf(g.players[key].card, set n | n in g.drawnNumbers);
      var prize := BotClaimOutcome(g.winners, res);
      if prize.None? {
        return [Said(NothingWon(nick))];
      }
      AwardKeepsConsistent(g, prize.value, nick);
      g := g.(winners := Game.Award(g.winners, prize.value, nick));
      if prize.value == Game.Tombala {
        g := g.(status := Finished, timer := None);
      }
      ServesUpdate(games, channels, channel, g);
      games := games[channel := g];
      sent := [Said(Won(nick, prize.value)), Emitted(StateOf(g))];
    }

    /** `bitir`: the channel's game is removed. */
    method Bitir(channel: string) returns (sent: seq<Output>)
      requires Valid() && channel in games
      modifies this
      ensures Valid() && OnlyChannel(channel)
      ensures channel !in games && sent == [Said(Ended), Emitted(Reset)]
    {
      games := map c | c in games && c != channel :: games[c];
      sent := [Said(Ended), Emitted(Reset)];
    }

    /** The `message` handler: lines outside the served channels or without the prefix are
        ignored; `yardim` answers with the help line; the five restricted commands need an
        operator; `baslat` opens a game; every other command needs the channel's game, and an
        unknown command then does nothing. `autoSeed` is `${channel}:${Date.now()}`, `js` the
        partners `seedrandom` yields for the seed in use, and `timer` the new interval's handle. */
    method HandleMessage(channel: string, nick: string, message: string, isOperator: bool,
                         autoSeed: string, js: seq<int>, timer: Game.TimerHandle) returns (sent: seq<Output>)
      requires Valid() && IndicesFit(89, js)
      modifies this
      ensures Valid() && OnlyChannel(channel)
      ensures channel !in channels || Route(message).Ignored? ==> games == old(games) && sent == []
      ensures channel in channels && Route(message).Addressed? ==>
        var cmd := Route(message).cmd;
        && (cmd == Some(CommandParser.Yardim) ==> games == old(games) && sent == [Said(Help)])
        && (cmd.Some? && Restricted(cmd.value) && !isOperator ==>
              games == old(games) && sent == [Said(OperatorOnly(nick))])
        && (cmd == Some(CommandParser.Baslat) && isOperator ==>
              channel in games && games[channel] == FreshGame(autoSeed, js))
        && (cmd != Some(CommandParser.Yardim) && cmd != Some(CommandParser.Baslat) && channel !in old(games)
            && (cmd.None? || !Restricted(cmd.value) || isOperator) ==>
              games == old(games) && sent == [Said(NoActiveGame)])
        && (cmd.None? && channel in old(games) ==> games == old(games) && sent == [])
        && (cmd == Some(CommandParser.Bitir) && isOperator && channel in old(games) ==> channel !in games)
    {
      var line := Route(message);
      if channel !in channels || line.Ignored? {
        return [];
      }
      var cmd := line.cmd;
      if cmd == Some(CommandParser.Yardim) {
        return [Said(Help)];
      }
      if cmd.Some? && Restricted(cmd.value) && !isOperator {
        return [Said(OperatorOnly(nick))];
      }
      if cmd == Some(CommandParser.Baslat) {
        sent := Baslat(channel, autoSeed, js);
        return;
      }
      if channel !in games {
        return [Said(NoActiveGame)];
      }
      match cmd
      case None =>
        sent := [];
      case Some(c) =>
        match c
        case Seed => sent := SeedCmd(channel, line.parts[2..], autoSeed, js);
        case Katil => sent := Katil(channel, nick);
        case Basla => sent := Basla(channel, timer);
        case Cek => sent := DrawNumber(channel);
        case Durum => sent := Durum(channel);
        case Kazan => sent := Kazan(channel, nick);
        case Bitir => sent := Bitir(channel);
        case _ => sent := [];
    }
  }
}
