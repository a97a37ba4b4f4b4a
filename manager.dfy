/** src/libs/TombalaManager.js: one game per channel, and the routing of parsed `!tombala`
    commands to the channel's game. What the source sends through `reply` and `announceDraw`
    is appended to an output log; the handle `setInterval` returns is an input. */
module Manager {
  import opened Wrappers
  import opened Cards
  import CommandParser
  import Game
  import WinCheck
  import TombalaCard

  const DEFAULT_INTERVAL_MS: int := 30000

  /** `Number(options.drawIntervalMs)`: `NaN` for a missing or non-numeric option. */
  datatype IntervalOption = NotANumber | Number(n: int)

  /** The texts the manager replies with, by kind. */
  datatype Message =
    | OperatorOnly
    | Help(text: string)
    | SessionOpened
    | OpenFirst
    | Joined(nick: string, players: nat)
    | SeedUsage
    | SeedSet(seed: string)
    | RegistrationFirst
    | NeedPlayer
    | Started(intervalMs: int)
    | RunningRequired
    | AllDrawn
    | StatusLine(status: Game.Status, players: nat, drawn: nat, last: Option<int>)
    | NoGame
    | ClaimReply(message: Game.ClaimMessage)
    | Ended

  /** A `reply(...)` or an `announceDraw(...)`. */
  datatype Output = Reply(msg: Message) | Announce(number: int)

  /** What `handleMessage` does with a line: returns `false`, returns `true`, or lets the error
      of a failed card generation escape. */
  datatype Outcome = NotACommand | Handled | Threw(error: TombalaCard.CardError)

  /** `baslat`, `basla`, `bitir` and `seed` are for channel operators only. */
  predicate Restricted(cmd: CommandParser.Command)
  {
    cmd == CommandParser.Baslat || cmd == CommandParser.Basla || cmd == CommandParser.Bitir
    || cmd == CommandParser.Seed
  }

  /** `getUiState`'s result. */
  datatype UiState = UiState(
    status: Game.Status,
    hasCard: bool,
    card: Card,
    markedNumbers: seq<int>,
    marks: seq<seq<bool>>,
    drawnNumbers: seq<int>,
    winners: Game.WinnerLists)

  /** The projection `getUiState` builds once it has the game and the player. */
  function UiView(status: Game.Status, players: map<string, Game.Player>, drawn: seq<int>,
                  w: Game.Winners, nick: string): (ui: UiState)
    ensures ui.status == status && ui.drawnNumbers == drawn
    ensures ui.hasCard <==> nick in players
    ensures nick in players ==> ui.card == players[nick].card
    ensures nick !in players ==> ui.card == TombalaCard.CreateEmptyCard() && ui.markedNumbers == [] && ui.marks == []
    ensures nick in players ==>
      forall x :: x in ui.markedNumbers <==> x in CardNumbers(ui.card) && x in drawn
    ensures nick in players ==> ui.marks == WinCheck.AutoMarkCard(ui.card, WinCheck.DrawnList(drawn))
    ensures |ui.winners.cinko1| <= 1 && |ui.winners.cinko2| <= 1 && |ui.winners.tombala| <= 1
    ensures ui.winners == Game.ListWinners(w)
  {
    var hasCard := nick in players;
    var card := if hasCard then players[nick].card else TombalaCard.CreateEmptyCard();
    UiState(status, hasCard, card,
      if hasCard then DrawnOf(CardNumbers(card), set x | x in drawn) else [],
      if hasCard then WinCheck.AutoMarkCard(card, WinCheck.DrawnList(drawn)) else [],
      drawn,
      Game.ListWinners(w))
  }

  /** Why `getUiState` as written fails: the game has no `getPlayer` method. */
  datatype UiError = GetPlayerIsNotAFunction

  /** The state of a game as `new TombalaGame(channel)` leaves it, with status `status`. */
  ghost predicate NewGame(g: Game.TombalaGame, channel: string, status: Game.Status)
    reads g, g.rng
  {
    && g.Valid() && g.channelName == channel && g.status == status && g.players == map[]
    && g.drawPool == Game.BuildDrawPool() && g.drawnNumbers == [] && g.lastDrawn == None
    && g.seed == "" && g.winners == Game.NO_WINNERS && g.timerId == None
  }

  /** `new TombalaGame(channel, channel)` whose status is then set to `'registering'`. */
  method NewSession(channel: string) returns (g: Game.TombalaGame)
    ensures fresh(g) && fresh(g.rng) && NewGame(g, channel, Game.Registering)
  {
    g := new Game.TombalaGame(channel);
    g.SetStatus(Game.Registering);
  }

  class TombalaManager {
    var games: map<string, Game.TombalaGame>
    const intervalMs: int
    const singleWinnerPerStage: bool

    /** The games and their generators. */
    ghost function Objects(): set<object>
      reads this
    {
      (set c | c in games :: games[c] as object) + (set c | c in games :: games[c].rng as object)
    }

    /** The objects the channel's game consists of. */
    ghost function ChannelObjects(channel: string): set<object>
      reads this
    {
      if channel in games then {games[channel], games[channel].rng} else {}
    }

    /** Every game is consistent and named after its channel, and no two channels share a game
        or a generator. */
    ghost predicate Valid()
      reads this, Objects()
    {
      && (forall c :: c in games ==> games[c].channelName == c && games[c].Valid())
      && (forall c, d :: c in games && d in games && c != d ==>
            games[c] != games[d] && games[c].rng != games[d].rng)
    }

    /** No channel but `channel` gained, lost or changed its game. */
    twostate predicate OnlyChannel(channel: string)
      reads this
    {
      forall c :: c != channel ==> (c in games <==> c in old(games)) && (c in games ==> games[c] == old(games[c]))
    }

    /** `intervalMs` falls back to 30000 for a missing, zero or non-numeric option;
        `singleWinnerPerStage` holds unless the option is `false`. */
    constructor (interval: IntervalOption, singleWinner: Option<bool>)
      ensures Valid() && games == map[]
      ensures intervalMs == (if interval.Number? && interval.n != 0 then interval.n else DEFAULT_INTERVAL_MS)
      ensures intervalMs != 0
      ensures singleWinnerPerStage <==> singleWinner != Some(false)
    {
      games := map[];
      intervalMs := if interval.Number? && interval.n != 0 then interval.n else DEFAULT_INTERVAL_MS;
      singleWinnerPerStage := singleWinner != Some(false);
    }

    /** The channel's game, created idle when the channel has none; other channels keep theirs. */
    method GetOrCreate(channel: string) returns (g: Game.TombalaGame)
      requires Valid()
      modifies this
      ensures Valid() && channel in games && g == games[channel]
      ensures channel in old(games) ==> games == old(games)
      ensures channel !in old(games) ==> games == old(games)[channel := g] && fresh(g) && fresh(g.rng) && NewGame(g, channel, Game.Idle)
    {
      if channel !in games {
        var created := new Game.TombalaGame(channel);
        games := games[channel := created];
      }
      g := games[channel];
    }

    /** `stopTimer`: clears the game's timer handle; the rest of the game is untouched. */
    method StopTimer(g: Game.TombalaGame)
      modifies g
      ensures g.timerId == None && g.status == old(g.status) && g.Kept()
      ensures old(g.Valid()) ==> g.Valid()
    {
      if g.timerId.Some? {
        g.SetTimer(None);
      }
    }

    /** `endGame`: the channel's game, created if need be, loses its timer and is finished. */
    method EndGame(channel: string)
      requires Valid()
      modifies this, ChannelObjects(channel)
      ensures Valid() && channel in games
      ensures channel in old(games) ==> games == old(games) && old(games[channel]).Kept()
      ensures channel !in old(games) ==> games.Keys == old(games.Keys) + {channel} && fresh(games[channel])
      ensures forall c :: c in old(games) ==> c in games && games[c] == old(games[c])
      ensures games[channel].status == Game.Finished && games[channel].timerId == None
    {
      var g := GetOrCreate(channel);
      Finish(channel);
    }

    /** `stopTimer(game)` followed by `game.status = 'finished'` on the channel's game. */
    method Finish(channel: string)
      requires Valid() && channel in games
      modifies games[channel]
      ensures Valid()
      ensures games[channel].status == Game.Finished && games[channel].timerId == None
      ensures games[channel].Kept()
    {
      var g := games[channel];
      StopTimer(g);
      g.SetStatus(Game.Finished);
    }

    /** `this.games.set(channel, new TombalaGame(channel, channel))` followed by
        `status = 'registering'`: a fresh game takes the channel's place. */
    method Replace(channel: string)
      requires Valid() && channel in games
      modifies this
      ensures Valid() && channel in games && OnlyChannel(channel)
      ensures fresh(games[channel]) && fresh(games[channel].rng) && NewGame(games[channel], channel, Game.Registering)
    {
      var created := NewSession(channel);
      ghost var before := games;
      games := games[channel := created];
      forall c | c in games
        ensures games[c].channelName == c && games[c].Valid()
      {
        if c != channel {
          assert games[c] == before[c];
        }
      }
    }

    /** `registerPlayer(nick)` on the channel's game. */
    method Register(channel: string, nick: string) returns (r: Result<Game.Player, TombalaCard.CardError>)
      requires Valid() && channel in games
      modifies games[channel], games[channel].rng
      ensures Valid()
      ensures var g := games[channel];
        && (nick in old(g.players) ==> r == Ok(old(g.players)[nick]) && g.players == old(g.players))
        && (nick !in old(g.players) && r.Ok? ==>
              g.players == old(g.players)[nick := r.value] && r.value.nick == nick
              && r.value.claims == Game.NO_CLAIMS && Game.IssuedCard(r.value.card))
        && (r.Err? ==> g.players == old(g.players))
        && g.status == old(g.status) && g.timerId == old(g.timerId)
        && g.drawnNumbers == old(g.drawnNumbers) && g.winners == old(g.winners)
    {
      r := games[channel].RegisterPlayer(nick);
    }

    /** `setSeed(seed)` on the channel's game. */
    method Reseed(channel: string, seed: string)
      requires Valid() && channel in games
      modifies games[channel], games[channel].rng
      ensures Valid()
      ensures var g := games[channel];
        && g.seed == seed && Game.PoolInvariant([], g.drawPool) && g.drawnNumbers == [] && g.lastDrawn == None
        && g.status == old(g.status) && g.players == old(g.players) && g.winners == old(g.winners)
        && g.timerId == old(g.timerId)
    {
      games[channel].SetSeed(seed);
    }

    /** `status = 'running'`, and the interval handle when the game has none yet. */
    method Start(channel: string, timer: Game.TimerHandle)
      requires Valid() && channel in games
      modifies games[channel]
      ensures Valid()
      ensures var g := games[channel];
        && g.status == Game.Running && g.Kept()
        && g.timerId == (if old(g.timerId).None? then Some(timer) else old(g.timerId))
    {
      var g := games[channel];
      g.SetStatus(Game.Running);
      if g.timerId.None? {
        g.SetTimer(Some(timer));
      }
    }

    /** `drawNumber()` on the channel's game. */
    method Draw(channel: string) returns (r: Option<int>)
      requires Valid() && channel in games
      modifies games[channel]
      ensures Valid()
      ensures var g := games[channel];
        && (old(g.drawPool) == [] <==> r.None?)
        && (r.None? ==> g.Same())
        && (r.Some? ==>
              && r.value == old(g.drawPool)[0] && g.drawnNumbers == old(g.drawnNumbers) + [r.value]
              && g.drawPool == old(g.drawPool)[1..] && g.lastDrawn == r
              && g.status == old(g.status) && g.players == old(g.players) && g.winners == old(g.winners)
              && g.seed == old(g.seed) && g.timerId == old(g.timerId))
    {
      r := games[channel].DrawNumber();
    }

    /** The claim `r` of `nick` on the channel's game was judged on the card and the draws held
        before it: no card, nothing new, or the first open prize the card achieves, which is then
        awarded to `nick`. */
    twostate predicate Claimed(channel: string, nick: string, r: Game.ClaimResult)
      requires channel in games && channel in old(games)
      reads this, games[channel]
    {
      var players, w := old(games[channel].players), old(games[channel].winners);
      && (nick !in players ==>
            r.message == Game.NoCard(nick) && !r.ok && r.prize.None? && games[channel].winners == w)
      && (nick in players ==>
            var e := WinCheck.EvaluateCard(players[nick].card, WinCheck.DrawnSet(old(games[channel].DrawnSet())));
            && r.prize == Game.ClaimOutcome(w, e) && r.ok == r.prize.Some?
            && (r.prize.Some? ==>
                  r.message == Game.Won(nick, r.prize.value) && games[channel].winners == Game.Award(w, r.prize.value, nick))
            && (r.prize.None? ==> r.message == Game.NothingWon(nick) && games[channel].winners == w))
    }

    /** `verifyClaim(nick)` on the channel's game. */
    method Claim(channel: string, nick: string) returns (r: Game.ClaimResult)
      requires Valid() && channel in games
      modifies games[channel]
      ensures Valid() && Claimed(channel, nick, r)
      ensures games[channel].status == (if r.prize == Some(Game.Tombala) then Game.Finished else old(games[channel].status))
      ensures games[channel].timerId == old(games[channel].timerId)
      ensures games[channel].drawnNumbers == old(games[channel].drawnNumbers)
    {
      r := games[channel].VerifyClaim(nick);
    }

    /** `baslat`: the old game's timer is stopped and a fresh game, open for registration,
        takes the channel. */
    method Baslat(channel: string) returns (sent: seq<Output>)
      requires Valid() && channel in games
      modifies this, games[channel]
      ensures Valid() && channel in games && OnlyChannel(channel)
      ensures old(games[channel]).timerId == None
      ensures fresh(games[channel]) && NewGame(games[channel], channel, Game.Registering)
      ensures sent == [Reply(SessionOpened)]
    {
      StopTimer(games[channel]);
      Replace(channel);
      sent := [Reply(SessionOpened)];
    }

    /** `katil`: refused while the game is idle or finished; otherwise the nick joins. */
    method Katil(channel: string, nick: string) returns (out: Outcome, sent: seq<Output>)
      requires Valid() && channel in games
      modifies games[channel], games[channel].rng
      ensures Valid()
      ensures old(games[channel].status) in {Game.Idle, Game.Finished} ==>
        out == Handled && games[channel].Same() && sent == [Reply(OpenFirst)]
      ensures old(games[channel].status) !in {Game.Idle, Game.Finished} ==> Joins(channel, nick, out, sent)
    {
      if games[channel].status == Game.Idle || games[channel].status == Game.Finished {
        return Handled, [Reply(OpenFirst)];
      }
      out, sent := Join(channel, nick);
    }

    /** The nick is registered once and the reply counts the players; a failed card generation
        escapes with no reply and registers nobody. Nothing else in the game changes. */
    twostate predicate Joins(channel: string, nick: string, out: Outcome, sent: seq<Output>)
      requires channel in games && channel in old(games)
      reads this, games[channel]
    {
      var g, before := games[channel], old(games[channel].players);
      && (out == Handled ==>
            && nick in g.players && g.players == before[nick := g.players[nick]]
            && (nick in before ==> g.players == before)
            && (nick !in before ==> g.players[nick].claims == Game.NO_CLAIMS && Game.IssuedCard(g.players[nick].card))
            && sent == [Reply(Joined(nick, |g.players|))])
      && (out != Handled ==> out.Threw? && sent == [] && nick !in before && g.players == before)
      && g.status == old(games[channel].status) && g.timerId == old(games[channel].timerId)
      && g.drawnNumbers == old(games[channel].drawnNumbers) && g.winners == old(games[channel].winners)
    }

    /** `registerPlayer(nick)` and the reply with the player count. */
    method Join(channel: string, nick: string) returns (out: Outcome, sent: seq<Output>)
      requires Valid() && channel in games
      modifies games[channel], games[channel].rng
      ensures Valid() && Joins(channel, nick, out, sent)
    {
      var r := Register(channel, nick);
      if r.Err? {
        return Threw(r.error), [];
      }
      out, sent := Handled, [Reply(Joined(nick, |games[channel].players|))];
    }

    /** `seed <text>`: the arguments joined by spaces and trimmed; an empty seed is answered with
        the usage line, any other reseeds the game whatever its status. */
    method SeedCmd(channel: string, args: seq<string>) returns (sent: seq<Output>)
      requires Valid() && channel in games
      modifies games[channel], games[channel].rng
      ensures Valid()
      ensures var seed := CommandParser.Trim(CommandParser.Join(args, " "));
        && (seed == "" ==> sent == [Reply(SeedUsage)] && games[channel].Same())
        && (seed != "" ==>
              var g := games[channel];
              && sent == [Reply(SeedSet(seed))] && g.seed == seed
              && Game.PoolInvariant([], g.drawPool) && g.drawnNumbers == [] && g.lastDrawn == None
              && g.status == old(g.status) && g.players == old(g.players) && g.winners == old(g.winners)
              && g.timerId == old(g.timerId))
    {
      var seed := CommandParser.Trim(CommandParser.Join(args, " "));
      if seed == "" {
        return [Reply(SeedUsage)];
      }
      Reseed(channel, seed);
      sent := [Reply(SeedSet(seed))];
    }

    /** `basla`: only from registration and with at least one player; the game then runs and
        keeps the interval it already has, or takes `timer`. */
    method Basla(channel: string, timer: Game.TimerHandle) returns (sent: seq<Output>)
      requires Valid() && channel in games
      modifies games[channel]
      ensures Valid()
      ensures old(games[channel].status) != Game.Registering ==>
        sent == [Reply(RegistrationFirst)] && games[channel].Same()
      ensures old(games[channel].status) == Game.Registering && old(games[channel].players) == map[] ==>
        sent == [Reply(NeedPlayer)] && games[channel].Same()
      ensures old(games[channel].status) == Game.Registering && old(games[channel].players) != map[] ==>
        && sent == [Reply(Started(intervalMs))]
        && games[channel].status == Game.Running && games[channel].Kept()
        && games[channel].timerId == (if old(games[channel].timerId).None? then Some(timer) else old(games[channel].timerId))
    {
      var g := games[channel];
      if g.status != Game.Registering {
        return [Reply(RegistrationFirst)];
      }
      if g.players == map[] {
        return [Reply(NeedPlayer)];
      }
      Start(channel, timer);
      sent := [Reply(Started(intervalMs))];
    }

    /** The interval callback and the body of `cek`: the next number is announced, or, with the
        pool empty, the game ends and the channel is told so. */
    method DrawOrEnd(channel: string) returns (sent: seq<Output>)
      requires Valid() && channel in games
      modifies games[channel]
      ensures Valid()
      ensures var g := games[channel];
        && (old(g.drawPool) == [] ==>
              sent == [Reply(AllDrawn)] && g.status == Game.Finished && g.timerId == None && g.Kept())
        && (old(g.drawPool) != [] ==>
              && sent == [Announce(old(g.drawPool)[0])]
              && g.drawnNumbers == old(g.drawnNumbers) + [old(g.drawPool)[0]]
              && g.drawPool == old(g.drawPool)[1..]
              && g.status == old(g.status) && g.timerId == old(g.timerId)
              && g.players == old(g.players) && g.winners == old(g.winners))
    {
      var r := Draw(channel);
      if r.None? {
        Finish(channel);
        return [Reply(AllDrawn)];
      }
      sent := [Announce(r.value)];
    }

    /** A tick of the channel's draw interval, which only runs while the game holds a timer. */
    method TimerTick(channel: string) returns (sent: seq<Output>)
      requires Valid() && channel in games && games[channel].timerId.Some?
      modifies games[channel]
      ensures Valid()
      ensures old(games[channel].drawPool) == [] ==> sent == [Reply(AllDrawn)] && games[channel].status == Game.Finished
      ensures old(games[channel].drawPool) != [] ==> sent == [Announce(old(games[channel].drawPool)[0])]
      ensures |games[channel].drawnNumbers| + |games[channel].drawPool| == 90
    {
      sent := DrawOrEnd(channel);
      Game.HistoryDistinct(games[channel].drawnNumbers, games[channel].drawPool);
    }

    /** `cek`: a manual draw, only while the game runs. */
    method Cek(channel: string) returns (sent: seq<Output>)
      requires Valid() && channel in games
      modifies games[channel]
      ensures Valid()
      ensures old(games[channel].status) != Game.Running ==> sent == [Reply(RunningRequired)] && games[channel].Same()
      ensures old(games[channel].status) == Game.Running ==>
        if old(games[channel].drawPool) == [] then
          sent == [Reply(AllDrawn)] && games[channel].status == Game.Finished && games[channel].timerId == None
        else
          sent == [Announce(old(games[channel].drawPool)[0])] && games[channel].status == Game.Running
          && games[channel].drawnNumbers == old(games[channel].drawnNumbers) + [old(games[channel].drawPool)[0]]
    {
      if games[channel].status != Game.Running {
        return [Reply(RunningRequired)];
      }
      sent := DrawOrEnd(channel);
    }

    /** `durum`: status, player count, number of draws and the last number. */
    method Durum(channel: string) returns (sent: seq<Output>)
      requires Valid() && channel in games
      ensures var g := games[channel];
        sent == [Reply(StatusLine(g.status, |g.players|, |g.drawnNumbers|, g.lastDrawn))]
      ensures games[channel].lastDrawn.Some? ==>
        (games[channel].drawnNumbers != []
         && games[channel].lastDrawn.value == games[channel].drawnNumbers[|games[channel].drawnNumbers| - 1])
    {
      var g := games[channel];
      sent := [Reply(StatusLine(g.status, |g.players|, |g.drawnNumbers|, g.lastDrawn))];
    }

    /** `kazan`, as intended: only once the game runs or has finished; the claim's message is the
        reply, and a won tombala ends the game, stopping its interval. */
    method Kazan(channel: string, nick: string) returns (claim: Option<Game.ClaimResult>, sent: seq<Output>)
      requires Valid() && channel in games
      modifies games[channel]
      ensures Valid()
      ensures claim.None? <==> old(games[channel].status) !in {Game.Running, Game.Finished}
      ensures claim.None? ==> sent == [Reply(NoGame)] && games[channel].Same()
      ensures claim.Some? ==> sent == [Reply(ClaimReply(claim.value.message))] && Claimed(channel, nick, claim.value)
      ensures claim.Some? && claim.value.prize == Some(Game.Tombala) ==>
        games[channel].status == Game.Finished && games[channel].timerId == None
      ensures claim.Some? && claim.value.prize != Some(Game.Tombala) ==>
        games[channel].status == old(games[channel].status) && games[channel].timerId == old(games[channel].timerId)
    {
      if games[channel].status != Game.Running && games[channel].status != Game.Finished {
        return None, [Reply(NoGame)];
      }
      var r := Claim(channel, nick);
      sent := [Reply(ClaimReply(r.message))];
      if r.ok && r.prize == Some(Game.Tombala) {
        Finish(channel);
      }
      claim := Some(r);
    }

    /** `kazan` as written: the test of the claim's `stage` never holds, since `verifyClaim`
        names the prize `prize`, so a won tombala finishes the game but leaves its interval
        running. */
    method KazanAsWritten(channel: string, nick: string) returns (claim: Option<Game.ClaimResult>, sent: seq<Output>)
      requires Valid() && channel in games
      modifies games[channel]
      ensures Valid()
      ensures claim.None? <==> old(games[channel].status) !in {Game.Running, Game.Finished}
      ensures claim.None? ==> sent == [Reply(NoGame)] && games[channel].Same()
      ensures claim.Some? ==> sent == [Reply(ClaimReply(claim.value.message))] && Claimed(channel, nick, claim.value)
      ensures claim.Some? && claim.value.prize == Some(Game.Tombala) ==>
        games[channel].status == Game.Finished && games[channel].timerId == old(games[channel].timerId)
      ensures games[channel].timerId == old(games[channel].timerId)
    {
      if games[channel].status != Game.Running && games[channel].status != Game.Finished {
        return None, [Reply(NoGame)];
      }
      var r := Claim(channel, nick);
      sent := [Reply(ClaimReply(r.message))];
      claim := Some(r);
    }

    /** `bitir`: the game ends and the channel is told so. */
    method Bitir(channel: string) returns (sent: seq<Output>)
      requires Valid() && channel in games
      modifies games[channel]
      ensures Valid() && sent == [Reply(Ended)]
      ensures games[channel].status == Game.Finished && games[channel].timerId == None && games[channel].Kept()
    {
      Finish(channel);
      sent := [Reply(Ended)];
    }

    /** The `switch` of `handleMessage` on the channel's game, after the operator check. `kazan`
        runs as written, so a won tombala leaves the game's interval in place. */
    method Dispatch(channel: string, nick: string, parsed: CommandParser.Parsed, isOperator: bool,
                    timer: Game.TimerHandle)
      returns (out: Outcome, sent: seq<Output>)
      requires Valid() && channel in games
      modifies this, games[channel], games[channel].rng
      ensures Valid() && OnlyChannel(channel) && channel in games
      ensures out != NotACommand && (out.Threw? ==> parsed.cmd == CommandParser.Katil)
      ensures Restricted(parsed.cmd) && !isOperator ==>
        out == Handled && sent == [Reply(OperatorOnly)] && games == old(games) && games[channel].Same()
      ensures parsed.cmd == CommandParser.Yardim ==>
        out == Handled && sent == [Reply(Help(CommandParser.HelpText()))] && games == old(games)
        && games[channel].Same()
      ensures parsed.cmd == CommandParser.Kazan ==> games[channel].timerId == old(games[channel].timerId)
    {
      if Restricted(parsed.cmd) && !isOperator {
        return Handled, [Reply(OperatorOnly)];
      }
      out := Handled;
      match parsed.cmd
      case Yardim => sent := [Reply(Help(CommandParser.HelpText()))];
      case Baslat => sent := Baslat(channel);
      case Katil => out, sent := Katil(channel, nick);
      case Seed => sent := SeedCmd(channel, parsed.args);
      case Basla => sent := Basla(channel, timer);
      case Cek => sent := Cek(channel);
      case Durum => sent := Durum(channel);
      case Kazan => var _, s := KazanAsWritten(channel, nick); sent := s;
      case Bitir => sent := Bitir(channel);
    }

    /** `handleMessage`: a line that is not a `!tombala` command is left alone; any other
        creates the channel's game if need be and is dispatched to it. */
    method HandleMessage(channel: string, nick: string, message: CommandParser.Input, isOperator: bool,
                         timer: Game.TimerHandle)
      returns (out: Outcome, sent: seq<Output>)
      requires Valid()
      modifies this, ChannelObjects(channel)
      ensures Valid()
      ensures out == NotACommand <==> CommandParser.Parse(message).None?
      ensures out == NotACommand ==> sent == [] && games == old(games)
      ensures out != NotACommand ==> channel in games
      ensures OnlyChannel(channel)
      ensures out.Threw? ==> CommandParser.Parse(message).value.cmd == CommandParser.Katil
    {
      var parsed := CommandParser.Parse(message);
      if parsed.None? {
        return NotACommand, [];
      }
      out, sent := HandleParsed(channel, nick, parsed.value, isOperator, timer);
    }

    /** The rest of `handleMessage` once the line has parsed: `getOrCreate`, then the `switch`. */
    method HandleParsed(channel: string, nick: string, parsed: CommandParser.Parsed, isOperator: bool,
                        timer: Game.TimerHandle)
      returns (out: Outcome, sent: seq<Output>)
      requires Valid()
      modifies this, ChannelObjects(channel)
      ensures Valid() && channel in games && OnlyChannel(channel)
      ensures out != NotACommand && (out.Threw? ==> parsed.cmd == CommandParser.Katil)
      ensures parsed.cmd == CommandParser.Kazan ==>
        games[channel].timerId == (if channel in old(games) then old(games[channel].timerId) else None)
    {
      var g := GetOrCreate(channel);
      out, sent := Dispatch(channel, nick, parsed, isOperator, timer);
    }

    /** `getUiState` as intended: the channel's game (created if need be) seen by `nick`. */
    method GetUiState(channel: string, nick: string) returns (ui: UiState)
      requires Valid()
      modifies this
      ensures Valid() && channel in games && OnlyChannel(channel)
      ensures channel in old(games) ==> games[channel] == old(games[channel])
      ensures var g := games[channel];
        ui == UiView(g.status, g.players, g.drawnNumbers, g.winners, nick)
    {
      var g := GetOrCreate(channel);
      ui := UiView(g.status, g.players, g.drawnNumbers, g.winners, nick);
    }

    /** `getUiState` as written: after creating the game it calls `game.getPlayer`, which the
        game does not define, so every call fails. */
    method GetUiStateAsWritten(channel: string, nick: string) returns (r: Result<UiState, UiError>)
      requires Valid()
      modifies this
      ensures Valid() && channel in games && OnlyChannel(channel)
      ensures channel in old(games) ==> games[channel] == old(games[channel])
      ensures r == Err(GetPlayerIsNotAFunction)
    {
      var g := GetOrCreate(channel);
      r := Err(GetPlayerIsNotAFunction);
    }
  }
}
