/** Where the two engines (src/libs/tombala/ with TombalaManager, and src/libs/tombala.js with the
    bot) agree and where they part: the column layout of a card, the tombala test, the order in
    which a claim picks its prize, and which lines count as addressed to the game. */
module Variants {
  import opened Wrappers
  import opened Cards
  import CommandParser
  import TombalaCard
  import WinCheck
  import TombalaLib
  import Game
  import Bot

  /** Both generators use the same nine column ranges, so a card of the bot's generator has
      exactly the shape of a card the manager issues. */
  lemma ColumnRangesAgree()
    ensures TombalaCard.COLUMN_RANGES == TombalaLib.ColumnRanges()
    ensures forall card :: WellFormedCard(card, TombalaLib.ColumnRanges()) <==> Game.IssuedCard(card)
  {
    var ranges := TombalaLib.ColumnRanges();
    forall c | 0 <= c < CARD_COLS
      ensures TombalaCard.COLUMN_RANGES[c] == ranges[c]
    {
      assert ranges[c] == TombalaLib.ColumnRange(c);
    }
  }

  /** The fourteen numbers of the validation fixture. */
  const FIXTURE_DRAW: seq<int> := [1, 12, 23, 34, 45, 56, 67, 78, 89, 2, 13, 24, 35, 46]

  /** The fixture card carries fourteen numbers: every one drawn is a tombala for `validateClaim`
      and for the bot's `cardResult`, which look at rows, but not for the first engine's
      `evaluateCard`, which asks for exactly fifteen matches. */
  lemma FixtureTombalaDiverges()
    ensures TombalaLib.ValidateClaim(TombalaLib.FixtureCard(), FIXTURE_DRAW, "tombala")
    ensures Bot.CardResultOf(TombalaLib.FixtureCard(), set n | n in FIXTURE_DRAW).tombala
    ensures !WinCheck.EvaluateCard(TombalaLib.FixtureCard(), WinCheck.DrawnList(FIXTURE_DRAW)).tombala
  {
    var card := TombalaLib.FixtureCard();
    TombalaLib.FixtureFullTombala();
    Bot.CardResultMatchesEvaluate(card, FIXTURE_DRAW);
    FixtureHasFourteen();
  }

  lemma FixtureHasFourteen()
    ensures |CardNumbers(TombalaLib.FixtureCard())| == 14
  {
    var card := TombalaLib.FixtureCard();
    var blank: seq<Cell> := [None, None, None, None];
    var low: seq<Cell> := [Some(1), Some(12), Some(23), Some(34), Some(45)];
    var high: seq<Cell> := [Some(56), Some(67), Some(78), Some(89)];
    var second: seq<Cell> := [Some(2), Some(13), Some(24), Some(35), Some(46)];
    assert card[0] == low + blank && card[1] == [None] + blank + high && card[2] == second + blank;
    RowNumbersNone(blank);
    RowNumbersNone([None] + blank);
    RowNumbersAllSome(low);
    RowNumbersAllSome(high);
    RowNumbersAllSome(second);
    RowNumbersAppend(low, blank);
    RowNumbersAppend([None] + blank, high);
    RowNumbersAppend(second, blank);
    assert card[1..][1..][1..] == [];
  }

  /** The numbers of two rows side by side are the first row's followed by the second's. */
  lemma {:induction false} RowNumbersAppend(a: seq<Cell>, b: seq<Cell>)
    ensures RowNumbers(a + b) == RowNumbers(a) + RowNumbers(b)
    decreases |b|
  {
    if b != [] {
      RowNumbersAppend(a, b[..|b| - 1]);
      assert (a + b)[..|a + b| - 1] == a + b[..|b| - 1];
      assert (a + b)[|a + b| - 1] == b[|b| - 1];
    } else {
      assert a + b == a;
    }
  }

  /** A row without empty cells has as many numbers as cells. */
  lemma {:induction false} RowNumbersAllSome(row: seq<Cell>)
    requires forall c :: 0 <= c < |row| ==> row[c].Some?
    ensures |RowNumbers(row)| == |row|
    decreases |row|
  {
    if row != [] {
      RowNumbersAllSome(row[..|row| - 1]);
    }
  }

  /** The first engine and the bot read a card to the same three facts. */
  predicate SameAchievements(e: WinCheck.Evaluation, res: Bot.CardResult)
  {
    e.cinko1 == res.cinko1 && e.cinko2 == res.cinko2 && e.tombala == res.tombala
  }

  /** On the same achievements both engines award a prize exactly when one is open and earned;
      the manager picks the lowest such prize and the bot the highest, so they agree whenever
      only one prize is open and earned, and differ as soon as two are. */
  lemma ClaimOrders(w: Game.Winners, e: WinCheck.Evaluation, res: Bot.CardResult)
    requires SameAchievements(e, res)
    ensures Game.ClaimOutcome(w, e).Some? <==> Bot.BotClaimOutcome(w, res).Some?
    ensures Game.ClaimOutcome(w, e).Some? ==>
      Game.Rank(Game.ClaimOutcome(w, e).value) <= Game.Rank(Bot.BotClaimOutcome(w, res).value)
    ensures Game.ClaimOutcome(w, e) == Bot.BotClaimOutcome(w, res) <==>
      forall p, q :: (Game.Open(Game.WinnerOf(w, p)) && Game.Achieved(e, p)
                      && Game.Open(Game.WinnerOf(w, q)) && Game.Achieved(e, q)) ==> p == q
  {
    forall p ensures Game.Achieved(e, p) == Bot.Achieved(res, p) {
    }
    var g, b := Game.ClaimOutcome(w, e), Bot.BotClaimOutcome(w, res);
    if g.Some? && b.Some? && g.value != b.value {
      assert Game.Rank(g.value) < Game.Rank(b.value);
    }
  }

  /** Every line the bot answers is a command for the manager's parser too. */
  lemma BotLinesParse(message: string)
    ensures Bot.Route(message).Addressed? ==> CommandParser.Parse(CommandParser.Text(message)).Some?
  {
    var t := CommandParser.Trim(message);
    if CommandParser.StartsWith(t, CommandParser.PREFIX) {
      PrefixSurvivesLower(t);
    }
  }

  /** Lower-casing keeps the prefix, which has no capitals. */
  lemma PrefixSurvivesLower(t: string)
    requires CommandParser.StartsWith(t, CommandParser.PREFIX)
    ensures CommandParser.StartsWith(CommandParser.Lower(t), CommandParser.PREFIX)
  {
    var lower := CommandParser.Lower(t);
    forall k | 0 <= k < |CommandParser.PREFIX|
      ensures lower[k] == CommandParser.PREFIX[k]
    {
      assert t[k] == CommandParser.PREFIX[k];
    }
  }

  /** The converse fails: the bot tests the prefix case-sensitively, so a shouted prefix is a
      command for the manager and not for the bot. */
  lemma ShoutedPrefixIgnored()
    ensures Bot.Route("!TOMBALA durum").Ignored?
    ensures CommandParser.Parse(CommandParser.Text("!TOMBALA durum")).Some?
  {
    ShoutedTokens();
    assert "!TOMBALA durum"[1] != CommandParser.PREFIX[1];
  }

  /** The shouted line is already trimmed and splits into its two words. */
  lemma ShoutedTokens()
    ensures CommandParser.Trim("!TOMBALA durum") == "!TOMBALA durum"
    ensures CommandParser.Tokens(CommandParser.Text("!TOMBALA durum")) == Some(["!TOMBALA", "durum"])
  {
    var ws := ["!TOMBALA", "durum"];
    assert CommandParser.Join(ws, " ") == "!TOMBALA durum";
    assert CommandParser.Word(ws[0]) && CommandParser.Word(ws[1]);
    CommandParser.JoinTrimmed(ws);
    ShoutedLower();
    CommandParser.TokensOfWords(ws);
  }

  /** The shouted prefix lower-cases to the prefix. */
  lemma ShoutedLower()
    ensures CommandParser.Lower("!TOMBALA") == CommandParser.PREFIX
  {
    var lower := CommandParser.Lower("!TOMBALA");
    forall k | 0 <= k < |lower| ensures lower[k] == CommandParser.PREFIX[k] {
    }
  }
}
