/** The per-game loop of the yesterday report: status, boxscore checks and
    the tagging of each side's pitcher rows. */
module Tagging {
  import opened Wrappers
  import opened Savant

  /** One row of a boxscore side. Stat fields are display tokens, never
      parsed as numbers. */
  datatype PitcherLine = PitcherLine(
    namefield: string, personId: int,
    ip: string, h: string, bb: string, k: string, er: string)

  /** The parts of `statsapi.boxscore_data` the script reads. */
  datatype Boxscore = Boxscore(
    awayPitchers: seq<PitcherLine>, homePitchers: seq<PitcherLine>,
    awayAbbr: string, homeAbbr: string)

  /** What the script obtains for one game id: the Savant feed (None when the
      request or its decoding raised) and the boxscore (None when it was falsy
      or could not be read). */
  datatype GameFetch = GameFetch(gameId: int, feed: Option<SavantFeed>, boxscore: Option<Boxscore>)

  /** A pitcher row with the columns the loop adds to it. */
  datatype TaggedRow = TaggedRow(
    line: PitcherLine, team: string, gameInfo: string,
    gameId: int, status: StatcastStatus)

  /** Why a game contributes no rows; each reason is one warning-and-continue. */
  datatype SkipReason = FeedFailed | NoBoxscore | NoPitchers

  datatype GameOutcome = Skipped(reason: SkipReason) | Kept(rows: seq<TaggedRow>)

  /** `home_team_abbr + ' vs. ' + away_team_abbr` */
  function GameInfo(home: string, away: string): string
  {
    home + " vs. " + away
  }

  function TagSide(lines: seq<PitcherLine>, team: string, info: string, id: int, status: StatcastStatus): seq<TaggedRow>
  {
    seq(|lines|, i requires 0 <= i < |lines| => TaggedRow(lines[i], team, info, id, status))
  }

  /** One iteration of the per-game loop. A game is kept exactly when its
      feed was read, its boxscore is present and some side has a pitcher
      row; then the home rows come first, then the away rows, each row
      carrying its side's abbreviation and the game's shared tags. */
  function ProcessGame(g: GameFetch): (o: GameOutcome)
    ensures o.Kept? <==>
              g.feed.Some? && g.boxscore.Some?
              && (g.boxscore.value.homePitchers != [] || g.boxscore.value.awayPitchers != [])
    ensures o.Kept? ==>
              var b := g.boxscore.value;
              var n := |b.homePitchers|;
              && |o.rows| == n + |b.awayPitchers|
              && (forall i :: 0 <= i < n ==>
                    o.rows[i].line == b.homePitchers[i] && o.rows[i].team == b.homeAbbr)
              && (forall i :: n <= i < |o.rows| ==>
                    o.rows[i].line == b.awayPitchers[i - n] && o.rows[i].team == b.awayAbbr)
              && (forall r :: r in o.rows ==>
                    && r.gameInfo == b.homeAbbr + " vs. " + b.awayAbbr
                    && r.gameId == g.gameId
                    && r.status == ClassifyStatus(g.feed.value))
  {
    match g.feed
    case None => Skipped(FeedFailed)
    case Some(f) =>
      var status := ClassifyStatus(f);
      match g.boxscore
      case None => Skipped(NoBoxscore)
      case Some(b) =>
        if b.awayPitchers == [] && b.homePitchers == [] then
          Skipped(NoPitchers)
        else
          var info := GameInfo(b.homeAbbr, b.awayAbbr);
          Kept(TagSide(b.homePitchers, b.homeAbbr, info, g.gameId, status)
               + TagSide(b.awayPitchers, b.awayAbbr, info, g.gameId, status))
  }

  function RowsOf(o: GameOutcome): seq<TaggedRow>
  {
    match o
    case Skipped(_) => []
    case Kept(rows) => rows
  }

  /** `pd.concat(dfs)` over the games in the order their ids were listed. */
  function TagGames(gs: seq<GameFetch>): (rs: seq<TaggedRow>)
    ensures forall r :: r in rs ==>
              exists i :: 0 <= i < |gs| && r in RowsOf(ProcessGame(gs[i])) && r.gameId == gs[i].gameId
  {
    if gs == [] then []
    else
      var rest := TagGames(gs[1..]);
      assert forall r :: r in rest ==>
               exists i :: 0 <= i < |gs| && r in RowsOf(ProcessGame(gs[i])) && r.gameId == gs[i].gameId by {
        forall r | r in rest
          ensures exists i :: 0 <= i < |gs| && r in RowsOf(ProcessGame(gs[i])) && r.gameId == gs[i].gameId
        {
          var i :| 0 <= i < |gs[1..]| && r in RowsOf(ProcessGame(gs[1..][i])) && r.gameId == gs[1..][i].gameId;
          assert gs[1..][i] == gs[i + 1];
        }
      }
      RowsOf(ProcessGame(gs[0])) + rest
  }

  /** Games are processed independently and their rows stay in game order. */
  lemma {:induction false} TagGamesAppend(a: seq<GameFetch>, b: seq<GameFetch>)
    ensures TagGames(a + b) == TagGames(a) + TagGames(b)
  {
    if a == [] {
      assert a + b == b;
    } else {
      assert (a + b)[1..] == a[1..] + b;
      TagGamesAppend(a[1..], b);
    }
  }

  /** The concatenated table is empty exactly when every game was skipped
      (the `if not dfs` warning). */
  lemma {:induction false} TagGamesEmpty(gs: seq<GameFetch>)
    ensures TagGames(gs) == [] <==> forall i :: 0 <= i < |gs| ==> ProcessGame(gs[i]).Skipped?
  {
    if gs != [] {
      TagGamesEmpty(gs[1..]);
      assert forall i :: 1 <= i < |gs| ==> gs[i] == gs[1..][i - 1];
    }
  }
}
