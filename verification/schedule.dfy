/** The schedule payload and the broadcast table built from it
    (`parse_game_data` in main.py). */
module Schedule {
  import opened Wrappers

  /** One entry of a game's `broadcasts` list; only its `type` is read. */
  datatype Broadcast = Broadcast(kind: string)

  /** A game of the payload; the `broadcasts` key may be missing. */
  datatype ScheduledGame = ScheduledGame(gamePk: int, broadcasts: Option<seq<Broadcast>>)

  datatype ScheduleDate = ScheduleDate(games: seq<ScheduledGame>)

  /** The decoded schedule response; the `dates` key may be missing. */
  datatype SchedulePayload = SchedulePayload(dates: Option<seq<ScheduleDate>>)

  /** One row of the broadcast table: `{'gamePk': ..., 'ON_TV': ...}`. */
  datatype BroadcastRow = BroadcastRow(gamePk: int, onTv: bool)

  /** `data.get('dates', [])` */
  function DatesOf(p: SchedulePayload): seq<ScheduleDate>
  {
    match p.dates
    case None => []
    case Some(ds) => ds
  }

  /** `game.get('broadcasts', [])` */
  function BroadcastsOf(g: ScheduledGame): seq<Broadcast>
  {
    match g.broadcasts
    case None => []
    case Some(bs) => bs
  }

  /** The game has a broadcast whose type is exactly "TV". */
  ghost predicate HasTvBroadcast(g: ScheduledGame)
  {
    exists i :: 0 <= i < |BroadcastsOf(g)| && BroadcastsOf(g)[i].kind == "TV"
  }

  /** `any(broadcast['type'] == 'TV' for broadcast in broadcasts)` */
  function AnyTv(bs: seq<Broadcast>): (b: bool)
    ensures b <==> exists i :: 0 <= i < |bs| && bs[i].kind == "TV"
  {
    if bs == [] then false
    else if bs[0].kind == "TV" then true
    else
      assert forall i :: 1 <= i < |bs| ==> bs[i] == bs[1..][i - 1];
      AnyTv(bs[1..])
  }

  /** Every game of the given dates, date by date, in payload order. */
  function GamesIn(ds: seq<ScheduleDate>): seq<ScheduledGame>
  {
    if ds == [] then [] else GamesIn(ds[..|ds| - 1]) + ds[|ds| - 1].games
  }

  function AllGames(p: SchedulePayload): seq<ScheduledGame>
  {
    GamesIn(DatesOf(p))
  }

  function RowFor(g: ScheduledGame): BroadcastRow
  {
    BroadcastRow(g.gamePk, AnyTv(BroadcastsOf(g)))
  }

  function RowsFor(gs: seq<ScheduledGame>): seq<BroadcastRow>
  {
    seq(|gs|, i requires 0 <= i < |gs| => RowFor(gs[i]))
  }

  /** The broadcast table as a whole: one row per game of the payload. */
  function BroadcastTable(p: SchedulePayload): seq<BroadcastRow>
  {
    RowsFor(AllGames(p))
  }

  /** Appending a game appends its row. */
  lemma RowsForSnoc(gs: seq<ScheduledGame>, g: ScheduledGame)
    ensures RowsFor(gs + [g]) == RowsFor(gs) + [RowFor(g)]
  {
  }

  /** The games of one more date come after the games before it. */
  lemma GamesInNext(ds: seq<ScheduleDate>, d: int)
    requires 0 <= d < |ds|
    ensures GamesIn(ds[..d + 1]) == GamesIn(ds[..d]) + ds[d].games
  {
    assert ds[..d + 1][..d] == ds[..d];
  }

  /** The broadcast table has one row per game, in payload order, flagged
      exactly when the game has a "TV" broadcast. */
  lemma BroadcastTableSpec(p: SchedulePayload)
    ensures |BroadcastTable(p)| == |AllGames(p)|
    ensures forall i :: 0 <= i < |AllGames(p)| ==>
              BroadcastTable(p)[i].gamePk == AllGames(p)[i].gamePk
              && (BroadcastTable(p)[i].onTv <==> HasTvBroadcast(AllGames(p)[i]))
    ensures p.dates.None? ==> BroadcastTable(p) == []
  {
  }

  /** `parse_game_data`: walks the dates and their games in order and
      appends one row per game. */
  method ParseGameData(p: SchedulePayload) returns (rows: seq<BroadcastRow>)
    ensures |rows| == |AllGames(p)|
    ensures forall i :: 0 <= i < |rows| ==>
              rows[i].gamePk == AllGames(p)[i].gamePk
              && (rows[i].onTv <==> HasTvBroadcast(AllGames(p)[i]))
    ensures p.dates.None? ==> rows == []
    ensures rows == BroadcastTable(p)
  {
    var ds := DatesOf(p);
    rows := [];
    var d := 0;
    while d < |ds|
      invariant 0 <= d <= |ds|
      invariant rows == RowsFor(GamesIn(ds[..d]))
    {
      var games := ds[d].games;
      ghost var before := GamesIn(ds[..d]);
      var g := 0;
      while g < |games|
        invariant 0 <= g <= |games|
        invariant rows == RowsFor(before + games[..g])
      {
        var game := games[g];
        var onTv := AnyTv(BroadcastsOf(game));
        assert before + games[..g + 1] == (before + games[..g]) + [game];
        RowsForSnoc(before + games[..g], game);
        rows := rows + [BroadcastRow(game.gamePk, onTv)];
        g := g + 1;
      }
      assert games[..g] == games;
      GamesInNext(ds, d);
      d := d + 1;
    }
    assert ds[..d] == ds;
    BroadcastTableSpec(p);
  }
}
