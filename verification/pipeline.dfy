/** The two branches of the script end to end: yesterday's pitcher report
    and today's TV list. Remote services are parameters: the per-game
    fetches, the player lookup and the schedules arrive as values. */
module Pipeline {
  import opened Wrappers
  import opened Text
  import opened Schedule
  import opened Savant
  import opened Tagging
  import opened Merge
  import opened Names
  import opened Grouping
  import opened Render
  import opened TvList

  /** What the yesterday branch produces. */
  datatype ReportOutcome =
    | NoGames              // the schedule listed no game ids
    | NoPitcherData        // every game was skipped
    | ReportFailed         // the broadcast table has no columns to join on
    | Report(html: string)

  /** Joined, filtered, named and reshaped rows: the script's `final_df`. */
  function PitcherRows(tagged: seq<TaggedRow>, table: seq<BroadcastRow>,
                       lookup: int -> Option<PlayerName>): (rows: seq<ReportRow>)
    ensures |rows| == |CleanRows(tagged, table)|
  {
    var joined := CleanRows(tagged, table);
    Reshape(joined, ResolveNames(joined, lookup))
  }

  /** The yesterday branch: one fetch result per scheduled game id, in
      schedule order, and the broadcast table of the same day. */
  function YesterdayReport(games: seq<GameFetch>, table: seq<BroadcastRow>,
                           lookup: int -> Option<PlayerName>): (o: ReportOutcome)
    ensures o == NoGames <==> games == []
    ensures o == NoPitcherData <==>
              games != [] && forall i :: 0 <= i < |games| ==> ProcessGame(games[i]).Skipped?
    ensures o == ReportFailed <==> TagGames(games) != [] && table == []
    ensures o.Report? ==>
              o.html == RenderReport(GroupsFor(PitcherRows(TagGames(games), table, lookup), ReportOrder))
  {
    TagGamesEmpty(games);
    if games == [] then NoGames
    else
      var tagged := TagGames(games);
      if tagged == [] then NoPitcherData
      else if table == [] then ReportFailed
      else
        var rows := PitcherRows(tagged, table, lookup);
        SortedGroupOrder(rows);
        Report(RenderReport(SortGroups(GroupBy(rows))))
  }

  /** The yesterday branch reading its broadcast table from the schedule
      payload with `parse_game_data`. */
  method GenerateYesterday(games: seq<GameFetch>, payload: SchedulePayload,
                           lookup: int -> Option<PlayerName>) returns (o: ReportOutcome)
    ensures o == NoGames <==> games == []
    ensures o == ReportFailed <==> TagGames(games) != [] && AllGames(payload) == []
    ensures o == YesterdayReport(games, BroadcastTable(payload), lookup)
  {
    var table := ParseGameData(payload);
    o := YesterdayReport(games, table, lookup);
  }

  /** The today branch reading its broadcast table from the schedule payload. */
  method GenerateToday(payload: SchedulePayload, schedule: seq<ScheduleRow>) returns (o: TvOutcome)
    ensures o == NoGamesScheduled <==> schedule == []
    ensures o == MergeFailed <==> schedule != [] && AllGames(payload) == []
    ensures o == TodayTvList(BroadcastTable(payload), schedule)
  {
    var table := ParseGameData(payload);
    o := TodayTvList(table, schedule);
  }

  /** The today branch as the script writes it, NaN entries included. */
  method GenerateTodayAsWritten(payload: SchedulePayload, schedule: seq<ScheduleRow>) returns (o: TvOutcome)
    ensures o == NoGamesScheduled <==> schedule == []
    ensures o == MergeFailed <==> schedule != [] && AllGames(payload) == []
    ensures o == TodayTvListAsWritten(BroadcastTable(payload), schedule)
  {
    var table := ParseGameData(payload);
    o := TodayTvListAsWritten(table, schedule);
  }

  // ---------------------------------------------------------------------
  // Properties of the report

  /** Every pitcher row that survives the join and the filter has its line
      in the report, and so does its game's match-up. */
  lemma EveryRowInReport(rows: seq<ReportRow>, r: ReportRow)
    requires r in rows
    ensures HasSubstring(RenderReport(GroupsFor(rows, ReportOrder)), PitcherText(r))
    ensures HasSubstring(RenderReport(GroupsFor(rows, ReportOrder)), r.gameInfo)
  {
    var gs := GroupsFor(rows, ReportOrder);
    KeyOrderComplete();
    assert KeyOf(r) in ReportOrder by {
      match r.status
      case Cancelled =>
      case NoStatcast =>
      case StatcastGames =>
    }
    GroupsForCovers(rows, ReportOrder, r);
    var g :| g in gs && g.key == KeyOf(r);
    GroupsForSpec(rows, ReportOrder);
    MembersOfSpec(rows, g.key);
    var i :| 0 <= i < |gs| && gs[i] == g;
    var j :| 0 <= j < |g.members| && g.members[j] == r;
    EveryPitcherRendered(gs, i, j);
    EveryGameInfoRendered(gs, i, j);
  }

  /** When a cancelled game contributed rows, the report opens with a
      Cancelled group, which carries the "No Statcast" heading. */
  lemma CancelledLeadsReport(rows: seq<ReportRow>)
    requires exists r :: r in rows && r.status == Cancelled
    ensures var gs := GroupsFor(rows, ReportOrder);
            gs != [] && gs[0].key.status == Cancelled
            && OccursAt(RenderReport(gs), Heading(GroupKey(NoStatcast, gs[0].key.onTv)), 0)
  {
    var r :| r in rows && r.status == Cancelled;
    var cf := GroupKey(Cancelled, false);
    var ct := GroupKey(Cancelled, true);
    var tail := ReportOrder[2..];
    assert ReportOrder == [cf] + ([ct] + tail);
    GroupsForCons(rows, cf, [ct] + tail);
    GroupsForCons(rows, ct, tail);
    MembersOfSpec(rows, KeyOf(r));
    assert r in MembersOf(rows, KeyOf(r));
    var gs := GroupsFor(rows, ReportOrder);
    assert gs[0].key.status == Cancelled;
    ReportStartsWithHeading(gs);
    CancelledHeading(gs[0].key.onTv);
  }

  // ---------------------------------------------------------------------
  // A worked example

  /** A Statcast game (code "F", one tracked pitch type) in which the home
      starter of NYY went 6.0 innings with 2 earned runs, 4 hits, 1 walk
      and 7 strikeouts; the game is televised. */
  const SmithFeed: SavantFeed :=
    SavantFeed(Some("F"), Some(Scoreboard(Some(ScoreStats(Some(PitchVelocity(Some(["FF"]))))))))
  const SmithLine: PitcherLine := PitcherLine("Smith", 11, "6.0", "4", "1", "7", "2")
  const SmithFetch: GameFetch := GameFetch(5, Some(SmithFeed), Some(Boxscore([], [SmithLine], "BOS", "NYY")))
  const SmithTable: seq<BroadcastRow> := [BroadcastRow(5, true)]
  const SmithTagged: TaggedRow := TaggedRow(SmithLine, "NYY", "NYY vs. BOS", 5, StatcastGames)

  function SmithLookup(id: int): Option<PlayerName>
  {
    if id == 11 then Some(PlayerName("J.", "Smith")) else None
  }

  lemma SmithGameKept()
    ensures TagGames([SmithFetch]) == [SmithTagged]
  {
    assert ClassifyStatus(SmithFeed) == StatcastGames;
    assert GameInfo("NYY", "BOS") == "NYY vs. BOS";
    assert TagSide([SmithLine], "NYY", "NYY vs. BOS", 5, StatcastGames) == [SmithTagged];
    assert TagSide([], "BOS", "NYY vs. BOS", 5, StatcastGames) == [];
    assert [SmithTagged] + [] == [SmithTagged];
    assert ProcessGame(SmithFetch) == Kept([SmithTagged]);
    assert TagGames([SmithFetch]) == [SmithTagged] + TagGames([]);
  }

  lemma SmithRowShaped()
    ensures PitcherRows([SmithTagged], SmithTable, SmithLookup)
            == [SmithRow]
  {
    assert !HasSubstring("Smith", "Pitchers");
    CleanRowsSingle(SmithTagged, SmithTable);
    assert CleanRows([SmithTagged], SmithTable) == [JoinedRow(SmithTagged, true)];
    var joined := [JoinedRow(SmithTagged, true)];
    assert SmithLookup(11) == Some(PlayerName("J.", "Smith"));
    assert "J." + " " + "Smith" == "J. Smith";
    var names := ResolveNames(joined, SmithLookup);
    assert names == ["J. Smith"];
    var rows := Reshape(joined, names);
    assert |rows| == 1;
    assert rows[0] == ReportRow("J. Smith", "NYY", "6.0 IP", "2 ER", "4 H", "1 BB", "7 K",
                                StatcastGames, true, "NYY vs. BOS");
  }

  lemma SmithText()
    ensures PitcherText(ReportRow("J. Smith", "NYY", "6.0 IP", "2 ER", "4 H", "1 BB", "7 K",
                                  StatcastGames, true, "NYY vs. BOS"))
            == "<strong>J. Smith (NYY) - 6.0 IP, 2 ER, 4 H, 1 BB, 7 K.</strong>"
  {
    assert "<strong>" + "J. Smith" == "<strong>J. Smith";
    assert "<strong>J. Smith" + " (" == "<strong>J. Smith (";
    assert "<strong>J. Smith (" + "NYY" == "<strong>J. Smith (NYY";
    assert "<strong>J. Smith (NYY" + ") - " == "<strong>J. Smith (NYY) - ";
    assert "<strong>J. Smith (NYY) - " + "6.0 IP" == "<strong>J. Smith (NYY) - 6.0 IP";
    assert "<strong>J. Smith (NYY) - 6.0 IP" + ", " == "<strong>J. Smith (NYY) - 6.0 IP, ";
    assert "<strong>J. Smith (NYY) - 6.0 IP, " + "2 ER" == "<strong>J. Smith (NYY) - 6.0 IP, 2 ER";
    assert "<strong>J. Smith (NYY) - 6.0 IP, 2 ER" + ", " == "<strong>J. Smith (NYY) - 6.0 IP, 2 ER, ";
    assert "<strong>J. Smith (NYY) - 6.0 IP, 2 ER, " + "4 H" == "<strong>J. Smith (NYY) - 6.0 IP, 2 ER, 4 H";
    assert "<strong>J. Smith (NYY) - 6.0 IP, 2 ER, 4 H" + ", " == "<strong>J. Smith (NYY) - 6.0 IP, 2 ER, 4 H, ";
    assert "<strong>J. Smith (NYY) - 6.0 IP, 2 ER, 4 H, " + "1 BB" == "<strong>J. Smith (NYY) - 6.0 IP, 2 ER, 4 H, 1 BB";
    assert "<strong>J. Smith (NYY) - 6.0 IP, 2 ER, 4 H, 1 BB" + ", " == "<strong>J. Smith (NYY) - 6.0 IP, 2 ER, 4 H, 1 BB, ";
    assert "<strong>J. Smith (NYY) - 6.0 IP, 2 ER, 4 H, 1 BB, " + "7 K" == "<strong>J. Smith (NYY) - 6.0 IP, 2 ER, 4 H, 1 BB, 7 K";
    assert "<strong>J. Smith (NYY) - 6.0 IP, 2 ER, 4 H, 1 BB, 7 K" + ".</strong>" == "<strong>J. Smith (NYY) - 6.0 IP, 2 ER, 4 H, 1 BB, 7 K.</strong>";
  }

  const SmithRow: ReportRow :=
    ReportRow("J. Smith", "NYY", "6.0 IP", "2 ER", "4 H", "1 BB", "7 K", StatcastGames, true, "NYY vs. BOS")

  /** The two Cancelled keys that come first in the group order have no
      members, so the first group is the "Statcast, on TV" one. */
  lemma SmithFirstGroup()
    ensures GroupsFor([SmithRow], ReportOrder) != []
    ensures GroupsFor([SmithRow], ReportOrder)[0].key == GroupKey(StatcastGames, true)
  {
    var rows := [SmithRow];
    var cf, ct, st := GroupKey(Cancelled, false), GroupKey(Cancelled, true), GroupKey(StatcastGames, true);
    assert MembersOf(rows, cf) == [] + MembersOf([], cf);
    assert MembersOf(rows, ct) == [] + MembersOf([], ct);
    assert MembersOf(rows, st) == [SmithRow] + MembersOf([], st);
    var rest := ReportOrder[3..];
    assert ReportOrder == [cf] + ([ct] + ([st] + rest));
    GroupsForCons(rows, cf, [ct] + ([st] + rest));
    GroupsForCons(rows, ct, [st] + rest);
    GroupsForCons(rows, st, rest);
  }

  /** The worked example's report opens with the "Statcast, on TV" heading. */
  lemma SmithHeading()
    ensures OccursAt(YesterdayReport([SmithFetch], SmithTable, SmithLookup).html,
                     Heading(GroupKey(StatcastGames, true)), 0)
  {
    SmithGameKept();
    SmithRowShaped();
    SmithFirstGroup();
    ReportStartsWithHeading(GroupsFor([SmithRow], ReportOrder));
  }

  /** The worked example: the report lists the starter as
      "J. Smith (NYY) - 6.0 IP, 2 ER, 4 H, 1 BB, 7 K.". */
  lemma SmithScenario()
    ensures YesterdayReport([SmithFetch], SmithTable, SmithLookup).Report?
    ensures HasSubstring(YesterdayReport([SmithFetch], SmithTable, SmithLookup).html,
                         "<strong>J. Smith (NYY) - 6.0 IP, 2 ER, 4 H, 1 BB, 7 K.</strong>")
    ensures HasSubstring(YesterdayReport([SmithFetch], SmithTable, SmithLookup).html, "NYY vs. BOS")
  {
    SmithGameKept();
    SmithRowShaped();
    var o := YesterdayReport([SmithFetch], SmithTable, SmithLookup);
    var rows := PitcherRows([SmithTagged], SmithTable, SmithLookup);
    assert o.Report? && o.html == RenderReport(GroupsFor(rows, ReportOrder));
    var r := rows[0];
    assert r in rows;
    SmithText();
    EveryRowInReport(rows, r);
  }
}
