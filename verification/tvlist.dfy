/** Today's list of probable starters in televised games: the broadcast
    table left-joined with the day's schedule, filtered to TV games, and
    written as one "<name> - " line per starter. */
module TvList {
  import opened Text
  import opened Schedule

  /** One game of `statsapi.schedule(date)`, cut down to the three columns
      the script keeps; an unannounced starter is the empty string. */
  datatype ScheduleRow = ScheduleRow(gamePk: int, homeProbable: string, awayProbable: string)

  /** A probable-pitcher cell after the left join: a schedule value, or
      NaN when the broadcast row found no schedule row. */
  datatype Cell = Name(s: string) | NaN

  /** One row of the merged table. */
  datatype TvRow = TvRow(gamePk: int, onTv: bool, home: Cell, away: Cell)

  // ---------------------------------------------------------------------
  // The left join

  /** The schedule rows of one game, in schedule order. */
  function ScheduleMatches(games: seq<ScheduleRow>, id: int): (ms: seq<ScheduleRow>)
    ensures |ms| <= |games|
    ensures forall m :: m in ms <==> m in games && m.gamePk == id
  {
    if games == [] then []
    else (if games[0].gamePk == id then [games[0]] else []) + ScheduleMatches(games[1..], id)
  }

  /** The merged rows of one broadcast row: one per matching schedule row,
      or a single row of NaN cells when nothing matches. */
  function JoinRow(b: BroadcastRow, games: seq<ScheduleRow>): (rs: seq<TvRow>)
    ensures rs != []
    ensures forall r :: r in rs ==> r.gamePk == b.gamePk && r.onTv == b.onTv
  {
    var ms := ScheduleMatches(games, b.gamePk);
    if ms == [] then [TvRow(b.gamePk, b.onTv, NaN, NaN)]
    else seq(|ms|, i requires 0 <= i < |ms| =>
               TvRow(b.gamePk, b.onTv, Name(ms[i].homeProbable), Name(ms[i].awayProbable)))
  }

  /** `pd.merge(on_tv_today_df, games_df, on='gamePk', how='left')`: the
      broadcast table is the left side, so its rows and their order drive
      the result. */
  function LeftJoin(table: seq<BroadcastRow>, games: seq<ScheduleRow>): (rs: seq<TvRow>)
    ensures |rs| >= |table|
    ensures forall r :: r in rs ==> BroadcastRow(r.gamePk, r.onTv) in table
  {
    if table == [] then [] else JoinRow(table[0], games) + LeftJoin(table[1..], games)
  }

  lemma {:induction false} LeftJoinAppend(a: seq<BroadcastRow>, b: seq<BroadcastRow>, games: seq<ScheduleRow>)
    ensures LeftJoin(a + b, games) == LeftJoin(a, games) + LeftJoin(b, games)
  {
    if a == [] {
      assert a + b == b;
    } else {
      assert (a + b)[1..] == a[1..] + b;
      LeftJoinAppend(a[1..], b, games);
    }
  }

  /** Every merged row comes from a broadcast row; its cells are NaN exactly
      when that game is missing from the schedule, and otherwise hold the
      probables of a schedule row of the same game. */
  lemma {:induction false} LeftJoinSource(table: seq<BroadcastRow>, games: seq<ScheduleRow>, r: TvRow)
    requires r in LeftJoin(table, games)
    ensures BroadcastRow(r.gamePk, r.onTv) in table
    ensures r.home.NaN? <==> ScheduleMatches(games, r.gamePk) == []
    ensures r.away.NaN? <==> ScheduleMatches(games, r.gamePk) == []
    ensures r.home.Name? ==> exists m :: m in games && m.gamePk == r.gamePk
                                        && r.home.s == m.homeProbable && r.away == Name(m.awayProbable)
  {
    var b := table[0];
    if r in JoinRow(b, games) {
      var ms := ScheduleMatches(games, b.gamePk);
      if ms != [] {
        var i :| 0 <= i < |ms| && JoinRow(b, games)[i] == r;
        assert ms[i] in ms;
      }
    } else {
      LeftJoinSource(table[1..], games, r);
    }
  }

  /** A broadcast row whose game appears once in the schedule yields exactly
      one merged row, carrying that game's probables. */
  lemma LeftJoinOne(b: BroadcastRow, games: seq<ScheduleRow>, m: ScheduleRow)
    requires ScheduleMatches(games, b.gamePk) == [m]
    ensures LeftJoin([b], games) == [TvRow(b.gamePk, b.onTv, Name(m.homeProbable), Name(m.awayProbable))]
  {
    assert LeftJoin([b], games) == JoinRow(b, games) + LeftJoin([], games);
  }

  // ---------------------------------------------------------------------
  // The pitcher list

  /** `merged_df[merged_df['ON_TV'] == True]` */
  function TvRows(rows: seq<TvRow>): (tv: seq<TvRow>)
    ensures forall r :: r in tv <==> r in rows && r.onTv
  {
    if rows == [] then []
    else (if rows[0].onTv then [rows[0]] else []) + TvRows(rows[1..])
  }

  function HomeCells(rows: seq<TvRow>): (cs: seq<Cell>)
    ensures |cs| == |rows| && forall i :: 0 <= i < |rows| ==> cs[i] == rows[i].home
  {
    seq(|rows|, i requires 0 <= i < |rows| => rows[i].home)
  }

  function AwayCells(rows: seq<TvRow>): (cs: seq<Cell>)
    ensures |cs| == |rows| && forall i :: 0 <= i < |rows| ==> cs[i] == rows[i].away
  {
    seq(|rows|, i requires 0 <= i < |rows| => rows[i].away)
  }

  /** The home column followed by the away column (`tolist() + tolist()`). */
  function Pitchers(rows: seq<TvRow>): (cs: seq<Cell>)
    ensures |cs| == 2 * |rows|
    ensures forall i :: 0 <= i < |rows| ==> cs[i] == rows[i].home && cs[|rows| + i] == rows[i].away
  {
    HomeCells(rows) + AwayCells(rows)
  }

  /** Python truthiness of a cell: the empty string is false, NaN is true. */
  predicate Truthy(c: Cell)
  {
    match c
    case Name(s) => s != ""
    case NaN => true
  }

  /** How an f-string writes the cell. */
  function Shown(c: Cell): string
  {
    match c
    case Name(s) => s
    case NaN => "nan"
  }

  /** `[p for p in pitchers if p]`, as the script filters. */
  function ListedAsWritten(cs: seq<Cell>): (names: seq<string>)
    ensures |names| <= |cs|
    ensures forall n :: n in names <==> (n != "" && Name(n) in cs) || (n == "nan" && NaN in cs)
  {
    if cs == [] then []
    else (if Truthy(cs[0]) then [Shown(cs[0])] else []) + ListedAsWritten(cs[1..])
  }

  /** The intended filter: only announced starters, never a missing value. */
  function Listed(cs: seq<Cell>): (names: seq<string>)
    ensures |names| <= |cs|
    ensures forall n :: n in names ==> n != "" && Name(n) in cs
  {
    if cs == [] then []
    else (if cs[0].Name? && cs[0].s != "" then [cs[0].s] else []) + Listed(cs[1..])
  }

  lemma {:induction false} ListedSpec(cs: seq<Cell>)
    ensures forall n :: n in Listed(cs) <==> n != "" && Name(n) in cs
  {
    if cs != [] {
      ListedSpec(cs[1..]);
      assert cs == [cs[0]] + cs[1..];
    }
  }

  lemma ListedAppend(a: seq<Cell>, b: seq<Cell>)
    ensures Listed(a + b) == Listed(a) + Listed(b)
    ensures ListedAsWritten(a + b) == ListedAsWritten(a) + ListedAsWritten(b)
  {
    ListedAppendCorrected(a, b);
    ListedAppendAsWritten(a, b);
  }

  lemma {:induction false} ListedAppendCorrected(a: seq<Cell>, b: seq<Cell>)
    ensures Listed(a + b) == Listed(a) + Listed(b)
  {
    if a == [] {
      assert a + b == b;
    } else {
      assert (a + b)[1..] == a[1..] + b;
      ListedAppendCorrected(a[1..], b);
    }
  }

  lemma {:induction false} ListedAppendAsWritten(a: seq<Cell>, b: seq<Cell>)
    ensures ListedAsWritten(a + b) == ListedAsWritten(a) + ListedAsWritten(b)
  {
    if a == [] {
      assert a + b == b;
    } else {
      assert (a + b)[1..] == a[1..] + b;
      ListedAppendAsWritten(a[1..], b);
    }
  }

  /** The two filters differ only on NaN cells. */
  lemma {:induction false} ListedAgreeWithoutNaN(cs: seq<Cell>)
    requires forall i :: 0 <= i < |cs| ==> cs[i].Name?
    ensures ListedAsWritten(cs) == Listed(cs)
  {
    if cs != [] {
      ListedAgreeWithoutNaN(cs[1..]);
    }
  }

  // ---------------------------------------------------------------------
  // The text

  const TvHeader: string :=
    "SPs to watch on TV today #SpringSPnotes\n\nGet morning updates to EVERY SP via my daily Plus Pitch Podcast AND SP Roundup article on the Pitcher List site.\n"

  /** `f"{p} - "` for each listed starter. */
  function ListLines(names: seq<string>): (lines: seq<string>)
    ensures |lines| == |names|
    ensures forall i :: 0 <= i < |names| ==> lines[i] == names[i] + " - "
  {
    seq(|names|, i requires 0 <= i < |names| => names[i] + " - ")
  }

  /** `header + "\n" + "\n".join(f"{p} - " for p in ...)` */
  function TvContent(names: seq<string>): (content: string)
    ensures OccursAt(content, TvHeader + "\n", 0)
  {
    var body := Join("\n", ListLines(names));
    assert (TvHeader + "\n" + body)[..|TvHeader + "\n"|] == TvHeader + "\n";
    TvHeader + "\n" + body
  }

  /** Every listed starter has its "<name> - " line in the text. */
  lemma TvContentListsEveryName(names: seq<string>, i: int)
    requires 0 <= i < |names|
    ensures HasSubstring(TvContent(names), names[i] + " - ")
  {
    var lines := ListLines(names);
    JoinOccurs("\n", lines, i);
    var k :| OccursAt(Join("\n", lines), lines[i], k);
    OccursInMiddle(TvHeader + "\n", Join("\n", lines), "");
    assert TvHeader + "\n" + Join("\n", lines) + "" == TvContent(names);
    OccursTrans(TvContent(names), Join("\n", lines), lines[i], |TvHeader + "\n"|, k);
  }

  /** What the today's branch produces. */
  datatype TvOutcome =
    | NoGamesScheduled            // `statsapi.schedule(date)` is empty
    | MergeFailed                 // the broadcast table has no columns to join on
    | NoTvGames                   // no merged row is on TV
    | TvList(content: string)

  /** The today's branch as written: NaN cells are listed as "nan". */
  function TodayTvListAsWritten(table: seq<BroadcastRow>, games: seq<ScheduleRow>): (o: TvOutcome)
    ensures o == NoGamesScheduled <==> games == []
    ensures o == MergeFailed <==> games != [] && table == []
    ensures o == NoTvGames <==> games != [] && table != [] && forall b :: b in table ==> !b.onTv
  {
    if games == [] then NoGamesScheduled
    else if table == [] then MergeFailed
    else
      var tv := TvRows(LeftJoin(table, games));
      TvOnTvIff(table, games);
      if tv == [] then NoTvGames
      else TvList(TvContent(ListedAsWritten(Pitchers(tv))))
  }

  /** The today's branch with the intended filter. */
  function TodayTvList(table: seq<BroadcastRow>, games: seq<ScheduleRow>): (o: TvOutcome)
    ensures o == NoGamesScheduled <==> games == []
    ensures o == MergeFailed <==> games != [] && table == []
    ensures o == NoTvGames <==> games != [] && table != [] && forall b :: b in table ==> !b.onTv
  {
    if games == [] then NoGamesScheduled
    else if table == [] then MergeFailed
    else
      var tv := TvRows(LeftJoin(table, games));
      TvOnTvIff(table, games);
      if tv == [] then NoTvGames
      else TvList(TvContent(Listed(Pitchers(tv))))
  }

  /** The merged table has a TV row exactly when the broadcast table does. */
  lemma TvOnTvIff(table: seq<BroadcastRow>, games: seq<ScheduleRow>)
    ensures TvRows(LeftJoin(table, games)) != [] <==> exists b :: b in table && b.onTv
  {
    var joined := LeftJoin(table, games);
    var tv := TvRows(joined);
    if tv != [] {
      assert tv[0] in tv;
      LeftJoinSource(table, games, tv[0]);
    }
    if b :| b in table && b.onTv {
      LeftJoinCovers(table, games, b);
      assert JoinRow(b, games)[0] in tv;
    }
  }

  /** Every broadcast row contributes at least its first merged row. */
  lemma {:induction false} LeftJoinCovers(table: seq<BroadcastRow>, games: seq<ScheduleRow>, b: BroadcastRow)
    requires b in table
    ensures JoinRow(b, games)[0] in LeftJoin(table, games)
  {
    if table[0] == b {
      assert LeftJoin(table, games)[0] == JoinRow(b, games)[0];
    } else {
      LeftJoinCovers(table[1..], games, b);
    }
  }

  lemma {:induction false} TvRowsAppend(a: seq<TvRow>, b: seq<TvRow>)
    ensures TvRows(a + b) == TvRows(a) + TvRows(b)
  {
    if a == [] {
      assert a + b == b;
    } else {
      assert (a + b)[1..] == a[1..] + b;
      TvRowsAppend(a[1..], b);
    }
  }

  /** Each cell of the pitcher list is the home or the away cell of a row. */
  lemma PitcherCell(rows: seq<TvRow>, i: int)
    requires 0 <= i < |Pitchers(rows)|
    ensures exists r :: r in rows && (Pitchers(rows)[i] == r.home || Pitchers(rows)[i] == r.away)
  {
    if i < |rows| {
      assert rows[i] in rows;
    } else {
      assert rows[i - |rows|] in rows;
    }
  }

  /** Every name of the corrected list is the announced probable starter of
      a scheduled game that the broadcast table marks as televised. */
  lemma ListedAreTelevisedProbables(table: seq<BroadcastRow>, games: seq<ScheduleRow>, n: string)
    requires n in Listed(Pitchers(TvRows(LeftJoin(table, games))))
    ensures n != ""
    ensures exists m :: m in games && BroadcastRow(m.gamePk, true) in table
                        && (n == m.homeProbable || n == m.awayProbable)
  {
    var tv := TvRows(LeftJoin(table, games));
    var cs := Pitchers(tv);
    ListedSpec(cs);
    var i :| 0 <= i < |cs| && cs[i] == Name(n);
    PitcherCell(tv, i);
    var r :| r in tv && (Name(n) == r.home || Name(n) == r.away);
    LeftJoinSource(table, games, r);
    var m :| m in games && m.gamePk == r.gamePk && r.home.s == m.homeProbable && r.away == Name(m.awayProbable);
  }

  /** Every schedule row of a game in the broadcast table gives a merged
      row holding its two probable starters. */
  lemma {:induction false} LeftJoinHas(table: seq<BroadcastRow>, games: seq<ScheduleRow>,
                                       b: BroadcastRow, m: ScheduleRow)
    requires b in table && m in games && m.gamePk == b.gamePk
    ensures TvRow(b.gamePk, b.onTv, Name(m.homeProbable), Name(m.awayProbable)) in LeftJoin(table, games)
  {
    var row := TvRow(b.gamePk, b.onTv, Name(m.homeProbable), Name(m.awayProbable));
    if table[0] == b {
      var ms := ScheduleMatches(games, b.gamePk);
      assert m in ms;
      var k :| 0 <= k < |ms| && ms[k] == m;
      assert JoinRow(b, games)[k] == row;
      assert row in JoinRow(b, games);
    } else {
      LeftJoinHas(table[1..], games, b, m);
    }
  }

  /** Conversely, every announced starter of a scheduled game that the
      broadcast table marks as televised is in the corrected list. */
  lemma TelevisedProbablesListed(table: seq<BroadcastRow>, games: seq<ScheduleRow>,
                                 b: BroadcastRow, m: ScheduleRow)
    requires b in table && b.onTv && m in games && m.gamePk == b.gamePk
    ensures m.homeProbable != "" ==> m.homeProbable in Listed(Pitchers(TvRows(LeftJoin(table, games))))
    ensures m.awayProbable != "" ==> m.awayProbable in Listed(Pitchers(TvRows(LeftJoin(table, games))))
  {
    var row := TvRow(b.gamePk, b.onTv, Name(m.homeProbable), Name(m.awayProbable));
    LeftJoinHas(table, games, b, m);
    var tv := TvRows(LeftJoin(table, games));
    assert row in tv;
    var i :| 0 <= i < |tv| && tv[i] == row;
    var cs := Pitchers(tv);
    assert cs[i] == Name(m.homeProbable) && cs[|tv| + i] == Name(m.awayProbable);
    ListedSpec(cs);
  }

  /** The corrected list holds exactly the announced starters of the
      scheduled games that the broadcast table marks as televised. */
  lemma ListedExactlyTelevisedProbables(table: seq<BroadcastRow>, games: seq<ScheduleRow>, n: string)
    ensures n in Listed(Pitchers(TvRows(LeftJoin(table, games)))) <==>
              n != "" && exists b, m :: b in table && b.onTv && m in games && m.gamePk == b.gamePk
                                        && (n == m.homeProbable || n == m.awayProbable)
  {
    if n in Listed(Pitchers(TvRows(LeftJoin(table, games)))) {
      ListedAreTelevisedProbables(table, games, n);
      var m :| m in games && BroadcastRow(m.gamePk, true) in table
               && (n == m.homeProbable || n == m.awayProbable);
      var b := BroadcastRow(m.gamePk, true);
      assert b in table && b.onTv && m in games && m.gamePk == b.gamePk;
    }
    if n != "" && exists b, m :: b in table && b.onTv && m in games && m.gamePk == b.gamePk
                                 && (n == m.homeProbable || n == m.awayProbable) {
      var b, m :| b in table && b.onTv && m in games && m.gamePk == b.gamePk
                  && (n == m.homeProbable || n == m.awayProbable);
      TelevisedProbablesListed(table, games, b, m);
    }
  }

  /** Both lists take the home column first, then the away column. */
  lemma ListedHomeThenAway(rows: seq<TvRow>)
    ensures Listed(Pitchers(rows)) == Listed(HomeCells(rows)) + Listed(AwayCells(rows))
    ensures ListedAsWritten(Pitchers(rows)) == ListedAsWritten(HomeCells(rows)) + ListedAsWritten(AwayCells(rows))
  {
    ListedAppend(HomeCells(rows), AwayCells(rows));
  }

  // ---------------------------------------------------------------------
  // The NaN listing

  /** A televised game that the schedule does not list puts two "nan"
      entries in the script's list, which the intended list leaves out. */
  lemma MissingGameListsNaN()
    ensures TodayTvListAsWritten([BroadcastRow(7, true)], [ScheduleRow(8, "A", "B")])
            == TvList(TvContent(["nan", "nan"]))
    ensures TodayTvList([BroadcastRow(7, true)], [ScheduleRow(8, "A", "B")])
            == TvList(TvContent([]))
  {
    var table := [BroadcastRow(7, true)];
    var games := [ScheduleRow(8, "A", "B")];
    assert ScheduleMatches(games, 7) == [];
    var row := TvRow(7, true, NaN, NaN);
    assert LeftJoin(table, games) == [row] + LeftJoin([], games);
    assert TvRows([row]) == [row] + TvRows([]);
    assert Pitchers([row]) == [NaN, NaN];
    assert [NaN, NaN][1..] == [NaN];
    assert ListedAsWritten([NaN, NaN]) == ["nan"] + ListedAsWritten([NaN]);
    assert ListedAsWritten([NaN]) == ["nan"] + ListedAsWritten([]);
    assert Listed([NaN, NaN]) == [] + Listed([NaN]);
    assert Listed([NaN]) == [] + Listed([]);
    assert ListedAsWritten([NaN, NaN]) == ["nan", "nan"];
    assert TvRows(LeftJoin(table, games)) == [row];
  }

  /** When every broadcast row finds its game in the schedule, the script's
      list and the intended list coincide. */
  lemma AgreeWhenScheduleComplete(table: seq<BroadcastRow>, games: seq<ScheduleRow>)
    requires forall b :: b in table ==> ScheduleMatches(games, b.gamePk) != []
    ensures TodayTvListAsWritten(table, games) == TodayTvList(table, games)
  {
    if games != [] && table != [] {
      var tv := TvRows(LeftJoin(table, games));
      var cs := Pitchers(tv);
      forall i | 0 <= i < |cs|
        ensures cs[i].Name?
      {
        PitcherCell(tv, i);
        var r :| r in tv && (cs[i] == r.home || cs[i] == r.away);
        LeftJoinSource(table, games, r);
      }
      ListedAgreeWithoutNaN(cs);
    }
  }

  // ---------------------------------------------------------------------
  // A worked example

  /** One televised game whose home starter is announced and whose away
      starter is not: the list holds the single line "A. Jones - ". */
  lemma JonesScenario()
    ensures TodayTvList([BroadcastRow(1, true)], [ScheduleRow(1, "A. Jones", "")])
            == TvList(TvHeader + "\n" + "A. Jones - ")
    ensures TodayTvListAsWritten([BroadcastRow(1, true)], [ScheduleRow(1, "A. Jones", "")])
            == TvList(TvHeader + "\n" + "A. Jones - ")
  {
    var table := [BroadcastRow(1, true)];
    var m := ScheduleRow(1, "A. Jones", "");
    assert ScheduleMatches([m], 1) == [m];
    LeftJoinOne(BroadcastRow(1, true), [m], m);
    var row := TvRow(1, true, Name("A. Jones"), Name(""));
    assert TvRows([row]) == [row] + TvRows([]);
    var cs := [Name("A. Jones"), Name("")];
    assert Pitchers([row]) == cs;
    assert cs[1..] == [Name("")];
    assert Listed(cs) == ["A. Jones"] + Listed([Name("")]);
    assert Listed([Name("")]) == [] + Listed([]);
    ListedAgreeWithoutNaN(cs);
    assert Join("\n", ["A. Jones - "]) == "A. Jones - ";
    assert "A. Jones" + " - " == "A. Jones - ";
    assert ListLines(["A. Jones"]) == ["A. Jones - "];
  }
}
